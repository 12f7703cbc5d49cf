/** Length-prefixed frames and the tagged handshake replies (internal/protocol/protocol.go). */
module Frames {
  import opened Prelude
  import opened Wire

  const MAX_FRAME: nat := 8 * 1024 * 1024

  function Frame(payload: bytes): bytes
    requires |payload| <= MAX_FRAME
  {
    PutUint32(|payload|) + payload
  }

  /** A payload too large is refused before anything is written. */
  method SendFrame(w: Writer, payload: bytes) returns (ok: bool)
    modifies w
    ensures ok <==> |payload| <= MAX_FRAME
    ensures w.data == if ok then old(w.data) + Frame(payload) else old(w.data)
  {
    if |payload| > MAX_FRAME {
      return false;
    }
    w.Write(PutUint32(|payload|));
    w.Write(payload);
    assert w.data == old(w.data) + Frame(payload);
    ok := true;
  }

  datatype FrameErr = Read(err: ReadErr) | TooLarge

  datatype FrameResult = Payload(payload: bytes) | Failed(err: FrameErr)

  /** What reading one frame yields, and what it leaves in the stream. */
  function FirstFrame(input: bytes): (FrameResult, bytes) {
    if |input| < 4 then (Failed(Read(FullErr(4, |input|).value)), [])
    else
      var n, body := Uint32(input[..4]), input[4..];
      if n > MAX_FRAME then (Failed(TooLarge), body)
      else if |body| < n then (Failed(Read(FullErr(n, |body|).value)), [])
      else (Payload(body[..n]), body[n..])
  }

  method ReadFrame(r: Reader) returns (res: FrameResult)
    modifies r
    ensures (res, r.rest) == FirstFrame(old(r.rest))
  {
    var header := new byte[4];
    var n, err := r.ReadFull(header);
    if err.Some? {
      return Failed(Read(err.value));
    }
    assert header[..] == header[..4];
    var length := Uint32(header[..]);
    if length > MAX_FRAME {
      return Failed(TooLarge);
    }
    var payload := new byte[length];
    n, err := r.ReadFull(payload);
    if err.Some? {
      return Failed(Read(err.value));
    }
    assert payload[..] == payload[..length];
    res := Payload(payload[..]);
  }

  function FrameAll(payloads: seq<bytes>): bytes
    requires forall p <- payloads :: |p| <= MAX_FRAME
  {
    if payloads == [] then [] else Frame(payloads[0]) + FrameAll(payloads[1..])
  }

  /** Reading n frames, as far as that succeeds. */
  function ReadMany(input: bytes, n: nat): (seq<bytes>, bytes)
    decreases n
  {
    if n == 0 then ([], input)
    else
      var (res, rest) := FirstFrame(input);
      if res.Failed? then ([], rest)
      else var (more, rest') := ReadMany(rest, n - 1); ([res.payload] + more, rest')
  }

  lemma FirstFrameOf(payload: bytes, tail: bytes)
    requires |payload| <= MAX_FRAME
    ensures FirstFrame(Frame(payload) + tail) == (Payload(payload), tail)
  {
    var input := Frame(payload) + tail;
    assert input[..4] == PutUint32(|payload|);
    Uint32RoundTrip(|payload|);
    assert input[4..] == payload + tail;
    assert (payload + tail)[..|payload|] == payload && (payload + tail)[|payload|..] == tail;
  }

  /** Reading frame by frame, the input yields exactly these payloads and then the tail. */
  ghost predicate YieldsFrames(input: bytes, payloads: seq<bytes>, tail: bytes)
    decreases |payloads|
  {
    if payloads == [] then input == tail
    else
      var (res, rest) := FirstFrame(input);
      res == Payload(payloads[0]) && YieldsFrames(rest, payloads[1..], tail)
  }

  lemma FrameAllCons(payloads: seq<bytes>, tail: bytes)
    requires payloads != [] && forall p <- payloads :: |p| <= MAX_FRAME
    ensures FrameAll(payloads) + tail == Frame(payloads[0]) + (FrameAll(payloads[1..]) + tail)
  {
  }

  lemma {:induction false} FramesYield(payloads: seq<bytes>, tail: bytes)
    requires forall p <- payloads :: |p| <= MAX_FRAME
    ensures YieldsFrames(FrameAll(payloads) + tail, payloads, tail)
  {
    if payloads == [] {
      assert FrameAll(payloads) + tail == tail;
    } else {
      FrameAllCons(payloads, tail);
      FirstFrameOf(payloads[0], FrameAll(payloads[1..]) + tail);
      FramesYield(payloads[1..], tail);
    }
  }

  lemma {:induction false} ReadManyYielded(input: bytes, payloads: seq<bytes>, tail: bytes)
    requires YieldsFrames(input, payloads, tail)
    ensures ReadMany(input, |payloads|) == (payloads, tail)
    decreases |payloads|
  {
    if payloads != [] {
      ReadManyYielded(FirstFrame(input).1, payloads[1..], tail);
      assert [payloads[0]] + payloads[1..] == payloads;
    }
  }

  /** Any frames sent are read back in order, and the bytes after them are left alone. */
  lemma FramesRoundTrip(payloads: seq<bytes>, tail: bytes)
    requires forall p <- payloads :: |p| <= MAX_FRAME
    ensures ReadMany(FrameAll(payloads) + tail, |payloads|) == (payloads, tail)
  {
    FramesYield(payloads, tail);
    ReadManyYielded(FrameAll(payloads) + tail, payloads, tail);
  }

  /** Prefix freedom: a stream starts with the frames of at most one sequence of a given length. */
  lemma FramesUnique(ps: seq<bytes>, qs: seq<bytes>, s: bytes, t: bytes)
    requires forall p <- ps :: |p| <= MAX_FRAME
    requires forall q <- qs :: |q| <= MAX_FRAME
    requires |ps| == |qs| && FrameAll(ps) + s == FrameAll(qs) + t
    ensures ps == qs && s == t
  {
    FramesRoundTrip(ps, s);
    FramesRoundTrip(qs, t);
  }

  /**
    A frame is read whole or not at all: no proper prefix of a frame yields a payload. The end of the
    input is a clean one only before a frame or right behind its header.
   */
  lemma TruncatedFrameFails(payload: bytes, k: nat)
    requires |payload| <= MAX_FRAME && k < |Frame(payload)|
    ensures FirstFrame(Frame(payload)[..k]) == (Failed(Read(if k == 0 || k == 4 then EOF else UnexpectedEOF)), [])
  {
    if k >= 4 {
      assert Frame(payload)[..k][..4] == PutUint32(|payload|);
      Uint32RoundTrip(|payload|);
    }
  }

  /** A frame that announces more than the limit is refused before any of it is read. */
  lemma OversizedFrameRefused(n: uint32, tail: bytes)
    requires n > MAX_FRAME
    ensures FirstFrame(PutUint32(n) + tail) == (Failed(TooLarge), tail)
  {
    var input := PutUint32(n) + tail;
    assert input[..4] == PutUint32(n) && input[4..] == tail;
    Uint32RoundTrip(n);
  }

  // Handshake replies --------------------------------------------------------------------------

  const HS_OK: byte := 1
  const HS_ERR: byte := 2

  /** The codec of an error reply: an empty reason marshals to nothing, as every default value does. */
  datatype ReasonCodec = ReasonCodec(marshal: string -> bytes, unmarshal: bytes -> Option<string>)
  {
    ghost predicate Lawful() {
      && (forall r :: unmarshal(marshal(r)) == Some(r))
      && marshal("") == []
    }
  }

  function UnmarshalErr(c: ReasonCodec, data: bytes): Option<string> {
    if |data| < 2 || data[0] != HS_ERR then None
    else
      var m := c.unmarshal(data[1..]);
      if m.None? || m.value == "" then None else m
  }

  function UnmarshalOK<T>(unmarshal: bytes -> Option<T>, data: bytes): Option<T> {
    if |data| < 2 || data[0] != HS_OK then None else unmarshal(data[1..])
  }

  /** An error reply is understood as that error exactly when its reason is not empty, and never as an acceptance. */
  lemma ErrorRepliesUnderstood<T>(c: ReasonCodec, unmarshalOk: bytes -> Option<T>, reason: string)
    requires c.Lawful()
    ensures var data := [HS_ERR] + c.marshal(reason);
      && UnmarshalErr(c, data) == (if reason == "" then None else Some(reason))
      && UnmarshalOK(unmarshalOk, data) == None
  {
    var data := [HS_ERR] + c.marshal(reason);
    assert data[1..] == c.marshal(reason);
    assert c.unmarshal(c.marshal(reason)) == Some(reason) && c.unmarshal(c.marshal("")) == Some("");
  }

  /** An acceptance is understood as what it says exactly when it says anything that is marshalled, as its version always is. */
  lemma AcceptancesUnderstood<T>(c: ReasonCodec, marshal: T -> bytes, unmarshal: bytes -> Option<T>, reply: T)
    requires unmarshal(marshal(reply)) == Some(reply)
    ensures var data := [HS_OK] + marshal(reply);
      && UnmarshalOK(unmarshal, data) == (if marshal(reply) == [] then None else Some(reply))
      && UnmarshalErr(c, data) == None
  {
    var data := [HS_OK] + marshal(reply);
    assert data[1..] == marshal(reply);
  }

  /** No frame at all is read both as an acceptance and as an error. */
  lemma RepliesDisjoint<T>(c: ReasonCodec, unmarshalOk: bytes -> Option<T>, data: bytes)
    ensures UnmarshalErr(c, data) == None || UnmarshalOK(unmarshalOk, data) == None
  {
  }
}
