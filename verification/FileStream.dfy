/**
  Chunked file encryption (internal/crypto/chunk.go, internal/crypto/stream.go): a file is cut
  into chunks, each sealed with its index and file name as associated data, each ciphertext
  prefixed with its length, and the stream closed by a zero length.

  The cipher suite is a parameter. What is assumed of it is stated where it is used.
 */
module FileStream {
  import opened Prelude
  import opened Wire

  const CHUNK: nat := 64 * 1024
  const NONCE: nat := 12
  const OVERHEAD: nat := 28
  const STREAM_LIMIT: nat := 2 * CHUNK

  /** seal(key, nonce, aad, plaintext), open(key, aad, ciphertext). */
  datatype Suite = Suite(seal: (bytes, bytes, bytes, bytes) -> bytes,
                         open: (bytes, bytes, bytes) -> Option<bytes>,
                         sha256: bytes -> bytes)
  {
    /** What an AEAD with a prepended nonce does for honest parties. */
    ghost predicate Lawful() {
      forall key, nonce, aad, pt | |nonce| == NONCE ::
        && |seal(key, nonce, aad, pt)| == OVERHEAD + |pt|
        && open(key, aad, seal(key, nonce, aad, pt)) == Some(pt)
    }
  }

  /** The 32-bit index of the i-th chunk. */
  function Index(i: nat): uint32 { i % TWO32 }

  /** idx++ on the 32-bit index. */
  function Incremented(idx: uint32): uint32 {
    if idx == 0xFFFF_FFFF then 0 else idx + 1
  }

  lemma IndexNext(i: nat)
    ensures Index(i + 1) == Incremented(Index(i))
  {
  }

  function ChunkAAD(fileID: bytes, idx: uint32): bytes {
    PutUint32(idx) + fileID
  }

  /** The associated data names index and file unambiguously. */
  lemma ChunkAADInjective(f: bytes, i: uint32, g: bytes, j: uint32)
    requires ChunkAAD(f, i) == ChunkAAD(g, j)
    ensures f == g && i == j
  {
    assert f == ChunkAAD(f, i)[4..] && g == ChunkAAD(g, j)[4..];
    assert PutUint32(i) == ChunkAAD(f, i)[..4] && PutUint32(j) == ChunkAAD(g, j)[..4];
    PutUint32Injective(i, j);
  }

  function EncryptChunk(s: Suite, key: bytes, fileID: bytes, idx: uint32, nonce: bytes, pt: bytes): bytes {
    s.seal(key, nonce, ChunkAAD(fileID, idx), pt)
  }

  function DecryptChunk(s: Suite, key: bytes, fileID: bytes, idx: uint32, ct: bytes): Option<bytes> {
    if |ct| < NONCE then None else s.open(key, ChunkAAD(fileID, idx), ct)
  }

  /** "conner-file-v1" */
  const KEY_LABEL: bytes := [99, 111, 110, 110, 101, 114, 45, 102, 105, 108, 101, 45, 118, 49]

  function FileContentKey(s: Suite, token: bytes, fileID: bytes): bytes {
    s.sha256(KEY_LABEL + token + fileID)
  }

  ghost predicate Collides(hash: bytes -> bytes, a: bytes, b: bytes) {
    a != b && hash(a) == hash(b)
  }

  /** Tokens of one length, as all hub tokens are: two files or two tokens share a content key only through a hash collision. */
  lemma ContentKeysDiffer(s: Suite, t: bytes, f: bytes, u: bytes, g: bytes)
    requires |t| == |u| && (t, f) != (u, g)
    ensures FileContentKey(s, t, f) == FileContentKey(s, u, g)
        <==> Collides(s.sha256, KEY_LABEL + t + f, KEY_LABEL + u + g)
  {
    var a, b := KEY_LABEL + t + f, KEY_LABEL + u + g;
    assert t == a[|KEY_LABEL|..][..|t|] && u == b[|KEY_LABEL|..][..|u|];
    assert f == a[|KEY_LABEL| + |t|..] && g == b[|KEY_LABEL| + |u|..];
  }

  // Cutting ------------------------------------------------------------------------------------

  function Cut(data: bytes): seq<bytes>
    decreases |data|
  {
    if data == [] then [] else [data[..Min(CHUNK, |data|)]] + Cut(data[Min(CHUNK, |data|)..])
  }

  function Concat(parts: seq<bytes>): bytes {
    if parts == [] then [] else parts[0] + Concat(parts[1..])
  }

  /** ceil(|data| / 64 KiB) chunks, all full but possibly the last, none empty, that put the file back together. */
  lemma {:induction false} CutShape(data: bytes)
    ensures |Cut(data)| == (|data| + CHUNK - 1) / CHUNK
    ensures Concat(Cut(data)) == data
    ensures forall i | 0 <= i < |Cut(data)| :: 1 <= |Cut(data)[i]| <= CHUNK
    ensures forall i | 0 <= i < |Cut(data)| - 1 :: |Cut(data)[i]| == CHUNK
    decreases |data|
  {
    if data != [] {
      var k := Min(CHUNK, |data|);
      CutShape(data[k..]);
      assert data[..k] + data[k..] == data;
      assert Cut(data) == [data[..k]] + Cut(data[k..]);
    }
  }

  lemma {:induction false} ConcatPrefix(parts: seq<bytes>, m: nat)
    requires m <= |parts|
    ensures Concat(parts[..m]) <= Concat(parts)
  {
    if m > 0 {
      assert parts[..m][1..] == parts[1..][..m - 1];
      ConcatPrefix(parts[1..], m - 1);
    }
  }

  // The encoding ---------------------------------------------------------------------------------

  /** The ciphertexts of chunks i, i+1, ... with the i-th nonce drawn being nonces(i). */
  function Seals(s: Suite, key: bytes, fileID: bytes, nonces: nat -> bytes, chunks: seq<bytes>, i: nat): (r: seq<bytes>)
    ensures |r| == |chunks|
    decreases |chunks|
  {
    if chunks == [] then []
    else [EncryptChunk(s, key, fileID, Index(i), nonces(i), chunks[0])] + Seals(s, key, fileID, nonces, chunks[1..], i + 1)
  }

  function Record(ct: bytes): bytes {
    PutUint32(|ct| % TWO32) + ct
  }

  function Records(cts: seq<bytes>): bytes {
    if cts == [] then [] else Record(cts[0]) + Records(cts[1..])
  }

  const TERMINATOR: bytes := [0, 0, 0, 0]

  /** The records of a file, or of what is left of it from chunk i on. */
  function Body(s: Suite, key: bytes, fileID: bytes, nonces: nat -> bytes, data: bytes, i: nat): bytes {
    Records(Seals(s, key, fileID, nonces, Cut(data), i))
  }

  function Encoding(s: Suite, key: bytes, fileID: bytes, nonces: nat -> bytes, data: bytes): bytes {
    Body(s, key, fileID, nonces, data, 0) + TERMINATOR
  }

  lemma BodyStep(s: Suite, key: bytes, fileID: bytes, nonces: nat -> bytes, data: bytes, i: nat)
    requires data != []
    ensures var n := Min(CHUNK, |data|);
      Body(s, key, fileID, nonces, data, i) ==
        Record(EncryptChunk(s, key, fileID, Index(i), nonces(i), data[..n]))
        + Body(s, key, fileID, nonces, data[n..], i + 1)
  {
    var n := Min(CHUNK, |data|);
    assert Cut(data) == [data[..n]] + Cut(data[n..]);
    var cts := Seals(s, key, fileID, nonces, Cut(data), i);
    assert cts[1..] == Seals(s, key, fileID, nonces, Cut(data[n..]), i + 1);
  }

  method WriteRecord(w: Writer, ct: bytes)
    modifies w
    ensures w.data == old(w.data) + Record(ct)
  {
    w.Write(PutUint32(|ct| % TWO32));
    w.Write(ct);
    assert w.data == old(w.data) + Record(ct);
  }

  /** Reads the input to its end through one buffer that every round overwrites in part or in full. */
  method EncryptReaderTo(w: Writer, r: Reader, s: Suite, key: bytes, fileID: bytes, nonces: nat -> bytes)
    modifies w, r
    ensures w.data == old(w.data) + Encoding(s, key, fileID, nonces, old(r.rest))
    ensures r.rest == []
  {
    var buf := new byte[CHUNK];
    var idx: uint32, drawn: nat := 0, 0;
    var err: Option<ReadErr> := None;
    ghost var goal := w.data + Body(s, key, fileID, nonces, r.rest, 0);
    while err.None?
      invariant buf.Length == CHUNK && idx == Index(drawn)
      invariant goal == w.data + Body(s, key, fileID, nonces, r.rest, drawn)
      invariant err.Some? ==> r.rest == []
      decreases err.None?, |r.rest|
    {
      ghost var left := r.rest;
      var n;
      n, err := r.ReadFull(buf);
      if n > 0 {
        BodyStep(s, key, fileID, nonces, left, drawn);
        var ct := EncryptChunk(s, key, fileID, idx, nonces(drawn), buf[..n]);
        WriteRecord(w, ct);
        IndexNext(drawn);
        idx, drawn := Incremented(idx), drawn + 1;
      }
    }
    assert Body(s, key, fileID, nonces, [], drawn) == [] && goal == w.data;
    w.Write(TERMINATOR);
    assert goal + TERMINATOR == old(w.data) + Encoding(s, key, fileID, nonces, old(r.rest));
  }

  // The decoding ---------------------------------------------------------------------------------

  datatype StreamErr = Read(err: ReadErr) | TooLong | NotAuthentic

  /** What reading a record under a length limit finds. */
  datatype Next = Rec(ct: bytes, rest: bytes) | End(rest: bytes) | Bad(err: StreamErr, rest: bytes)

  function NextRecord(limit: nat, input: bytes): (r: Next)
    ensures |r.rest| <= |input| && (r.Rec? ==> |r.rest| < |input|)
  {
    if |input| < 4 then Bad(Read(FullErr(4, |input|).value), [])
    else
      var n, body := Uint32(input[..4]), input[4..];
      if n == 0 then End(body)
      else if n > limit then Bad(TooLong, body)
      else if |body| < n then Bad(Read(FullErr(n, |body|).value), [])
      else Rec(body[..n], body[n..])
  }

  /** Reads one record, as both consumers of the format do. */
  method ReadRecord(r: Reader, limit: nat) returns (next: Next)
    modifies r
    ensures next == NextRecord(limit, old(r.rest)) && r.rest == next.rest
  {
    var hdr := new byte[4];
    var n, err := r.ReadFull(hdr);
    if err.Some? {
      return Bad(Read(err.value), r.rest);
    }
    assert hdr[..] == hdr[..4];
    var len := Uint32(hdr[..]);
    if len == 0 {
      return End(r.rest);
    }
    if len > limit {
      return Bad(TooLong, r.rest);
    }
    var ct := new byte[len];
    n, err := r.ReadFull(ct);
    if err.Some? {
      return Bad(Read(err.value), r.rest);
    }
    assert ct[..] == ct[..len];
    next := Rec(ct[..], r.rest);
  }

  /** What decoding writes, what it leaves unread, and the error it ends with, if any. */
  datatype Outcome = Outcome(out: bytes, rest: bytes, err: Option<StreamErr>)

  function Decode(s: Suite, key: bytes, fileID: bytes, input: bytes, i: nat): Outcome
    decreases |input|
  {
    match NextRecord(STREAM_LIMIT, input)
    case End(rest) => Outcome([], rest, None)
    case Bad(err, rest) => Outcome([], rest, Some(err))
    case Rec(ct, rest) =>
      var pt := DecryptChunk(s, key, fileID, Index(i), ct);
      if pt.None? then Outcome([], rest, Some(NotAuthentic))
      else var more := Decode(s, key, fileID, rest, i + 1); more.(out := pt.value + more.out)
  }

  /** The outcome with more output in front. */
  function After(done: bytes, d: Outcome): Outcome {
    d.(out := done + d.out)
  }

  method DecryptReaderTo(w: Writer, r: Reader, s: Suite, key: bytes, fileID: bytes) returns (err: Option<StreamErr>)
    modifies w, r
    ensures Outcome(w.data, r.rest, err) == After(old(w.data), Decode(s, key, fileID, old(r.rest), 0))
  {
    var idx: uint32 := 0;
    ghost var i: nat := 0;
    ghost var goal := After(w.data, Decode(s, key, fileID, r.rest, 0));
    while true
      invariant idx == Index(i) && goal == After(w.data, Decode(s, key, fileID, r.rest, i))
      decreases |r.rest|
    {
      ghost var left := r.rest;
      var next := ReadRecord(r, STREAM_LIMIT);
      match next {
        case End(_) => return None;
        case Bad(e, _) => return Some(e);
        case Rec(ct, rest) =>
          var pt := DecryptChunk(s, key, fileID, idx, ct);
          if pt.None? {
            return Some(NotAuthentic);
          }
          ghost var more := Decode(s, key, fileID, rest, i + 1);
          assert w.data + (pt.value + more.out) == (w.data + pt.value) + more.out;
          w.Write(pt.value);
          IndexNext(i);
          idx, i := Incremented(idx), i + 1;
      }
    }
  }
}
