/** What tampering with a chunked stream can do: cut the file short, and be reported. */
module FileTampering {
  import opened Prelude
  import opened Wire
  import opened FileStream
  import opened FileTheorems

  /** How many leading elements two sequences share. */
  function Common(a: seq<bytes>, b: seq<bytes>): nat {
    if a == [] || b == [] || a[0] != b[0] then 0 else 1 + Common(a[1..], b[1..])
  }

  lemma {:induction false} CommonIsLongest(a: seq<bytes>, b: seq<bytes>)
    ensures Common(a, b) <= |a| && Common(a, b) <= |b|
    ensures a[..Common(a, b)] == b[..Common(a, b)]
    ensures Common(a, b) < |a| && Common(a, b) < |b| ==> a[Common(a, b)] != b[Common(a, b)]
  {
    if a != [] && b != [] && a[0] == b[0] {
      CommonIsLongest(a[1..], b[1..]);
      var k := Common(a[1..], b[1..]);
      assert a[..k + 1] == [a[0]] + a[1..][..k] && b[..k + 1] == [b[0]] + b[1..][..k];
    }
  }

  /**
    No forgery: if a ciphertext opens as the i-th chunk of the file, it is one of those that were
    sealed with the same key and the same associated data.
   */
  ghost predicate NotForged(s: Suite, key: bytes, fileID: bytes, cts: seq<bytes>, i: nat, ct: bytes) {
    DecryptChunk(s, key, fileID, Index(i), ct).Some? ==>
      exists k | 0 <= k < |cts| :: cts[k] == ct && ChunkAAD(fileID, Index(k)) == ChunkAAD(fileID, Index(i))
  }

  lemma CommonStep(presented: seq<bytes>, cts: seq<bytes>, i: nat)
    requires presented != [] && i <= |cts|
    ensures Common(presented, cts[i..]) ==
      if i < |cts| && presented[0] == cts[i] then 1 + Common(presented[1..], cts[i + 1..]) else 0
  {
    if i < |cts| {
      assert cts[i..][0] == cts[i] && cts[i..][1..] == cts[i + 1..];
    }
  }

  lemma ConcatStep(chunks: seq<bytes>, i: nat, n: nat)
    requires i + 1 + n <= |chunks|
    ensures Concat(chunks[i..i + (1 + n)]) == chunks[i] + Concat(chunks[i + 1..i + 1 + n])
  {
    assert chunks[i..i + (1 + n)] == [chunks[i]] + chunks[i + 1..i + 1 + n];
  }

  ghost predicate NoneForged(s: Suite, key: bytes, fileID: bytes, cts: seq<bytes>, i: nat, presented: seq<bytes>) {
    forall j | 0 <= j < |presented| :: NotForged(s, key, fileID, cts, i + j, presented[j])
  }

  lemma NoneForgedTail(s: Suite, key: bytes, fileID: bytes, cts: seq<bytes>, i: nat, presented: seq<bytes>)
    requires presented != [] && NoneForged(s, key, fileID, cts, i, presented)
    ensures NotForged(s, key, fileID, cts, i, presented[0])
    ensures NoneForged(s, key, fileID, cts, i + 1, presented[1..])
  {
    assert NotForged(s, key, fileID, cts, i + 0, presented[0]);
    forall j | 0 <= j < |presented[1..]| ensures NotForged(s, key, fileID, cts, i + 1 + j, presented[1..][j]) {
      assert NotForged(s, key, fileID, cts, i + (j + 1), presented[j + 1]) && i + (j + 1) == i + 1 + j;
    }
  }

  lemma IndexBelowWrap(i: nat)
    requires i < TWO32
    ensures Index(i) == i
  {
  }

  /** What opens as chunk i is the i-th ciphertext. */
  lemma OpensOnlyInPlace(s: Suite, key: bytes, fileID: bytes, cts: seq<bytes>, i: nat, ct: bytes)
    requires |cts| < TWO32 && i <= |cts|
    requires NotForged(s, key, fileID, cts, i, ct) && DecryptChunk(s, key, fileID, Index(i), ct).Some?
    ensures i < |cts| && ct == cts[i]
  {
    var k :| 0 <= k < |cts| && cts[k] == ct && ChunkAAD(fileID, Index(k)) == ChunkAAD(fileID, Index(i));
    ChunkAADInjective(fileID, Index(k), fileID, Index(i));
    IndexBelowWrap(k);
    IndexBelowWrap(i);
  }

  /** What decryption writes for these records, presented from index i on. */
  function Opened(s: Suite, key: bytes, fileID: bytes, presented: seq<bytes>, i: nat): bytes
    decreases |presented|
  {
    if presented == [] then []
    else
      var pt := DecryptChunk(s, key, fileID, Index(i), presented[0]);
      if pt.None? then [] else pt.value + Opened(s, key, fileID, presented[1..], i + 1)
  }

  lemma {:induction false} DecodeWritesOpened(s: Suite, key: bytes, fileID: bytes, input: bytes, i: nat)
    ensures Decode(s, key, fileID, input, i).out == Opened(s, key, fileID, Parse(STREAM_LIMIT, input), i)
    decreases |input|
  {
    var next := NextRecord(STREAM_LIMIT, input);
    if next.Rec? {
      DecodeWritesOpened(s, key, fileID, next.rest, i + 1);
    }
  }

  lemma OpenAsNext(s: Suite, key: bytes, fileID: bytes, cts: seq<bytes>, chunks: seq<bytes>, i: nat)
    requires i < |cts| == |chunks| && OpenAs(s, key, fileID, cts[i..], chunks[i..], i)
    ensures DecryptChunk(s, key, fileID, Index(i), cts[i]) == Some(chunks[i])
    ensures OpenAs(s, key, fileID, cts[i + 1..], chunks[i + 1..], i + 1)
  {
    assert cts[i..][1..] == cts[i + 1..] && chunks[i..][1..] == chunks[i + 1..];
  }

  /** What opens next is in its place, and only what is in its place opens. */
  lemma NextInPlace(s: Suite, key: bytes, fileID: bytes, cts: seq<bytes>, chunks: seq<bytes>, i: nat, ct: bytes)
    requires |cts| == |chunks| < TWO32 && i <= |cts|
    requires OpenAs(s, key, fileID, cts[i..], chunks[i..], i) && NotForged(s, key, fileID, cts, i, ct)
    ensures var pt := DecryptChunk(s, key, fileID, Index(i), ct);
      && (pt.Some? <==> i < |cts| && ct == cts[i])
      && (pt.Some? ==> pt.value == chunks[i] && OpenAs(s, key, fileID, cts[i + 1..], chunks[i + 1..], i + 1))
  {
    if DecryptChunk(s, key, fileID, Index(i), ct).Some? {
      OpensOnlyInPlace(s, key, fileID, cts, i, ct);
    }
    if i < |cts| {
      OpenAsNext(s, key, fileID, cts, chunks, i);
    }
  }

  lemma {:induction false} TamperedFrom(s: Suite, key: bytes, fileID: bytes, cts: seq<bytes>, chunks: seq<bytes>,
                                        presented: seq<bytes>, i: nat)
    requires |cts| == |chunks| < TWO32 && i <= |cts|
    requires OpenAs(s, key, fileID, cts[i..], chunks[i..], i)
    requires NoneForged(s, key, fileID, cts, i, presented)
    ensures i + Common(presented, cts[i..]) <= |chunks|
    ensures Opened(s, key, fileID, presented, i) == Concat(chunks[i..i + Common(presented, cts[i..])])
    decreases |presented|
  {
    if presented == [] {
      assert chunks[i..i + 0] == [];
    } else {
      var rest := presented[1..];
      NoneForgedTail(s, key, fileID, cts, i, presented);
      NextInPlace(s, key, fileID, cts, chunks, i, presented[0]);
      CommonStep(presented, cts, i);
      if DecryptChunk(s, key, fileID, Index(i), presented[0]).Some? {
        TamperedFrom(s, key, fileID, cts, chunks, rest, i + 1);
        ConcatStep(chunks, i, Common(rest, cts[i + 1..]));
      } else {
        assert chunks[i..i + 0] == [];
      }
    }
  }

  /**
    Tampering can only cut a file short, for every input whatsoever: if nothing in it is forged,
    what decryption writes is exactly the chunks before the first record that is missing or out
    of place; so a chunk-aligned prefix of the file.
   */
  lemma TamperedStreamYieldsPrefix(s: Suite, key: bytes, fileID: bytes, nonces: nat -> bytes, data: bytes, input: bytes)
    requires s.Lawful() && Nonces(nonces) && |Cut(data)| < TWO32
    requires NoneForged(s, key, fileID, Seals(s, key, fileID, nonces, Cut(data), 0), 0, Parse(STREAM_LIMIT, input))
    ensures var m := Common(Parse(STREAM_LIMIT, input), Seals(s, key, fileID, nonces, Cut(data), 0));
      && m <= |Cut(data)|
      && Decode(s, key, fileID, input, 0).out == Concat(Cut(data)[..m])
      && Decode(s, key, fileID, input, 0).out <= data
  {
    var cts, chunks := Seals(s, key, fileID, nonces, Cut(data), 0), Cut(data);
    var presented := Parse(STREAM_LIMIT, input);
    SealsOpen(s, key, fileID, nonces, chunks, 0);
    assert cts[0..] == cts && chunks[0..] == chunks;
    DecodeWritesOpened(s, key, fileID, input, 0);
    TamperedFrom(s, key, fileID, cts, chunks, presented, 0);
    var m := Common(presented, cts);
    assert chunks[0..0 + m] == chunks[..m];
    CutShape(data);
    ConcatPrefix(chunks, m);
  }

  // The reported error -------------------------------------------------------------------------

  /** What comes after the records in front of an input: the terminator, or something that is no record. */
  function AfterRecords(limit: nat, input: bytes): (r: Next)
    ensures !r.Rec?
    decreases |input|
  {
    var next := NextRecord(limit, input);
    if next.Rec? then AfterRecords(limit, next.rest) else next
  }

  lemma {:induction false} TamperedErr(s: Suite, key: bytes, fileID: bytes, cts: seq<bytes>, chunks: seq<bytes>,
                                       input: bytes, i: nat)
    requires |cts| == |chunks| < TWO32 && i <= |cts|
    requires OpenAs(s, key, fileID, cts[i..], chunks[i..], i)
    requires NoneForged(s, key, fileID, cts, i, Parse(STREAM_LIMIT, input))
    ensures var presented, end := Parse(STREAM_LIMIT, input), AfterRecords(STREAM_LIMIT, input);
      Decode(s, key, fileID, input, i).err ==
        if Common(presented, cts[i..]) < |presented| then Some(NotAuthentic)
        else if end.End? then None else Some(end.err)
    decreases |input|
  {
    var next := NextRecord(STREAM_LIMIT, input);
    if next.Rec? {
      ParseRecord(STREAM_LIMIT, input);
      var presented := Parse(STREAM_LIMIT, input);
      NoneForgedTail(s, key, fileID, cts, i, presented);
      NextInPlace(s, key, fileID, cts, chunks, i, next.ct);
      CommonStep(presented, cts, i);
      if DecryptChunk(s, key, fileID, Index(i), next.ct).Some? {
        assert presented[1..] == Parse(STREAM_LIMIT, next.rest);
        TamperedErr(s, key, fileID, cts, chunks, next.rest, i + 1);
      }
    }
  }

  /**
    Tampering is reported, for every input whatsoever: if nothing in it is forged, decryption reports
    success if and only if every record is in its place and the terminator follows the last one. It
    reports a chunk that does not open if some record is out of place, and what is wrong after the
    records otherwise.
   */
  lemma TamperedStreamReported(s: Suite, key: bytes, fileID: bytes, nonces: nat -> bytes, data: bytes, input: bytes)
    requires s.Lawful() && Nonces(nonces) && |Cut(data)| < TWO32
    requires NoneForged(s, key, fileID, Seals(s, key, fileID, nonces, Cut(data), 0), 0, Parse(STREAM_LIMIT, input))
    ensures var presented, end := Parse(STREAM_LIMIT, input), AfterRecords(STREAM_LIMIT, input);
      var inPlace := Common(presented, Seals(s, key, fileID, nonces, Cut(data), 0)) == |presented|;
      var err := Decode(s, key, fileID, input, 0).err;
      && (err == None <==> inPlace && end.End?)
      && (err == Some(NotAuthentic) <==> !inPlace)
      && (inPlace && end.Bad? ==> err == Some(end.err))
  {
    var cts, chunks := Seals(s, key, fileID, nonces, Cut(data), 0), Cut(data);
    SealsOpen(s, key, fileID, nonces, chunks, 0);
    assert cts[0..] == cts && chunks[0..] == chunks;
    CommonIsLongest(Parse(STREAM_LIMIT, input), cts);
    TamperedErr(s, key, fileID, cts, chunks, input, 0);
    NoAuthErrInFraming(STREAM_LIMIT, input);
  }

  lemma {:induction false} NoAuthErrInFraming(limit: nat, input: bytes)
    ensures AfterRecords(limit, input).Bad? ==> !AfterRecords(limit, input).err.NotAuthentic?
    decreases |input|
  {
    var next := NextRecord(limit, input);
    if next.Rec? { NoAuthErrInFraming(limit, next.rest); }
  }

  /** A record that announces more than the limit is refused before any of it is read. */
  lemma LongRecordRefused(limit: nat, n: uint32, tail: bytes)
    requires n > limit
    ensures NextRecord(limit, PutUint32(n) + tail) == Bad(TooLong, tail)
  {
    var input := PutUint32(n) + tail;
    assert input[..4] == PutUint32(n) && input[4..] == tail;
    Uint32RoundTrip(n);
  }

  /** A record too short to hold a nonce fails whatever the key, and ends the stream there. */
  lemma ShortRecordFails(s: Suite, key: bytes, fileID: bytes, ct: bytes, tail: bytes, i: nat)
    requires 1 <= |ct| < NONCE
    ensures Decode(s, key, fileID, Record(ct) + tail, i) == Outcome([], tail, Some(NotAuthentic))
  {
    NextIsRecord(STREAM_LIMIT, ct, tail);
  }

  /** How many of the records are complete within the first k bytes. */
  function Whole(cts: seq<bytes>, k: nat): (n: nat)
    ensures n <= |cts|
  {
    if cts == [] || k < |Record(cts[0])| then 0 else 1 + Whole(cts[1..], k - |Record(cts[0])|)
  }

  lemma CutRecord(limit: nat, ct: bytes, k: nat)
    requires 1 <= |ct| <= limit < TWO32 && k < |Record(ct)|
    ensures NextRecord(limit, Record(ct)[..k]).Bad? && NextRecord(limit, Record(ct)[..k]).err.Read?
  {
    assert |ct| % TWO32 == |ct|;
    if k >= 4 {
      assert Record(ct)[..k][..4] == PutUint32(|ct|);
      Uint32RoundTrip(|ct|);
    }
  }

  lemma CutBehindRecord(cts: seq<bytes>, k: nat)
    requires cts != [] && |Record(cts[0])| <= k <= |Records(cts)| + 4
    ensures (Records(cts) + TERMINATOR)[..k]
         == Record(cts[0]) + (Records(cts[1..]) + TERMINATOR)[..k - |Record(cts[0])|]
  {
    RecordsCons(cts, TERMINATOR);
  }

  /** Reading record by record, the input yields the first n of these records and then breaks off. */
  ghost predicate BreaksOffAfter(limit: nat, input: bytes, cts: seq<bytes>, n: nat)
    decreases n
  {
    var next := NextRecord(limit, input);
    if n == 0 then next.Bad? && next.err.Read?
    else next.Rec? && cts != [] && next.ct == cts[0] && BreaksOffAfter(limit, next.rest, cts[1..], n - 1)
  }

  lemma CutTerminator(limit: nat, k: nat)
    requires k < 4
    ensures BreaksOffAfter(limit, TERMINATOR[..k], [], 0)
  {
  }

  lemma BreaksOffLater(limit: nat, cts: seq<bytes>, whole: bytes, tail: bytes, n: nat)
    requires limit < TWO32 && cts != [] && 1 <= |cts[0]| <= limit && whole == Record(cts[0]) + tail
    requires BreaksOffAfter(limit, tail, cts[1..], n)
    ensures BreaksOffAfter(limit, whole, cts, n + 1)
  {
    NextIsRecord(limit, cts[0], tail);
  }

  lemma CutWithinRecord(cts: seq<bytes>, k: nat)
    requires cts != [] && k < |Record(cts[0])|
    ensures k <= |Records(cts)| && (Records(cts) + TERMINATOR)[..k] == Record(cts[0])[..k]
  {
    RecordsCons(cts, TERMINATOR);
  }

  lemma CutFirst(limit: nat, cts: seq<bytes>, k: nat)
    requires limit < TWO32 && Within(limit, cts) && k < |Records(cts)| + 4
    requires cts == [] || k < |Record(cts[0])|
    ensures BreaksOffAfter(limit, (Records(cts) + TERMINATOR)[..k], cts, 0)
  {
    if cts == [] {
      assert Records(cts) + TERMINATOR == TERMINATOR;
      CutTerminator(limit, k);
    } else {
      CutWithinRecord(cts, k);
      CutRecord(limit, cts[0], k);
    }
  }

  lemma WholeStep(cts: seq<bytes>, k: nat)
    requires cts != [] && |Record(cts[0])| <= k < |Records(cts)| + 4
    ensures k - |Record(cts[0])| < |Records(cts[1..])| + 4
    ensures Whole(cts, k) == Whole(cts[1..], k - |Record(cts[0])|) + 1
  {
    RecordsCons(cts, []);
  }

  lemma {:induction false} CutBreaksOff(limit: nat, cts: seq<bytes>, k: nat, input: bytes)
    requires limit < TWO32 && Within(limit, cts) && k < |Records(cts)| + 4
    requires input == (Records(cts) + TERMINATOR)[..k]
    ensures BreaksOffAfter(limit, input, cts, Whole(cts, k))
    decreases |cts|
  {
    if cts == [] || k < |Record(cts[0])| {
      CutFirst(limit, cts, k);
    } else {
      var rest := k - |Record(cts[0])|;
      WholeStep(cts, k);
      var tail := (Records(cts[1..]) + TERMINATOR)[..rest];
      CutBehindRecord(cts, k);
      CutBreaksOff(limit, cts[1..], rest, tail);
      BreaksOffLater(limit, cts, input, tail, Whole(cts[1..], rest));
    }
  }

  lemma ConcatFirst(chunks: seq<bytes>, n: nat)
    requires n < |chunks|
    ensures Concat(chunks[..n + 1]) == chunks[0] + Concat(chunks[1..][..n])
  {
    assert chunks[..n + 1] == [chunks[0]] + chunks[1..][..n];
  }

  lemma {:induction false} DecodeBreaksOff(s: Suite, key: bytes, fileID: bytes, input: bytes, cts: seq<bytes>,
                                           chunks: seq<bytes>, i: nat, n: nat)
    requires OpenAs(s, key, fileID, cts, chunks, i) && n <= |cts| == |chunks|
    requires BreaksOffAfter(STREAM_LIMIT, input, cts, n)
    ensures var d := Decode(s, key, fileID, input, i);
      d.out == Concat(chunks[..n]) && d.err.Some? && d.err.value.Read?
    decreases n
  {
    if n > 0 {
      var next := NextRecord(STREAM_LIMIT, input);
      DecodeRecord(s, key, fileID, input, i, chunks[0]);
      DecodeBreaksOff(s, key, fileID, next.rest, cts[1..], chunks[1..], i + 1, n - 1);
      ConcatFirst(chunks, n - 1);
    }
  }

  /** A stream cut short anywhere is an error, after exactly the chunks whose records are complete. */
  lemma TruncatedStreamFails(s: Suite, key: bytes, fileID: bytes, nonces: nat -> bytes, data: bytes, k: nat)
    requires s.Lawful() && Nonces(nonces) && k < |Encoding(s, key, fileID, nonces, data)|
    ensures var d := Decode(s, key, fileID, Encoding(s, key, fileID, nonces, data)[..k], 0);
      && d.out == Concat(Cut(data)[..Whole(Seals(s, key, fileID, nonces, Cut(data), 0), k)])
      && d.err.Some? && d.err.value.Read?
  {
    CutShape(data);
    SealsOpen(s, key, fileID, nonces, Cut(data), 0);
    OpenAsWithin(s, key, fileID, Seals(s, key, fileID, nonces, Cut(data), 0), Cut(data), 0);
    var cts := Seals(s, key, fileID, nonces, Cut(data), 0);
    CutBreaksOff(STREAM_LIMIT, cts, k, (Records(cts) + TERMINATOR)[..k]);
    DecodeBreaksOff(s, key, fileID, (Records(cts) + TERMINATOR)[..k], cts, Cut(data), 0, Whole(cts, k));
  }
}
