/** What the chunked format guarantees: round trips, and records that are unambiguous for every reader. */
module FileTheorems {
  import opened Prelude
  import opened Wire
  import opened FileStream

  const VAULT_LIMIT: nat := 8 * 1024 * 1024

  /** The records in front of an input, up to the first thing that is not a record within the limit. */
  function Parse(limit: nat, input: bytes): seq<bytes>
    decreases |input|
  {
    var next := NextRecord(limit, input);
    if next.Rec? then [next.ct] + Parse(limit, next.rest) else []
  }

  ghost predicate Nonces(nonces: nat -> bytes) {
    forall i :: |nonces(i)| == NONCE
  }

  ghost predicate Within(limit: nat, cts: seq<bytes>) {
    forall ct <- cts :: 1 <= |ct| <= limit
  }

  lemma RecordParts(ct: bytes, tail: bytes)
    requires |ct| < TWO32
    ensures var input := Record(ct) + tail;
      && |input| >= 4 && input[..4] == PutUint32(|ct|) && input[4..] == ct + tail
      && (ct + tail)[..|ct|] == ct && (ct + tail)[|ct|..] == tail
  {
    assert |ct| % TWO32 == |ct|;
  }

  lemma NextIsRecord(limit: nat, ct: bytes, tail: bytes)
    requires 1 <= |ct| <= limit < TWO32
    ensures NextRecord(limit, Record(ct) + tail) == Rec(ct, tail)
  {
    RecordParts(ct, tail);
    Uint32RoundTrip(|ct|);
  }

  lemma NextIsEnd(limit: nat, tail: bytes)
    ensures NextRecord(limit, TERMINATOR + tail) == End(tail)
  {
    var input := TERMINATOR + tail;
    assert input[..4] == TERMINATOR && input[4..] == tail;
  }

  /** Reading record by record, the input yields exactly these records and then the tail. */
  ghost predicate Yields(limit: nat, input: bytes, cts: seq<bytes>, tail: bytes)
    decreases |cts|
  {
    if cts == [] then input == tail
    else
      var next := NextRecord(limit, input);
      next.Rec? && next.ct == cts[0] && Yields(limit, next.rest, cts[1..], tail)
  }

  lemma RecordsCons(cts: seq<bytes>, tail: bytes)
    requires cts != []
    ensures Records(cts) + tail == Record(cts[0]) + (Records(cts[1..]) + tail)
  {
  }

  lemma {:induction false} RecordsYield(limit: nat, cts: seq<bytes>, tail: bytes)
    requires limit < TWO32 && Within(limit, cts)
    ensures Yields(limit, Records(cts) + tail, cts, tail)
    decreases |cts|
  {
    if cts == [] {
      assert Records(cts) + tail == tail;
    } else {
      RecordsCons(cts, tail);
      NextIsRecord(limit, cts[0], Records(cts[1..]) + tail);
      RecordsYield(limit, cts[1..], tail);
    }
  }

  lemma ParseRecord(limit: nat, input: bytes)
    requires NextRecord(limit, input).Rec?
    ensures Parse(limit, input) == [NextRecord(limit, input).ct] + Parse(limit, NextRecord(limit, input).rest)
  {
  }

  lemma HeadRegrouped(whole: seq<bytes>, rest: seq<bytes>, cts: seq<bytes>, more: seq<bytes>)
    requires cts != [] && whole == [cts[0]] + rest && rest == cts[1..] + more
    ensures whole == cts + more
  {
  }

  lemma {:induction false} ParseYielded(limit: nat, input: bytes, cts: seq<bytes>, tail: bytes)
    requires Yields(limit, input, cts, tail)
    ensures Parse(limit, input) == cts + Parse(limit, tail)
    decreases |cts|
  {
    if cts == [] {
      assert input == tail;
    } else {
      var rest := NextRecord(limit, input).rest;
      ParseRecord(limit, input);
      ParseYielded(limit, rest, cts[1..], tail);
      HeadRegrouped(Parse(limit, input), Parse(limit, rest), cts, Parse(limit, tail));
    }
  }

  /** Any parser of the format recovers the records it was given, whatever limit it uses, and goes on behind them. */
  lemma ParseInvertsRecords(limit: nat, cts: seq<bytes>, tail: bytes)
    requires limit < TWO32 && Within(limit, cts)
    ensures Parse(limit, Records(cts) + tail) == cts + Parse(limit, tail)
  {
    RecordsYield(limit, cts, tail);
    ParseYielded(limit, Records(cts) + tail, cts, tail);
  }

  /** These ciphertexts open, in their places from index i on, as these chunks. */
  ghost predicate OpenAs(s: Suite, key: bytes, fileID: bytes, cts: seq<bytes>, chunks: seq<bytes>, i: nat)
    decreases |cts|
  {
    if cts == [] || chunks == [] then cts == [] && chunks == []
    else
      && |cts[0]| == OVERHEAD + |chunks[0]|
      && DecryptChunk(s, key, fileID, Index(i), cts[0]) == Some(chunks[0])
      && OpenAs(s, key, fileID, cts[1..], chunks[1..], i + 1)
  }

  lemma {:induction false} SealsOpen(s: Suite, key: bytes, fileID: bytes, nonces: nat -> bytes, chunks: seq<bytes>, i: nat)
    requires s.Lawful() && Nonces(nonces)
    ensures OpenAs(s, key, fileID, Seals(s, key, fileID, nonces, chunks, i), chunks, i)
    decreases |chunks|
  {
    if chunks != [] {
      SealsOpen(s, key, fileID, nonces, chunks[1..], i + 1);
      assert Seals(s, key, fileID, nonces, chunks, i)[1..] == Seals(s, key, fileID, nonces, chunks[1..], i + 1);
    }
  }

  lemma {:induction false} OpenAsWithin(s: Suite, key: bytes, fileID: bytes, cts: seq<bytes>, chunks: seq<bytes>, i: nat)
    requires OpenAs(s, key, fileID, cts, chunks, i)
    requires forall j | 0 <= j < |chunks| :: |chunks[j]| <= CHUNK
    ensures |cts| == |chunks| && Within(STREAM_LIMIT, cts)
    decreases |cts|
  {
    if cts != [] {
      assert forall j | 0 <= j < |chunks[1..]| :: chunks[1..][j] == chunks[j + 1];
      OpenAsWithin(s, key, fileID, cts[1..], chunks[1..], i + 1);
      assert forall ct <- cts :: ct == cts[0] || ct in cts[1..];
    }
  }

  /** Every ciphertext of a file fits the stream's limit and the vault's, and no record header is zero. */
  lemma HeadersUnambiguous(s: Suite, key: bytes, fileID: bytes, nonces: nat -> bytes, data: bytes)
    requires s.Lawful() && Nonces(nonces)
    ensures var cts := Seals(s, key, fileID, nonces, Cut(data), 0);
      && |cts| == (|data| + CHUNK - 1) / CHUNK
      && Within(STREAM_LIMIT, cts) && Within(VAULT_LIMIT, cts)
      && forall ct <- cts :: Record(ct)[..4] != TERMINATOR
  {
    var cts := Seals(s, key, fileID, nonces, Cut(data), 0);
    CutShape(data);
    SealsOpen(s, key, fileID, nonces, Cut(data), 0);
    OpenAsWithin(s, key, fileID, cts, Cut(data), 0);
    forall ct <- cts ensures Record(ct)[..4] != TERMINATOR {
      HeaderNotZero(ct);
    }
  }

  lemma ZeroIsTerminator(n: uint32)
    ensures PutUint32(n) == TERMINATOR ==> n == 0
  {
    Uint32RoundTrip(n);
    assert Uint32(TERMINATOR) == 0;
  }

  lemma HeaderNotZero(ct: bytes)
    requires 1 <= |ct| < TWO32
    ensures Record(ct)[..4] != TERMINATOR
  {
    ZeroIsTerminator(|ct|);
    assert |ct| % TWO32 == |ct|;
    assert Record(ct)[..4] == PutUint32(|ct|);
  }

  /** One record that opens: its text comes out in front of what comes of the rest. */
  lemma DecodeRecord(s: Suite, key: bytes, fileID: bytes, input: bytes, i: nat, pt: bytes)
    requires NextRecord(STREAM_LIMIT, input).Rec?
    requires DecryptChunk(s, key, fileID, Index(i), NextRecord(STREAM_LIMIT, input).ct) == Some(pt)
    ensures Decode(s, key, fileID, input, i) == After(pt, Decode(s, key, fileID, NextRecord(STREAM_LIMIT, input).rest, i + 1))
  {
  }

  lemma AfterTwice(chunks: seq<bytes>, whole: Outcome, rest: Outcome, d: Outcome)
    requires chunks != [] && whole == After(chunks[0], rest) && rest == After(Concat(chunks[1..]), d)
    ensures whole == After(Concat(chunks), d)
  {
    assert chunks[0] + (Concat(chunks[1..]) + d.out) == Concat(chunks) + d.out;
  }

  lemma {:induction false} DecodeYielded(s: Suite, key: bytes, fileID: bytes, input: bytes, cts: seq<bytes>,
                                         chunks: seq<bytes>, i: nat, tail: bytes)
    requires Yields(STREAM_LIMIT, input, cts, tail) && OpenAs(s, key, fileID, cts, chunks, i)
    ensures Decode(s, key, fileID, input, i) == After(Concat(chunks), Decode(s, key, fileID, tail, i + |cts|))
    decreases |cts|
  {
    if cts == [] {
      assert input == tail && Concat(chunks) == [];
    } else {
      var next := NextRecord(STREAM_LIMIT, input);
      DecodeRecord(s, key, fileID, input, i, chunks[0]);
      DecodeYielded(s, key, fileID, next.rest, cts[1..], chunks[1..], i + 1, tail);
      AfterTwice(chunks, Decode(s, key, fileID, input, i), Decode(s, key, fileID, next.rest, i + 1),
                 Decode(s, key, fileID, tail, i + |cts|));
    }
  }

  lemma DecodeYieldedFile(s: Suite, key: bytes, fileID: bytes, input: bytes, cts: seq<bytes>, chunks: seq<bytes>,
                          data: bytes, tail: bytes)
    requires Yields(STREAM_LIMIT, input, cts, tail) && OpenAs(s, key, fileID, cts, chunks, 0)
    requires data == Concat(chunks)
    ensures Decode(s, key, fileID, input, 0) == After(data, Decode(s, key, fileID, tail, |cts|))
  {
    DecodeYielded(s, key, fileID, input, cts, chunks, 0, tail);
  }

  /** A file's records, then anything: the whole file comes out, then whatever comes of the rest. */
  lemma DecodeBody(s: Suite, key: bytes, fileID: bytes, nonces: nat -> bytes, data: bytes, tail: bytes)
    requires s.Lawful() && Nonces(nonces)
    ensures Decode(s, key, fileID, Body(s, key, fileID, nonces, data, 0) + tail, 0)
         == After(data, Decode(s, key, fileID, tail, |Cut(data)|))
  {
    var cts, chunks := Seals(s, key, fileID, nonces, Cut(data), 0), Cut(data);
    CutShape(data);
    SealsOpen(s, key, fileID, nonces, chunks, 0);
    OpenAsWithin(s, key, fileID, cts, chunks, 0);
    RecordsYield(STREAM_LIMIT, cts, tail);
    DecodeYieldedFile(s, key, fileID, Records(cts) + tail, cts, chunks, data, tail);
  }

  /** Decryption inverts encryption for every file of any length and consumes exactly what was written. */
  lemma StreamRoundTrip(s: Suite, key: bytes, fileID: bytes, nonces: nat -> bytes, data: bytes, tail: bytes)
    requires s.Lawful() && Nonces(nonces)
    ensures Decode(s, key, fileID, Encoding(s, key, fileID, nonces, data) + tail, 0) == Outcome(data, tail, None)
  {
    var body := Body(s, key, fileID, nonces, data, 0);
    assert Encoding(s, key, fileID, nonces, data) + tail == body + (TERMINATOR + tail);
    NextIsEnd(STREAM_LIMIT, tail);
    DecodeBody(s, key, fileID, nonces, data, TERMINATOR + tail);
  }

  /** Without the terminator, as the hub stores a file, the whole file comes out and then an error. */
  lemma UnterminatedStream(s: Suite, key: bytes, fileID: bytes, nonces: nat -> bytes, data: bytes)
    requires s.Lawful() && Nonces(nonces)
    ensures Decode(s, key, fileID, Body(s, key, fileID, nonces, data, 0), 0) == Outcome(data, [], Some(Read(EOF)))
  {
    var body := Body(s, key, fileID, nonces, data, 0);
    assert body + [] == body;
    DecodeBody(s, key, fileID, nonces, data, []);
  }

  /** One parser for two producers: the vault's reader sees the same records in either form. */
  lemma OneParserTwoProducers(s: Suite, key: bytes, fileID: bytes, nonces: nat -> bytes, data: bytes)
    requires s.Lawful() && Nonces(nonces)
    ensures var cts := Seals(s, key, fileID, nonces, Cut(data), 0);
      && Encoding(s, key, fileID, nonces, data) == Records(cts) + TERMINATOR
      && Parse(VAULT_LIMIT, Encoding(s, key, fileID, nonces, data)) == cts
      && Parse(VAULT_LIMIT, Records(cts)) == cts
  {
    var cts := Seals(s, key, fileID, nonces, Cut(data), 0);
    HeadersUnambiguous(s, key, fileID, nonces, data);
    ParseInvertsRecords(VAULT_LIMIT, cts, TERMINATOR);
    ParseInvertsRecords(VAULT_LIMIT, cts, []);
    assert Records(cts) + [] == Records(cts) && TERMINATOR + [] == TERMINATOR;
    NextIsEnd(VAULT_LIMIT, []);
  }
}
