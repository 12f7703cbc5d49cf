/** A file put through the vault comes back byte for byte, whatever else goes on around it. */
module VaultTheorems {
  import opened Prelude
  import opened Wire
  import opened FileStream
  import opened FileTheorems
  import opened Vault

  /** The messages about one file, in order. */
  function OfName(name: bytes, msgs: seq<FileMsg>): seq<FileMsg> {
    if msgs == [] then []
    else if msgs[0].name == name then [msgs[0]] + OfName(name, msgs[1..])
    else OfName(name, msgs[1..])
  }

  ghost predicate SameEntry(a: map<bytes, bytes>, b: map<bytes, bytes>, name: bytes) {
    (name in a <==> name in b) && (name in a ==> a[name] == b[name])
  }

  /** What the vault holds under a name depends on that name's messages alone. */
  lemma {:induction false} FilesIndependent(a: map<bytes, bytes>, b: map<bytes, bytes>, name: bytes, msgs: seq<FileMsg>)
    requires SameEntry(a, b, name)
    ensures SameEntry(PutAll(a, msgs), PutAll(b, OfName(name, msgs)), name)
    decreases |msgs|
  {
    if msgs != [] {
      if msgs[0].name == name {
        FilesIndependent(Put(a, msgs[0]), Put(b, msgs[0]), name, msgs[1..]);
        assert OfName(name, msgs)[1..] == OfName(name, msgs[1..]);
      } else {
        FilesIndependent(Put(a, msgs[0]), b, name, msgs[1..]);
      }
    }
  }

  lemma {:induction false} PutAllConcat(files: map<bytes, bytes>, a: seq<FileMsg>, b: seq<FileMsg>)
    ensures PutAll(files, a + b) == PutAll(PutAll(files, a), b)
    decreases |a|
  {
    if a == [] {
      assert a + b == b;
    } else {
      assert (a + b)[0] == a[0] && (a + b)[1..] == a[1..] + b;
      PutAllConcat(Put(files, a[0]), a[1..], b);
    }
  }

  ghost predicate Storable(name: bytes) { name !in DIRECTORIES && name != [] }

  /** Chunks after the first are appended one after the other. */
  lemma {:induction false} ChunksAppended(files: map<bytes, bytes>, name: bytes, cts: seq<bytes>, i: nat)
    requires Storable(name) && name in files && 0 < i && i + |cts| < 0x8000_0000
    ensures PutAll(files, Numbered(name, cts, i)) == files[name := files[name] + Records(cts)]
    decreases |cts|
  {
    if cts != [] {
      Int32Small(i);
      var m := FileMsg(name, Int32(i), Some(cts[0]), 0);
      assert Numbered(name, cts, i)[1..] == Numbered(name, cts[1..], i + 1);
      ChunksAppended(Put(files, m), name, cts[1..], i + 1);
      assert files[name] + Record(cts[0]) + Records(cts[1..]) == files[name] + Records(cts);
    } else {
      assert files[name] + Records(cts) == files[name];
    }
  }

  lemma FirstChunkReplaces(files: map<bytes, bytes>, name: bytes, ct: bytes)
    requires Storable(name)
    ensures Put(files, FileMsg(name, 0, Some(ct), 0)) == files[name := Record(ct)]
  {
    assert [] + Record(ct) == Record(ct);
  }

  lemma ChunksReplace(files: map<bytes, bytes>, name: bytes, cts: seq<bytes>)
    requires Storable(name) && cts != [] && |cts| < 0x8000_0000
    ensures PutAll(files, Numbered(name, cts, 0)) == files[name := Records(cts)]
  {
    var m := FileMsg(name, 0, Some(cts[0]), 0);
    assert Numbered(name, cts, 0) == [m] + Numbered(name, cts[1..], 1);
    FirstChunkReplaces(files, name, cts[0]);
    ChunksAppended(Put(files, m), name, cts[1..], 1);
  }

  /** A numbered upload replaces the file by its records, unless it has none: then the vault stays as it was. */
  lemma UploadStores(files: map<bytes, bytes>, name: bytes, cts: seq<bytes>)
    requires Storable(name) && |cts| < 0x8000_0000
    ensures PutAll(files, Numbered(name, cts, 0) + [Final(name, |cts|)])
         == if cts == [] then files else files[name := Records(cts)]
  {
    PutAllConcat(files, Numbered(name, cts, 0), [Final(name, |cts|)]);
    if cts != [] {
      ChunksReplace(files, name, cts);
    }
  }

  lemma {:induction false} DownloadOpens(s: Suite, key: bytes, name: bytes, cts: seq<bytes>, chunks: seq<bytes>,
                                         i: nat, n: nat)
    requires OpenAs(s, key, name, cts, chunks, i) && i + |cts| < 0x8000_0000
    ensures Download(s, key, name, Numbered(name, cts, i) + [Final(name, n)]) == (Concat(chunks), None)
    decreases |cts|
  {
    var msgs := Numbered(name, cts, i) + [Final(name, n)];
    if cts != [] {
      Int32Small(i);
      UnsignedIndex(i);
      assert msgs[0] == FileMsg(name, i, Some(cts[0]), 0);
      assert msgs[1..] == Numbered(name, cts[1..], i + 1) + [Final(name, n)];
      DownloadOpens(s, key, name, cts[1..], chunks[1..], i + 1, n);
    }
  }

  /** The ciphertexts an upload of this file makes. */
  function Uploaded(s: Suite, token: bytes, name: bytes, nonces: nat -> bytes, data: bytes): seq<bytes> {
    Seals(s, FileContentKey(s, token, name), name, nonces, Cut(data), 0)
  }

  lemma FewChunks(data: bytes)
    requires |data| <= MAX_UPLOAD
    ensures |Cut(data)| <= 1600
  {
    CutShape(data);
  }

  /**
    The vault round trip: after any earlier traffic, one upload of a non-empty file interleaved in
    any way with messages about other files, the download of that name by anyone with the same
    token returns the file byte for byte. Nothing of earlier uploads of that name is left.
   */
  lemma VaultRoundTrip(s: Suite, token: bytes, name: bytes, nonces: nat -> bytes, data: bytes,
                       files: map<bytes, bytes>, earlier: seq<FileMsg>, traffic: seq<FileMsg>)
    requires s.Lawful() && Nonces(nonces) && Storable(name)
    requires data != [] && |data| <= MAX_UPLOAD
    requires OfName(name, traffic) == Upload(s, token, name, nonces, data)
    ensures var got := Get(PutAll(files, earlier + traffic), name);
      got.Some? && Download(s, FileContentKey(s, token, name), name, got.value) == (data, None)
  {
    var key, cts, chunks := FileContentKey(s, token, name), Uploaded(s, token, name, nonces, data), Cut(data);
    var before := PutAll(files, earlier);
    FewChunks(data);
    CutShape(data);
    PutAllConcat(files, earlier, traffic);
    FilesIndependent(before, before, name, traffic);
    UploadStores(before, name, cts);
    OneParserTwoProducers(s, key, name, nonces, data);
    SealsOpen(s, key, name, nonces, chunks, 0);
    DownloadOpens(s, key, name, cts, chunks, 0, |cts|);
  }

  /** Uploading the empty file stores nothing: the name keeps whatever it had, or stays missing. */
  lemma EmptyUploadStoresNothing(s: Suite, token: bytes, name: bytes, nonces: nat -> bytes, files: map<bytes, bytes>)
    requires Storable(name)
    ensures PutAll(files, Upload(s, token, name, nonces, [])) == files
  {
    UploadStores(files, name, []);
  }

  /** An upload to a name the vault does not have can be fetched exactly if the file is not empty. */
  lemma FirstUploadCanBeFetched(s: Suite, token: bytes, name: bytes, nonces: nat -> bytes, data: bytes,
                                files: map<bytes, bytes>)
    requires Storable(name) && name !in files && |data| <= MAX_UPLOAD
    ensures Get(PutAll(files, Upload(s, token, name, nonces, data)), name).Some? <==> data != []
  {
    FewChunks(data);
    CutShape(data);
    UploadStores(files, name, Uploaded(s, token, name, nonces, data));
  }

  // Loss -----------------------------------------------------------------------------------------

  /** The elements that were kept. */
  function Kept<T>(items: seq<T>, kept: seq<bool>): seq<T>
    requires |items| == |kept|
  {
    if items == [] then []
    else (if kept[0] then [items[0]] else []) + Kept(items[1..], kept[1..])
  }

  lemma {:induction false} NumberedLength(name: bytes, cts: seq<bytes>, i: nat)
    ensures |Numbered(name, cts, i)| == |cts|
    decreases |cts|
  {
    if cts != [] { NumberedLength(name, cts[1..], i + 1); }
  }

  lemma {:induction false} KeptConcat(chunks: seq<bytes>, kept: seq<bool>)
    requires |chunks| == |kept| && forall i | 0 <= i < |chunks| :: chunks[i] != []
    ensures |Concat(Kept(chunks, kept))| <= |Concat(chunks)|
    ensures Concat(Kept(chunks, kept)) == Concat(chunks) <==> false !in kept
    ensures |Concat(Kept(chunks, kept))| == |Concat(chunks)| ==> false !in kept
  {
    if chunks != [] {
      assert forall i | 0 <= i < |chunks[1..]| :: chunks[1..][i] == chunks[i + 1];
      KeptConcat(chunks[1..], kept[1..]);
      assert kept == [kept[0]] + kept[1..];
      if kept[0] {
        assert Kept(chunks, kept)[1..] == Kept(chunks[1..], kept[1..]);
      } else {
        assert Kept(chunks, kept) == Kept(chunks[1..], kept[1..]);
      }
    }
  }

  lemma {:induction false} LossyDownloadOpens(s: Suite, key: bytes, name: bytes, cts: seq<bytes>, chunks: seq<bytes>,
                                              kept: seq<bool>, i: nat, n: nat)
    requires OpenAs(s, key, name, cts, chunks, i) && i + |cts| < 0x8000_0000
    requires |cts| == |chunks| == |kept| == |Numbered(name, cts, i)|
    ensures Download(s, key, name, Kept(Numbered(name, cts, i), kept) + [Final(name, n)])
         == (Concat(Kept(chunks, kept)), None)
    decreases |cts|
  {
    if cts != [] {
      NumberedLength(name, cts[1..], i + 1);
      assert Numbered(name, cts, i)[1..] == Numbered(name, cts[1..], i + 1);
      LossyDownloadOpens(s, key, name, cts[1..], chunks[1..], kept[1..], i + 1, n);
      var rest := Kept(Numbered(name, cts[1..], i + 1), kept[1..]) + [Final(name, n)];
      var msgs := Kept(Numbered(name, cts, i), kept) + [Final(name, n)];
      if kept[0] {
        Int32Small(i);
        UnsignedIndex(i);
        assert msgs == [FileMsg(name, i, Some(cts[0]), 0)] + rest;
        assert Kept(chunks, kept)[1..] == Kept(chunks[1..], kept[1..]);
      } else {
        assert msgs == rest && Kept(chunks, kept) == Kept(chunks[1..], kept[1..]);
      }
    }
  }

  /**
    Loss on the way down goes unnoticed: whichever chunk messages are dropped, the download reports
    success with the chunks that arrived. It is the file exactly if none was dropped.
   */
  lemma LossIsSilent(s: Suite, token: bytes, name: bytes, nonces: nat -> bytes, data: bytes, kept: seq<bool>)
    requires s.Lawful() && Nonces(nonces) && |data| <= MAX_UPLOAD
    requires |kept| == |Cut(data)| == |Numbered(name, Uploaded(s, token, name, nonces, data), 0)|
    ensures var cts := Uploaded(s, token, name, nonces, data);
      var d := Download(s, FileContentKey(s, token, name), name, Kept(Numbered(name, cts, 0), kept) + [Final(name, |cts|)]);
      && d == (Concat(Kept(Cut(data), kept)), None)
      && (d.0 == data <==> false !in kept)
  {
    var key, cts, chunks := FileContentKey(s, token, name), Uploaded(s, token, name, nonces, data), Cut(data);
    FewChunks(data);
    CutShape(data);
    SealsOpen(s, key, name, nonces, chunks, 0);
    LossyDownloadOpens(s, key, name, cts, chunks, kept, 0, |cts|);
    KeptConcat(chunks, kept);
  }

  /** The HTTP fallback cannot finish on a file stored this way: all of it is written, then decryption fails. */
  lemma StoredFileIsUnterminated(s: Suite, token: bytes, name: bytes, nonces: nat -> bytes, data: bytes,
                                 files: map<bytes, bytes>)
    requires s.Lawful() && Nonces(nonces) && Storable(name)
    requires data != [] && |data| <= MAX_UPLOAD
    ensures var stored := PutAll(files, Upload(s, token, name, nonces, data));
      name in stored
      && Decode(s, FileContentKey(s, token, name), name, stored[name], 0) == Outcome(data, [], Some(Read(EOF)))
  {
    FewChunks(data);
    CutShape(data);
    UploadStores(files, name, Uploaded(s, token, name, nonces, data));
    UnterminatedStream(s, FileContentKey(s, token, name), name, nonces, data);
  }

  // What the vault ignores -------------------------------------------------------------------------

  predicate Effective(m: FileMsg) {
    m.idx >= 0 && m.content.Some? && m.name !in DIRECTORIES && m.name != []
  }

  function EffectiveOnly(msgs: seq<FileMsg>): seq<FileMsg> {
    if msgs == [] then []
    else (if Effective(msgs[0]) then [msgs[0]] else []) + EffectiveOnly(msgs[1..])
  }

  /** Final messages, undecodable content and names that are no file's change nothing, wherever they come. */
  lemma {:induction false} JunkIsIgnored(files: map<bytes, bytes>, msgs: seq<FileMsg>)
    ensures PutAll(files, msgs) == PutAll(files, EffectiveOnly(msgs))
    decreases |msgs|
  {
    if msgs != [] {
      JunkIsIgnored(Put(files, msgs[0]), msgs[1..]);
      if Effective(msgs[0]) {
        assert EffectiveOnly(msgs)[1..] == EffectiveOnly(msgs[1..]);
      } else {
        assert EffectiveOnly(msgs) == EffectiveOnly(msgs[1..]);
      }
    }
  }

  /** Only what names a file is ever stored under. */
  lemma {:induction false} OnlyFilesAreStored(files: map<bytes, bytes>, msgs: seq<FileMsg>)
    requires forall n <- files :: Storable(n)
    ensures forall n <- PutAll(files, msgs) :: Storable(n)
    decreases |msgs|
  {
    if msgs != [] { OnlyFilesAreStored(Put(files, msgs[0]), msgs[1..]); }
  }

  // The announced number -----------------------------------------------------------------------------

  /** A fetch ends with the one final message, which announces how many chunk messages came before it. */
  lemma FetchAnnouncesCount(files: map<bytes, bytes>, name: bytes)
    requires name in files && Storable(name)
    ensures var got := Get(files, name);
      && got.Some? && |got.value| > 0
      && got.value[|got.value| - 1] == FileMsg(name, -1, Some([]), Int32(|got.value| - 1))
  {
    NumberedLength(name, Parse(VAULT_LIMIT, files[name]), 0);
  }

  lemma {:induction false} KeptLength<T>(items: seq<T>, kept: seq<bool>)
    requires |items| == |kept|
    ensures |Kept(items, kept)| <= |items|
    ensures |Kept(items, kept)| == |items| <==> false !in kept
  {
    if items != [] {
      KeptLength(items[1..], kept[1..]);
      assert kept == [kept[0]] + kept[1..];
      if !kept[0] { assert Kept(items, kept) == Kept(items[1..], kept[1..]); }
    }
  }

  /** So the loss that goes unnoticed could be seen: fewer chunk messages come than are announced exactly if one was lost. */
  lemma LossCouldBeSeen(name: bytes, cts: seq<bytes>, kept: seq<bool>)
    requires |kept| == |Numbered(name, cts, 0)| && |cts| < 0x8000_0000
    ensures |Kept(Numbered(name, cts, 0), kept)| == Final(name, |cts|).total <==> false !in kept
  {
    NumberedLength(name, cts, 0);
    Int32Small(|cts|);
    KeptLength(Numbered(name, cts, 0), kept);
  }

  // Any messages whatsoever ----------------------------------------------------------------------------

  /** The message carries the sealed chunk of the very index it names. */
  predicate Genuine(m: FileMsg, cts: seq<bytes>) {
    0 <= m.idx < |cts| && m.content == Some(cts[m.idx])
  }

  function GenuineRun(msgs: seq<FileMsg>, cts: seq<bytes>): (n: nat)
    ensures n <= |msgs| && (n < |msgs| ==> !Genuine(msgs[n], cts))
    ensures forall j | 0 <= j < n :: Genuine(msgs[j], cts)
  {
    if msgs == [] || !Genuine(msgs[0], cts) then 0 else 1 + GenuineRun(msgs[1..], cts)
  }

  /** The chunks of the indices that the messages name. */
  function Named(msgs: seq<FileMsg>, chunks: seq<bytes>): seq<bytes>
    requires forall m <- msgs :: 0 <= m.idx < |chunks|
  {
    if msgs == [] then [] else [chunks[msgs[0].idx]] + Named(msgs[1..], chunks)
  }

  ghost predicate MessageNotForged(s: Suite, key: bytes, name: bytes, cts: seq<bytes>, m: FileMsg) {
    m.idx >= 0 && m.content.Some? && DecryptChunk(s, key, name, Unsigned(m.idx), m.content.value).Some? ==>
      exists k | 0 <= k < |cts| :: cts[k] == m.content.value && ChunkAAD(name, Index(k)) == ChunkAAD(name, Unsigned(m.idx))
  }

  lemma UnsignedSmall(i: nat)
    requires i < 0x8000_0000
    ensures Unsigned(i) == i && Index(i) == i
  {
  }

  /** Unforged, a message opens exactly if it is genuine, and then as its chunk. */
  lemma OpensIfGenuine(s: Suite, key: bytes, name: bytes, cts: seq<bytes>, chunks: seq<bytes>, m: FileMsg)
    requires |cts| == |chunks| < 0x8000_0000 && 0 <= m.idx < 0x8000_0000 && m.content.Some?
    requires MessageNotForged(s, key, name, cts, m)
    requires forall k | 0 <= k < |cts| :: DecryptChunk(s, key, name, Index(k), cts[k]) == Some(chunks[k])
    ensures var pt := DecryptChunk(s, key, name, Unsigned(m.idx), m.content.value);
      (pt.Some? <==> Genuine(m, cts)) && (pt.Some? ==> pt.value == chunks[m.idx])
  {
    UnsignedSmall(m.idx);
    if DecryptChunk(s, key, name, Unsigned(m.idx), m.content.value).Some? {
      var k :| 0 <= k < |cts| && cts[k] == m.content.value && ChunkAAD(name, Index(k)) == ChunkAAD(name, Unsigned(m.idx));
      ChunkAADInjective(name, Index(k), name, Unsigned(m.idx));
      UnsignedSmall(k);
    }
  }

  /** The error a download ends with at the first message that is not genuine, or when there is none. */
  function StopsWith(msgs: seq<FileMsg>, cts: seq<bytes>): Option<DownloadErr> {
    var n := GenuineRun(msgs, cts);
    if n == |msgs| then Some(Timeout)
    else if msgs[n].idx < 0 then None
    else if msgs[n].content.None? then Some(BadBase64)
    else Some(BadChunk)
  }

  /**
    A download, exactly, for any messages in which nothing is forged: it writes the chunks that the genuine
    messages in front name, and succeeds if and only if a final message is what follows them. A chunk
    of another index or another file, or one that was changed, ends it with an error.
   */
  lemma {:induction false} DownloadExactly(s: Suite, key: bytes, name: bytes, cts: seq<bytes>, chunks: seq<bytes>,
                                           msgs: seq<FileMsg>)
    requires |cts| == |chunks| < 0x8000_0000
    requires forall k | 0 <= k < |cts| :: DecryptChunk(s, key, name, Index(k), cts[k]) == Some(chunks[k])
    requires forall m <- msgs :: m.idx < 0x8000_0000 && MessageNotForged(s, key, name, cts, m)
    ensures Download(s, key, name, msgs)
         == (Concat(Named(msgs[..GenuineRun(msgs, cts)], chunks)), StopsWith(msgs, cts))
    decreases |msgs|
  {
    if msgs != [] {
      var m, rest := msgs[0], msgs[1..];
      assert m in msgs && forall x <- rest :: x in msgs;
      if m.idx >= 0 && m.content.Some? {
        OpensIfGenuine(s, key, name, cts, chunks, m);
        if Genuine(m, cts) {
          DownloadExactly(s, key, name, cts, chunks, rest);
          var n := GenuineRun(rest, cts);
          assert msgs[..n + 1][0] == m && msgs[..n + 1][1..] == rest[..n];
        }
      }
    }
  }

  lemma {:induction false} OpenInPlaces(s: Suite, key: bytes, name: bytes, cts: seq<bytes>, chunks: seq<bytes>, i: nat, k: nat)
    requires OpenAs(s, key, name, cts, chunks, i) && k < |cts|
    ensures k < |chunks| && DecryptChunk(s, key, name, Index(i + k), cts[k]) == Some(chunks[k])
    decreases |cts|
  {
    if k > 0 { OpenInPlaces(s, key, name, cts[1..], chunks[1..], i + 1, k - 1); }
  }

  /** The same of an uploaded file: whatever the hub sends, only its own chunks come out, and only a final message ends well. */
  lemma TamperedDownload(s: Suite, token: bytes, name: bytes, nonces: nat -> bytes, data: bytes, msgs: seq<FileMsg>)
    requires s.Lawful() && Nonces(nonces) && |data| <= MAX_UPLOAD
    requires forall m <- msgs ::
      m.idx < 0x8000_0000
      && MessageNotForged(s, FileContentKey(s, token, name), name, Uploaded(s, token, name, nonces, data), m)
    ensures var cts := Uploaded(s, token, name, nonces, data);
      && |cts| == |Cut(data)|
      && Download(s, FileContentKey(s, token, name), name, msgs)
         == (Concat(Named(msgs[..GenuineRun(msgs, cts)], Cut(data))), StopsWith(msgs, cts))
  {
    var key, cts := FileContentKey(s, token, name), Uploaded(s, token, name, nonces, data);
    FewChunks(data);
    SealsOpen(s, key, name, nonces, Cut(data), 0);
    forall k | 0 <= k < |cts| ensures DecryptChunk(s, key, name, Index(k), cts[k]) == Some(Cut(data)[k]) {
      OpenInPlaces(s, key, name, cts, Cut(data), 0, k);
    }
    DownloadExactly(s, key, name, cts, Cut(data), msgs);
  }
}
