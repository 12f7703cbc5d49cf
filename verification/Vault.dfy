/**
  The file vault on the chat session: UploadMux and DownloadMux of internal/client/core.go,
  handleFilePut and handleFileGet of internal/server/core.go. Delivery is lossless and in order.
 */
module Vault {
  import opened Prelude
  import opened Wire
  import opened FileStream
  import opened FileTheorems

  /** A FILE_PUT or FILE_DATA message: the content is what its base64 form decodes to, if it does. */
  datatype FileMsg = FileMsg(name: bytes, idx: int, content: Option<bytes>, total: int)

  const MAX_UPLOAD: nat := 100 * 1024 * 1024
  /** Base names that are no file's: ".", ".." and "/". The vault opens directories under them. */
  const DIRECTORIES: set<bytes> := {[46], [46, 46], [47]}

  /** The 32-bit signed chunk index of the i-th message. */
  function Int32(i: nat): int {
    var u := i % TWO32;
    if u < 0x8000_0000 then u else u - TWO32
  }

  lemma Int32Small(i: nat)
    requires i < 0x8000_0000
    ensures Int32(i) == i
  {
  }

  lemma Int32Next(i: nat)
    ensures Int32(i + 1) == if Int32(i) == 0x7FFF_FFFF then -0x8000_0000 else Int32(i) + 1
  {
  }

  /** uint32(idx). */
  function Unsigned(idx: int): uint32 { idx % TWO32 }

  /** One message per ciphertext, numbered from i on. */
  function Numbered(name: bytes, cts: seq<bytes>, i: nat): seq<FileMsg>
    decreases |cts|
  {
    if cts == [] then [] else [FileMsg(name, Int32(i), Some(cts[0]), 0)] + Numbered(name, cts[1..], i + 1)
  }

  function Final(name: bytes, n: nat): FileMsg {
    FileMsg(name, -1, Some([]), Int32(n))
  }

  // The client's upload --------------------------------------------------------------------------

  /** The chunk messages of data, numbered from i on. */
  function ChunkMsgs(s: Suite, key: bytes, name: bytes, nonces: nat -> bytes, data: bytes, i: nat): seq<FileMsg> {
    Numbered(name, Seals(s, key, name, nonces, Cut(data), i), i)
  }

  function Upload(s: Suite, token: bytes, name: bytes, nonces: nat -> bytes, data: bytes): seq<FileMsg> {
    var cts := Seals(s, FileContentKey(s, token, name), name, nonces, Cut(data), 0);
    Numbered(name, cts, 0) + [Final(name, |cts|)]
  }

  lemma UploadStep(s: Suite, key: bytes, name: bytes, nonces: nat -> bytes, data: bytes, i: nat)
    requires data != []
    ensures var n := Min(CHUNK, |data|);
      ChunkMsgs(s, key, name, nonces, data, i) ==
        [FileMsg(name, Int32(i), Some(EncryptChunk(s, key, name, Index(i), nonces(i), data[..n])), 0)]
        + ChunkMsgs(s, key, name, nonces, data[n..], i + 1)
    ensures |Cut(data)| == 1 + |Cut(data[Min(CHUNK, |data|)..])|
  {
    var n := Min(CHUNK, |data|);
    assert Cut(data) == [data[..n]] + Cut(data[n..]);
    var cts := Seals(s, key, name, nonces, Cut(data), i);
    assert cts[1..] == Seals(s, key, name, nonces, Cut(data[n..]), i + 1);
  }

  /** Sending the next chunk message of what is left. */
  lemma UploadNext(s: Suite, key: bytes, name: bytes, nonces: nat -> bytes, data: bytes, i: nat,
                   goal: seq<FileMsg>, sent: seq<FileMsg>)
    requires data != [] && goal == sent + ChunkMsgs(s, key, name, nonces, data, i)
    ensures var n := Min(CHUNK, |data|);
      var ct := EncryptChunk(s, key, name, Unsigned(Int32(i)), nonces(i), data[..n]);
      goal == sent + [FileMsg(name, Int32(i), Some(ct), 0)] + ChunkMsgs(s, key, name, nonces, data[n..], i + 1)
  {
    UploadStep(s, key, name, nonces, data, i);
    UnsignedIndex(i);
  }

  lemma UnsignedIndex(i: nat)
    ensures Unsigned(Int32(i)) == Index(i)
  {
    if i % TWO32 >= 0x8000_0000 {
      assert (i % TWO32 - TWO32) % TWO32 == i % TWO32;
    }
  }

  /** Cuts the file at the same places and with the same indices as the stream encoder; too large a file is refused. */
  method UploadMux(f: Reader, s: Suite, token: bytes, name: bytes, nonces: nat -> bytes) returns (msgs: Option<seq<FileMsg>>)
    modifies f
    ensures msgs == if |old(f.rest)| > MAX_UPLOAD then None else Some(Upload(s, token, name, nonces, old(f.rest)))
  {
    if |f.rest| > MAX_UPLOAD {
      return None;
    }
    var key := FileContentKey(s, token, name);
    var buf := new byte[CHUNK];
    var idx, drawn: nat := 0, 0;
    var err: Option<ReadErr> := None;
    var sent: seq<FileMsg> := [];
    ghost var goal := ChunkMsgs(s, key, name, nonces, f.rest, 0);
    ghost var chunks := |Cut(f.rest)|;
    while err.None?
      invariant buf.Length == CHUNK && idx == Int32(drawn)
      invariant goal == sent + ChunkMsgs(s, key, name, nonces, f.rest, drawn)
      invariant chunks == drawn + |Cut(f.rest)|
      invariant err.Some? ==> f.rest == []
      decreases err.None?, |f.rest|
    {
      ghost var left := f.rest;
      var n;
      n, err := f.ReadFull(buf);
      if n > 0 {
        UploadStep(s, key, name, nonces, left, drawn);
        UploadNext(s, key, name, nonces, left, drawn, goal, sent);
        var ct := EncryptChunk(s, key, name, Unsigned(idx), nonces(drawn), buf[..n]);
        sent := sent + [FileMsg(name, idx, Some(ct), 0)];
        Int32Next(drawn);
        idx, drawn := if idx == 0x7FFF_FFFF then -0x8000_0000 else idx + 1, drawn + 1;
      }
    }
    assert ChunkMsgs(s, key, name, nonces, [], drawn) == [] && goal == sent;
    msgs := Some(sent + [FileMsg(name, -1, Some([]), idx)]);
  }

  // The hub --------------------------------------------------------------------------------------

  /** The vault directory after a FILE_PUT. Chunk 0 starts the file over, every other chunk is appended. */
  function Put(files: map<bytes, bytes>, m: FileMsg): map<bytes, bytes> {
    if m.name in DIRECTORIES || m.name == [] || m.idx < 0 || m.content.None? then files
    else
      var kept := if m.idx != 0 && m.name in files then files[m.name] else [];
      files[m.name := kept + Record(m.content.value)]
  }

  function PutAll(files: map<bytes, bytes>, msgs: seq<FileMsg>): map<bytes, bytes>
    decreases |msgs|
  {
    if msgs == [] then files else PutAll(Put(files, msgs[0]), msgs[1..])
  }

  function Get(files: map<bytes, bytes>, name: bytes): Option<seq<FileMsg>> {
    if name in DIRECTORIES then Some([Final(name, 0)])  // opens, but yields no record
    else if name !in files then None
    else
      var cts := Parse(VAULT_LIMIT, files[name]);
      Some(Numbered(name, cts, 0) + [Final(name, |cts|)])
  }

  class Directory {
    var files: map<bytes, bytes>

    constructor ()
      ensures files == map[]
    {
      files := map[];
    }

    method HandleFilePut(m: FileMsg)
      modifies this
      ensures files == Put(old(files), m)
    {
      if m.name == [46] || m.name == [] {
        return;
      }
      if m.idx < 0 {
        return;
      }
      if m.content.None? {
        return;
      }
      if m.name in DIRECTORIES {
        return;  // cannot be opened for writing
      }
      var ct := m.content.value;
      if m.idx == 0 || m.name !in files {
        files := files[m.name := []];
      }
      files := files[m.name := files[m.name] + PutUint32(|ct| % TWO32)];
      files := files[m.name := files[m.name] + ct];
      var kept := if m.idx != 0 && m.name in old(files) then old(files)[m.name] else [];
      assert kept + PutUint32(|ct| % TWO32) + ct == kept + Record(ct);
    }

    method HandleFileGet(name: bytes) returns (msgs: Option<seq<FileMsg>>)
      ensures msgs == Get(files, name)
    {
      if name in DIRECTORIES {
        return Some([FileMsg(name, -1, Some([]), 0)]);
      }
      if name !in files {
        return None;
      }
      var f := new Reader(files[name]);
      var idx, i: nat := 0, 0;
      var sent: seq<FileMsg> := [];
      ghost var cts := Parse(VAULT_LIMIT, files[name]);
      while true
        invariant fresh(f) && idx == Int32(i) && |cts| == i + |Parse(VAULT_LIMIT, f.rest)|
        invariant Numbered(name, cts, 0) == sent + Numbered(name, Parse(VAULT_LIMIT, f.rest), i)
        decreases |f.rest|
      {
        ghost var left := Parse(VAULT_LIMIT, f.rest);
        var next := ReadRecord(f, VAULT_LIMIT);
        if !next.Rec? {
          assert left == [] && Numbered(name, cts, 0) == sent;
          break;
        }
        assert left == [next.ct] + Parse(VAULT_LIMIT, f.rest);
        sent := sent + [FileMsg(name, idx, Some(next.ct), 0)];
        Int32Next(i);
        idx, i := if idx == 0x7FFF_FFFF then -0x8000_0000 else idx + 1, i + 1;
      }
      msgs := Some(sent + [FileMsg(name, -1, Some([]), idx)]);
    }
  }

  // The client's download ------------------------------------------------------------------------

  datatype DownloadErr = BadBase64 | BadChunk | Timeout

  /** What ends up in the destination file, and the error if there is one. Indices are not checked for gaps. */
  function Download(s: Suite, key: bytes, name: bytes, msgs: seq<FileMsg>): (bytes, Option<DownloadErr>)
    decreases |msgs|
  {
    if msgs == [] then ([], Some(Timeout))
    else if msgs[0].idx < 0 then ([], None)
    else if msgs[0].content.None? then ([], Some(BadBase64))
    else
      var pt := DecryptChunk(s, key, name, Unsigned(msgs[0].idx), msgs[0].content.value);
      if pt.None? then ([], Some(BadChunk))
      else var (out, err) := Download(s, key, name, msgs[1..]); (pt.value + out, err)
  }

  method DownloadMux(channel: seq<FileMsg>, s: Suite, token: bytes, name: bytes, out: Writer) returns (err: Option<DownloadErr>)
    modifies out
    ensures var d := Download(s, FileContentKey(s, token, name), name, channel);
      out.data == old(out.data) + d.0 && err == d.1
  {
    var key := FileContentKey(s, token, name);
    ghost var d := Download(s, key, name, channel);
    for i := 0 to |channel|
      invariant var more := Download(s, key, name, channel[i..]);
        old(out.data) + d.0 == out.data + more.0 && d.1 == more.1
    {
      var msg := channel[i];
      assert channel[i..][0] == msg && channel[i..][1..] == channel[i + 1..];
      if msg.idx < 0 {
        return None;
      }
      if msg.content.None? {
        return Some(BadBase64);
      }
      var pt := DecryptChunk(s, key, name, Unsigned(msg.idx), msg.content.value);
      if pt.None? {
        return Some(BadChunk);
      }
      out.Write(pt.value);
    }
    err := Some(Timeout);
  }
}
