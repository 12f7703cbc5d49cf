/** The client's outbound queue, one record per line (internal/client/queue.go). */
module DiskQueues {
  import opened Prelude

  const NL: byte := 10

  /** What is left to split when `line` is the unfinished line. An unterminated last line counts unless it is empty. */
  function SplitFrom(line: bytes, b: bytes): seq<bytes>
    decreases |b|
  {
    if b == [] then (if line == [] then [] else [line])
    else if b[0] == NL then [line] + SplitFrom([], b[1..])
    else SplitFrom(line + [b[0]], b[1..])
  }

  function Lines(b: bytes): seq<bytes> {
    SplitFrom([], b)
  }

  method SplitLines(b: bytes) returns (lines: seq<bytes>)
    ensures lines == Lines(b)
  {
    lines := [];
    var start := 0;
    for i := 0 to |b|
      invariant start <= i
      invariant Lines(b) == lines + SplitFrom(b[start..i], b[i..])
    {
      assert b[i..][0] == b[i] && b[i..][1..] == b[i + 1..];
      if b[i] == NL {
        lines := lines + [b[start..i]];
        start := i + 1;
        assert b[start..i + 1] == [];
      } else {
        assert b[start..i + 1] == b[start..i] + [b[i]];
      }
    }
    assert b[|b|..] == [] && b[start..|b|] == b[start..];
    if start < |b| {
      lines := lines + [b[start..]];
    }
  }

  /** Every line followed by a newline. */
  function Join(lines: seq<bytes>): bytes {
    if lines == [] then [] else lines[0] + [NL] + Join(lines[1..])
  }

  lemma {:induction false} SplitLine(done: bytes, line: bytes, rest: bytes)
    requires NL !in line
    ensures SplitFrom(done, line + [NL] + rest) == [done + line] + Lines(rest)
    decreases |line|
  {
    var b := line + [NL] + rest;
    if line == [] {
      assert b[0] == NL && b[1..] == rest && done + line == done;
    } else {
      assert b[0] == line[0] && b[1..] == line[1..] + [NL] + rest;
      SplitLine(done + [line[0]], line[1..], rest);
      assert done + [line[0]] + line[1..] == done + line;
    }
  }

  /** Splitting undoes joining, for all newline-free lines, empty ones included. */
  lemma {:induction false} LinesOfJoin(lines: seq<bytes>)
    requires forall l <- lines :: NL !in l
    ensures Lines(Join(lines)) == lines
  {
    if lines != [] {
      LinesOfJoin(lines[1..]);
      SplitLine([], lines[0], Join(lines[1..]));
      assert [] + lines[0] == lines[0];
    }
  }

  /** And joining undoes splitting, up to the newline an unterminated last line gains. */
  lemma {:induction false} JoinOfSplit(line: bytes, b: bytes)
    ensures Join(SplitFrom(line, b)) ==
      if line + b == [] || (b != [] && b[|b| - 1] == NL) then line + b else line + b + [NL]
    decreases |b|
  {
    if b == [] {
      assert line + b == line;
      assert Join([line]) == line + [NL] + [];
    } else if b[0] == NL {
      JoinOfSplit([], b[1..]);
      assert line + [NL] + ([] + b[1..]) == line + b;
    } else {
      JoinOfSplit(line + [b[0]], b[1..]);
      assert line + [b[0]] + b[1..] == line + b;
    }
  }

  lemma JoinOfLines(b: bytes)
    ensures Join(Lines(b)) == if b == [] || b[|b| - 1] == NL then b else b + [NL]
  {
    JoinOfSplit([], b);
    assert [] + b == b;
  }

  /** The JSON codec of messages, one line per message. */
  datatype Codec<!M> = Codec(marshal: M -> Option<bytes>, unmarshal: bytes -> Option<M>)
  {
    ghost predicate Encodes(m: M, b: bytes) {
      marshal(m) == Some(b) && b != [] && NL !in b && unmarshal(b) == Some(m)
    }
  }

  /** The messages among the lines: empty lines and lines that do not parse are skipped. */
  function Parsed<M>(c: Codec<M>, lines: seq<bytes>): seq<M> {
    if lines == [] then []
    else
      var m := if lines[0] == [] then None else c.unmarshal(lines[0]);
      (if m.Some? then [m.value] else []) + Parsed(c, lines[1..])
  }

  lemma ParsedStep<M>(c: Codec<M>, lines: seq<bytes>, i: nat, out: seq<M>)
    requires i < |lines| && Parsed(c, lines) == out + Parsed(c, lines[i..])
    ensures var m := if lines[i] == [] then None else c.unmarshal(lines[i]);
      Parsed(c, lines) == (if m.Some? then out + [m.value] else out) + Parsed(c, lines[i + 1..])
  {
    assert lines[i..][0] == lines[i] && lines[i..][1..] == lines[i + 1..];
  }

  method ParseLines<M>(c: Codec<M>, lines: seq<bytes>) returns (out: seq<M>)
    ensures out == Parsed(c, lines)
  {
    out := [];
    for i := 0 to |lines|
      invariant Parsed(c, lines) == out + Parsed(c, lines[i..])
    {
      ParsedStep(c, lines, i, out);
      if lines[i] != [] {
        var m := c.unmarshal(lines[i]);
        if m.Some? {
          out := out + [m.value];
        }
      }
    }
  }

  /** The file content after one message is enqueued; one that cannot be encoded leaves it alone. */
  function Enqueued<M>(c: Codec<M>, content: bytes, msg: M): bytes {
    match c.marshal(msg)
    case Some(b) => content + b + [NL]
    case None => content
  }

  function Drained<M>(c: Codec<M>, content: bytes): seq<M> {
    Parsed(c, Lines(content))
  }

  /** The queue file, if there is one. */
  class DiskQueue {
    var file: Option<bytes>

    constructor ()
      ensures file == None
    {
      file := None;
    }

    ghost function Content(): bytes
      reads this
    {
      if file.None? then [] else file.value
    }

    /** A message that cannot be encoded is refused, and no file is made for it. */
    method Enqueue<M>(c: Codec<M>, msg: M) returns (ok: bool)
      modifies this
      ensures ok == c.marshal(msg).Some?
      ensures file == if ok then Some(Enqueued(c, old(Content()), msg)) else old(file)
    {
      var b := c.marshal(msg);
      if b.None? {
        return false;
      }
      file := Some((if file.None? then [] else file.value) + (b.value + [NL]));
      assert Content() == old(Content()) + b.value + [NL];
      ok := true;
    }

    /** Takes everything and removes the file. */
    method Drain<M>(c: Codec<M>) returns (out: seq<M>)
      modifies this
      ensures file == None && out == Drained(c, old(Content()))
    {
      out := [];
      if file.None? {
        return;
      }
      var raw := file.value;
      file := None;
      var lines := SplitLines(raw);
      out := ParseLines(c, lines);
    }
  }

  // Whole histories ----------------------------------------------------------------------------------

  /** The file contents after enqueueing these messages on top of what there was. */
  function AfterEnqueues<M>(c: Codec<M>, content: bytes, msgs: seq<M>): bytes
    decreases |msgs|
  {
    if msgs == [] then content else AfterEnqueues(c, Enqueued(c, content, msgs[0]), msgs[1..])
  }

  ghost predicate AllEncode<M>(c: Codec<M>, msgs: seq<M>, lines: seq<bytes>) {
    |msgs| == |lines| && forall i | 0 <= i < |msgs| :: c.Encodes(msgs[i], lines[i])
  }

  lemma {:induction false} EnqueuesJoin<M>(c: Codec<M>, content: bytes, msgs: seq<M>, lines: seq<bytes>)
    requires AllEncode(c, msgs, lines)
    ensures AfterEnqueues(c, content, msgs) == content + Join(lines)
    decreases |msgs|
  {
    if msgs != [] {
      assert c.Encodes(msgs[0], lines[0]);
      forall i | 0 <= i < |msgs[1..]| ensures c.Encodes(msgs[1..][i], lines[1..][i]) {
        assert c.Encodes(msgs[i + 1], lines[i + 1]);
      }
      EnqueuesJoin(c, content + lines[0] + [NL], msgs[1..], lines[1..]);
      assert content + lines[0] + [NL] + Join(lines[1..]) == content + Join(lines);
    } else {
      assert content + Join(lines) == content;
    }
  }

  lemma {:induction false} ParsedEncoded<M>(c: Codec<M>, msgs: seq<M>, lines: seq<bytes>)
    requires AllEncode(c, msgs, lines)
    ensures Parsed(c, lines) == msgs
    decreases |msgs|
  {
    if msgs != [] {
      assert c.Encodes(msgs[0], lines[0]);
      forall i | 0 <= i < |msgs[1..]| ensures c.Encodes(msgs[1..][i], lines[1..][i]) {
        assert c.Encodes(msgs[i + 1], lines[i + 1]);
      }
      ParsedEncoded(c, msgs[1..], lines[1..]);
    }
  }

  /** Whatever is enqueued on an empty queue, the next drain returns it all, in order. */
  lemma QueueRoundTrip<M>(c: Codec<M>, msgs: seq<M>, lines: seq<bytes>)
    requires AllEncode(c, msgs, lines)
    ensures Drained(c, AfterEnqueues(c, [], msgs)) == msgs
  {
    EnqueuesJoin(c, [], msgs, lines);
    assert [] + Join(lines) == Join(lines);
    forall l <- lines ensures NL !in l {
      var i :| 0 <= i < |lines| && lines[i] == l;
      assert c.Encodes(msgs[i], lines[i]);
    }
    LinesOfJoin(lines);
    ParsedEncoded(c, msgs, lines);
  }

  lemma {:induction false} ParsedConcat<M>(c: Codec<M>, a: seq<bytes>, b: seq<bytes>)
    ensures Parsed(c, a + b) == Parsed(c, a) + Parsed(c, b)
  {
    if a == [] {
      assert a + b == b;
    } else {
      assert (a + b)[0] == a[0] && (a + b)[1..] == a[1..] + b;
      ParsedConcat(c, a[1..], b);
    }
  }

  /** One corrupt line costs itself and no other: what is before and behind it is drained as if it were not there. */
  lemma CorruptLineIsSkipped<M>(c: Codec<M>, before: seq<bytes>, corrupt: bytes, behind: seq<bytes>)
    requires corrupt == [] || c.unmarshal(corrupt) == None
    requires forall l <- before + ([corrupt] + behind) :: NL !in l
    ensures Drained(c, Join(before + ([corrupt] + behind))) == Parsed(c, before) + Parsed(c, behind)
  {
    LinesOfJoin(before + ([corrupt] + behind));
    ParsedConcat(c, before, [corrupt] + behind);
    CorruptFirst(c, corrupt, behind);
  }

  lemma CorruptFirst<M>(c: Codec<M>, corrupt: bytes, behind: seq<bytes>)
    requires corrupt == [] || c.unmarshal(corrupt) == None
    ensures Parsed(c, [corrupt] + behind) == Parsed(c, behind)
  {
    assert ([corrupt] + behind)[0] == corrupt && ([corrupt] + behind)[1..] == behind;
  }
}
