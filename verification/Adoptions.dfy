/**
  What one adoption of a peer's seed guarantees, from the SENDER_KEY message that brought it to the
  next one: what opens, what cannot, and that nothing opens twice.
 */
module Adoptions {
  import opened Prelude
  import opened Ratchets
  import opened ChatProtocol

  /** What can happen to a member: a chat, a seed of a peer, an epoch, or a write of its own. */
  datatype Input = Text(msg: Message) | Seed(sender: string, seed: Key) | Epoch(own: Key) | Out(o: Outgoing, blocked: bool)

  function AfterInput(m: Member, i: Input): Member {
    match i
    case Text(msg) => OnMessage(m, msg)
    case Seed(q, seed) => if q == m.nick then m else Flush(Adopt(m, q, seed), q)
    case Epoch(seed) => OnEpoch(m, seed)
    case Out(o, blocked) => AfterWrite(m, o, blocked)
  }

  /** What the member is shown of chats then; its own seed coming back opens nothing. */
  function ShownAt(m: Member, i: Input): seq<Shown> {
    match i
    case Text(msg) => [MessageShown(m, msg)]
    case Seed(q, seed) => if q == m.nick then [] else FlushShown(Adopt(m, q, seed), q)
    case Epoch(_) => []
    case Out(_, _) => []
  }

  function Shows(m: Member, inputs: seq<Input>): seq<Shown>
    decreases |inputs|
  {
    if inputs == [] then [] else ShownAt(m, inputs[0]) + Shows(AfterInput(m, inputs[0]), inputs[1..])
  }

  /** The messages of p among those opened, in order. */
  function OpenedOf(p: string, shown: seq<Shown>): seq<Message> {
    if shown == [] then []
    else if shown[0].Opened? && shown[0].msg.sender == p then [shown[0].msg] + OpenedOf(p, shown[1..])
    else OpenedOf(p, shown[1..])
  }

  lemma {:induction false} OpenedOfConcat(p: string, a: seq<Shown>, b: seq<Shown>)
    ensures OpenedOf(p, a + b) == OpenedOf(p, a) + OpenedOf(p, b)
  {
    if a == [] {
      assert a + b == b;
    } else {
      assert (a + b)[0] == a[0] && (a + b)[1..] == a[1..] + b;
      OpenedOfConcat(p, a[1..], b);
    }
  }

  /** Each message opened with the key of its own step, a step not yet spent, and no step came twice. */
  ghost predicate OnceEach(c: Chain, got: seq<Message>) {
    && (forall m <- got :: m.step !in c.spent && m.content.Encoded? && m.content.ct.Sealed?
                              && m.content.ct.key == MessageKey(c.seed, m.step))
    && (forall i, j | 0 <= i < j < |got| :: got[i].step != got[j].step)
  }

  lemma OnceEachCons(c: Chain, m: Message, rest: seq<Message>)
    requires m.content.Encoded? && Open(c, m).Some? && Open(c, m).value.Some?
    requires OnceEach(AfterGet(c, m.step), rest)
    ensures OnceEach(c, [m] + rest)
  {
  }

  lemma {:induction false} FlushOnceEach(c: Chain, p: string, ready: seq<Message>)
    requires forall m <- ready :: m.sender == p
    ensures OnceEach(c, OpenedOf(p, OpenAll(c, ready)))
    ensures forall m <- OpenedOf(p, OpenAll(c, ready)) :: m.step in ChainAfter(c, ready).spent
    ensures c.spent <= ChainAfter(c, ready).spent && ChainAfter(c, ready).seed == c.seed
    decreases |ready|
  {
    if ready != [] {
      var m, rest := ready[0], ready[1..];
      if m.content.Text? {
        FlushOnceEach(c, p, rest);
      } else {
        FlushOnceEach(AfterGet(c, m.step), p, rest);
        var got := OpenedOf(p, OpenAll(AfterGet(c, m.step), rest));
        if Open(c, m).Some? && Open(c, m).value.Some? {
          var s := Opened(m, Open(c, m).value.value);
          assert OpenAll(c, ready) == [s] + OpenAll(AfterGet(c, m.step), rest);
          OpenedOfConcat(p, [s], OpenAll(AfterGet(c, m.step), rest));
          OnceEachCons(c, m, got);
        } else {
          assert OpenAll(c, ready) == OpenAll(AfterGet(c, m.step), rest);
        }
      }
    }
  }

  lemma {:induction false} OthersOpenNothing(c: Chain, p: string, ready: seq<Message>)
    requires forall m <- ready :: m.sender != p
    ensures OpenedOf(p, OpenAll(c, ready)) == []
    decreases |ready|
  {
    if ready != [] {
      var m, rest := ready[0], ready[1..];
      var c' := if m.content.Encoded? then AfterGet(c, m.step) else c;
      OthersOpenNothing(c', p, rest);
      if m.content.Encoded? && Open(c, m).Some? && Open(c, m).value.Some? {
        var s := Opened(m, Open(c, m).value.value);
        assert OpenAll(c, ready) == [s] + OpenAll(c', rest);
        OpenedOfConcat(p, [s], OpenAll(c', rest));
      } else {
        assert OpenAll(c, ready) == OpenAll(c', rest);
      }
    }
  }

  /** Another peer's seed, with the flush it causes, concerns that peer alone. */
  lemma SeedOpensItsOwn(m: Member, p: string, q: string, seed: Key)
    requires p != q && q != m.nick
    ensures OpenedOf(p, ShownAt(m, Seed(q, seed))) == []
    ensures var m' := AfterInput(m, Seed(q, seed));
      (p in m'.peers <==> p in m.peers) && (p in m.peers ==> m'.peers[p] == m.peers[p])
  {
    var a := Adopt(m, q, seed);
    FilterKeepsAll(q, a.pending);
    OthersOpenNothing(a.peers[q], p, From(q, a.pending));
  }

  /** One chat: either it opens, with a key not yet spent that is spent then, or nothing of p does. */
  lemma TextOpensOnce(m: Member, p: string, msg: Message, later: seq<Message>)
    requires p in m.peers && p != m.nick && p in OnMessage(m, msg).peers
    requires OnceEach(OnMessage(m, msg).peers[p], later)
    ensures OnceEach(m.peers[p], OpenedOf(p, [MessageShown(m, msg)]) + later)
  {
    if MessageShown(m, msg).Opened? && msg.sender == p {
      OnceEachCons(m.peers[p], msg, later);
      assert OpenedOf(p, [MessageShown(m, msg)]) == [msg];
    } else {
      assert OpenedOf(p, [MessageShown(m, msg)]) + later == later;
    }
  }

  /** What opened of p is fine for the chain the member has for p; without one, nothing did. */
  ghost predicate FineFor(m: Member, p: string, got: seq<Message>) {
    if p in m.peers then OnceEach(m.peers[p], got) else got == []
  }

  lemma InputOpensOnce(m: Member, p: string, i: Input, later: seq<Message>)
    requires p != m.nick && !(i.Seed? && i.sender == p)
    requires FineFor(AfterInput(m, i), p, later)
    ensures FineFor(m, p, OpenedOf(p, ShownAt(m, i)) + later)
  {
    assert [] + later == later;
    match i
    case Text(msg) =>
      if p in m.peers { TextOpensOnce(m, p, msg, later); }
    case Seed(q, seed) =>
      if q != m.nick { SeedOpensItsOwn(m, p, q, seed); }
    case Epoch(_) =>
    case Out(_, _) =>
  }

  /** Until p's seed comes again, whatever happens: what opens of p opens once each. */
  lemma {:induction false} InputsOnceEach(m: Member, p: string, inputs: seq<Input>)
    requires p != m.nick && forall i <- inputs :: !(i.Seed? && i.sender == p)
    ensures FineFor(m, p, OpenedOf(p, Shows(m, inputs)))
    decreases |inputs|
  {
    if inputs != [] {
      var i, rest := inputs[0], inputs[1..];
      assert i in inputs && forall j <- rest :: j in inputs;
      InputsOnceEach(AfterInput(m, i), p, rest);
      OpenedOfConcat(p, ShownAt(m, i), Shows(AfterInput(m, i), rest));
      InputOpensOnce(m, p, i, OpenedOf(p, Shows(AfterInput(m, i), rest)));
    }
  }

  lemma OnceEachConcat(c: Chain, later: Chain, first: seq<Message>, second: seq<Message>)
    requires OnceEach(c, first) && OnceEach(later, second) && c.seed == later.seed && c.spent <= later.spent
    requires forall m <- first :: m.step in later.spent
    ensures OnceEach(c, first + second)
  {
  }

  lemma AdoptionOnceEach(m: Member, p: string, seed: Key, inputs: seq<Input>)
    requires p != m.nick && forall i <- inputs :: !(i.Seed? && i.sender == p)
    ensures OnceEach(NewChain(seed), OpenedOf(p, Shows(m, [Seed(p, seed)] + inputs)))
  {
    var a, f := Adopt(m, p, seed), AfterInput(m, Seed(p, seed));
    FilterKeepsAll(p, a.pending);
    FlushOnceEach(a.peers[p], p, From(p, a.pending));
    InputsOnceEach(f, p, inputs);
    var all := [Seed(p, seed)] + inputs;
    assert all[0] == Seed(p, seed) && all[1..] == inputs;
    OpenedOfConcat(p, ShownAt(m, all[0]), Shows(f, inputs));
    OnceEachConcat(a.peers[p], f.peers[p], OpenedOf(p, FlushShown(a, p)), OpenedOf(p, Shows(f, inputs)));
  }

  /**
    No replay within an adoption: from adopting a peer's seed on, flush included, until that peer's
    seed comes again, whatever else happens in whatever order and however often: chats, other
    peers' seeds and their flushes, epochs, own writes. No two opened messages of that peer have the
    same step, nor the same ciphertext.
   */
  lemma NoReplay(m: Member, p: string, seed: Key, inputs: seq<Input>, i: nat, j: nat)
    requires p != m.nick && seed.Raw? && forall i <- inputs :: !(i.Seed? && i.sender == p)
    requires i < j < |OpenedOf(p, Shows(m, [Seed(p, seed)] + inputs))|
    ensures var got := OpenedOf(p, Shows(m, [Seed(p, seed)] + inputs));
      got[i].step != got[j].step && got[i].content != got[j].content
  {
    AdoptionOnceEach(m, p, seed, inputs);
    var got := OpenedOf(p, Shows(m, [Seed(p, seed)] + inputs));
    assert got[i] in got && got[j] in got;
    if got[i].content == got[j].content {
      MessageKeysInjective(seed, got[i].step, seed, got[j].step);
    }
  }

  /** The message was sealed at its own step under this seed. */
  ghost predicate SealedUnder(seed: Key, msg: Message) {
    msg.content.Encoded? && msg.content.ct.Sealed? && msg.content.ct.key == MessageKey(seed, msg.step)
  }

  /**
    Adopting a seed again starts its chain over: whatever was opened before, a message sealed under
    `seed` opens once more after an adoption exactly if the seed is the same and the new chain, after
    what waited has been tried, still grants the step.
   */
  lemma ReplayAfterReadoption(m: Member, p: string, seed: Key, again: Key, msg: Message)
    requires p != m.nick && msg.sender == p && msg.e2ee && SealedUnder(seed, msg)
    requires seed.Raw? && again.Raw?
    ensures MessageShown(AfterInput(m, Seed(p, again)), msg).Opened?
      <==> again == seed && Grants(ChainAfter(NewChain(again), From(p, m.pending)), msg.step)
  {
    ChainAfterKeepsSeed(NewChain(again), From(p, m.pending));
    if MessageKey(seed, msg.step) == MessageKey(again, msg.step) {
      MessageKeysInjective(seed, msg.step, again, msg.step);
    }
  }

  /** Delivery, exactly: a message sealed under the adopted seed opens iff its step is unspent and within the window. */
  lemma OpensExactlyWhenGranted(m: Member, msg: Message)
    requires msg.e2ee && msg.sender != m.nick && msg.sender in m.peers
    requires SealedUnder(m.peers[msg.sender].seed, msg)
    ensures Grants(m.peers[msg.sender], msg.step) <==> MessageShown(m, msg) == Opened(msg, msg.content.ct.text)
    ensures !Grants(m.peers[msg.sender], msg.step) ==>
      MessageShown(m, msg) == Waiting(msg) && OnMessage(m, msg).pending == Push(m.pending, msg)
  {
  }

  /** A text sealed under another seed, or at another step, than the adopted one expects never opens. */
  lemma WrongKeyNeverOpens(m: Member, msg: Message, seed: Key, step: nat)
    requires msg.content.Encoded? && msg.content.ct.Sealed? && msg.content.ct.key == MessageKey(seed, step)
    requires msg.sender in m.peers && m.peers[msg.sender].seed.Raw? && seed.Raw?
    requires m.peers[msg.sender].seed != seed || msg.step != step
    ensures !MessageShown(m, msg).Opened?
    ensures OpenAll(m.peers[msg.sender], [msg]) == []
  {
    if MessageKey(seed, step) == MessageKey(m.peers[msg.sender].seed, msg.step) {
      MessageKeysInjective(seed, step, m.peers[msg.sender].seed, msg.step);
    }
  }

  function SealedText(m: Message): string {
    if m.content.Encoded? && m.content.ct.Sealed? then m.content.ct.text else ""
  }

  /** All of them opened, in order. */
  function AllOpened(ready: seq<Message>): seq<Shown> {
    if ready == [] then [] else [Opened(ready[0], SealedText(ready[0]))] + AllOpened(ready[1..])
  }

  /** Tried in this order, no step is more than MAX_SKIP past where the chain then stands. */
  predicate InReach(next: nat, ready: seq<Message>)
    decreases |ready|
  {
    ready == [] ||
    (ready[0].step <= next + MAX_SKIP
     && InReach(if ready[0].step < next then next else ready[0].step + 1, ready[1..]))
  }

  ghost predicate DistinctSteps(ready: seq<Message>) {
    forall i, j | 0 <= i < j < |ready| :: ready[i].step != ready[j].step
  }

  /** What has to hold of the queued messages for all of them to open. */
  ghost predicate AllCanOpen(c: Chain, ready: seq<Message>) {
    && (forall m <- ready :: SealedUnder(c.seed, m) && m.step !in c.spent)
    && DistinctSteps(ready) && InReach(c.next, ready)
  }

  lemma AllCanOpenCons(c: Chain, m: Message, rest: seq<Message>)
    ensures AllCanOpen(c, [m] + rest)
      <==> SealedUnder(c.seed, m) && Grants(c, m.step) && AllCanOpen(AfterGet(c, m.step), rest)
  {
    var ready := [m] + rest;
    assert ready[0] == m && ready[1..] == rest;
    assert DistinctSteps(ready) <==> DistinctSteps(rest) && forall n <- rest :: n.step != m.step by {
      if DistinctSteps(ready) {
        forall n <- rest ensures n.step != m.step {
          var i :| 0 <= i < |rest| && rest[i] == n;
          assert ready[i + 1] == n;
        }
        forall i, j | 0 <= i < j < |rest| ensures rest[i].step != rest[j].step {
          assert ready[i + 1] == rest[i] && ready[j + 1] == rest[j];
        }
      }
    }
    assert forall n :: n in ready <==> n == m || n in rest;
  }

  /** At most one message is shown for each that was queued. */
  lemma {:induction false} OpensAtMostAll(c: Chain, ready: seq<Message>)
    ensures |OpenAll(c, ready)| <= |ready| == |AllOpened(ready)|
    decreases |ready|
  {
    if ready != [] {
      OpensAtMostAll(if ready[0].content.Encoded? then AfterGet(c, ready[0].step) else c, ready[1..]);
    }
  }

  /**
    Flushing loses nothing, exactly when: all of what waits opens, in order of arrival, if and only
    if each was sealed under the adopted seed, at an unspent step of its own, within the window.
   */
  lemma {:induction false} FlushIsComplete(c: Chain, ready: seq<Message>)
    ensures OpenAll(c, ready) == AllOpened(ready) <==> AllCanOpen(c, ready)
    decreases |ready|
  {
    if ready != [] {
      var m, rest := ready[0], ready[1..];
      var c' := AfterGet(c, m.step);
      FlushIsComplete(c', rest);
      assert ready == [m] + rest;
      AllCanOpenCons(c, m, rest);
      OpensAtMostAll(c, rest);
      OpensAtMostAll(c', rest);
      if SealedUnder(c.seed, m) && Grants(c, m.step) {
        assert Open(c, m) == Some(Some(SealedText(m)));
        SameAfterHead(Opened(m, SealedText(m)), OpenAll(c', rest), AllOpened(rest));
      } else {
        assert |OpenAll(c, ready)| <= |rest|;
      }
    }
  }

  lemma SameAfterHead(s: Shown, a: seq<Shown>, b: seq<Shown>)
    ensures [s] + a == [s] + b <==> a == b
  {
    assert ([s] + a)[1..] == a && ([s] + b)[1..] == b;
  }

  /**
    An input that fails it: a stale message ahead of a good one of the same step
    spends the key, and the good one is lost.
   */
  lemma StaleMessageSpendsKey(seed: Key, stale: Message, good: Message)
    requires seed.Raw? && SealedUnder(seed, good) && good.step <= MAX_SKIP
    requires stale.step == good.step && stale.content.Encoded? && !SealedUnder(seed, stale)
    ensures OpenAll(NewChain(seed), [good]) == [Opened(good, good.content.ct.text)]
    ensures OpenAll(NewChain(seed), [stale, good]) == []
  {
    var c := NewChain(seed);
    assert [stale, good][1..] == [good] && [good][1..] == [];
    assert Open(c, stale) == Some(None);
    assert OpenAll(c, [stale, good]) == OpenAll(AfterGet(c, stale.step), [good]);
    assert Open(AfterGet(c, stale.step), good) == None;
  }
}
