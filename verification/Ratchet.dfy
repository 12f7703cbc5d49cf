/**
  The symmetric sender-key ratchet (internal/crypto/ratchet.go).

  Key material is symbolic: a key is either raw bytes or an HMAC tag, and tags agree exactly
  when key and data agree. `Chain` is what a caller thinks in: the seed, the next step and the
  set of steps whose keys have been handed out. `Ratchet` is the object with its chain key, its
  32-bit counter and its cache of skipped keys.
 */
module Ratchets {
  import opened Prelude

  datatype Key = Raw(raw: bytes) | Hmac(key: Key, data: byte)
  {
    function Length(): nat { if Raw? then |raw| else 32 }
  }

  /** The two tags the derivation step takes of a chain key. */
  function Kdf(chainKey: Key): (r: (Key, Key))
    ensures r.0 != r.1
  {
    (Hmac(chainKey, 0x01), Hmac(chainKey, 0x02))
  }

  function ChainKey(seed: Key, n: nat): Key {
    if n == 0 then seed else Hmac(ChainKey(seed, n - 1), 0x02)
  }

  function MessageKey(seed: Key, n: nat): Key {
    Hmac(ChainKey(seed, n), 0x01)
  }

  lemma {:induction false} ChainKeysInjective(s: Key, i: nat, s': Key, j: nat)
    requires s.Raw? && s'.Raw?
    requires ChainKey(s, i) == ChainKey(s', j)
    ensures s == s' && i == j
  {
    if i > 0 && j > 0 {
      ChainKeysInjective(s, i - 1, s', j - 1);
    }
  }

  /** A message key names its seed and its position: no two (seed, position) pairs share one. */
  lemma MessageKeysInjective(s: Key, i: nat, s': Key, j: nat)
    requires s.Raw? && s'.Raw?
    requires MessageKey(s, i) == MessageKey(s', j)
    ensures s == s' && i == j
  {
    ChainKeysInjective(s, i, s', j);
  }

  const MAX_SKIP: nat := 100

  /** The last step of the 32-bit counter; advancing past it wraps to 0. */
  const MAX_STEP: uint32 := 0xFFFF_FFFF

  datatype Chain = Chain(seed: Key, next: nat, spent: set<nat>)
  {
    ghost predicate Wf() { forall i <- spent :: i < next }
  }

  function NewChain(seed: Key): Chain {
    Chain(seed, 0, {})
  }

  /** A step's key can be had if it has not been handed out and is not too far ahead. */
  predicate Grants(c: Chain, t: nat) {
    t !in c.spent && t <= c.next + MAX_SKIP
  }

  /** The chain once the key of step t has been handed out. */
  function Spend(c: Chain, t: nat): Chain {
    c.(next := if t < c.next then c.next else t + 1, spent := c.spent + {t})
  }

  function AfterNext(c: Chain): Chain {
    Spend(c, c.next)
  }

  /** A refused request changes nothing. */
  function AfterGet(c: Chain, t: nat): Chain {
    if Grants(c, t) then Spend(c, t) else c
  }

  function KeyFor(c: Chain, t: nat): Option<Key> {
    if Grants(c, t) then Some(MessageKey(c.seed, t)) else None
  }

  // Runs -----------------------------------------------------------------------------------

  datatype Call = Next | Get(t: nat)

  function After(c: Chain, call: Call): Chain {
    match call
    case Next => AfterNext(c)
    case Get(t) => AfterGet(c, t)
  }

  /** The step whose key a call hands out, if any. */
  function Handed(c: Chain, call: Call): Option<nat> {
    match call
    case Next => Some(c.next)
    case Get(t) => if Grants(c, t) then Some(t) else None
  }

  function Run(c: Chain, calls: seq<Call>): Chain
    decreases |calls|
  {
    if calls == [] then c else Run(After(c, calls[0]), calls[1..])
  }

  /** The answers given along a run, in order. */
  function Answers(c: Chain, calls: seq<Call>): (r: seq<Option<nat>>)
    ensures |r| == |calls|
    decreases |calls|
  {
    if calls == [] then [] else [Handed(c, calls[0])] + Answers(After(c, calls[0]), calls[1..])
  }

  /** How many of the answers are keys. */
  function KeysGiven(answers: seq<Option<nat>>): nat {
    if answers == [] then 0 else (if answers[0].Some? then 1 else 0) + KeysGiven(answers[1..])
  }

  ghost predicate NoneOf(a: seq<Option<nat>>, given: set<nat>) {
    forall i | 0 <= i < |a| && a[i].Some? :: a[i].value !in given
  }

  ghost predicate AllDifferent(a: seq<Option<nat>>) {
    forall i, j | 0 <= i < j < |a| && a[i].Some? && a[j].Some? :: a[i].value != a[j].value
  }

  /** One call hands out a step not yet spent, and spends it. */
  lemma CallSpends(c: Chain, call: Call)
    requires c.Wf()
    ensures var h, c' := Handed(c, call), After(c, call);
      && c'.Wf() && c'.next <= c.next + MAX_SKIP + 1
      && (h.None? ==> c' == c)
      && (h.Some? ==> h.value !in c.spent && c'.spent == c.spent + {h.value})
  {
  }

  /** An answer in front: different from all later ones if those avoid what it spends. */
  lemma DifferentCons(h: Option<nat>, rest: seq<Option<nat>>, given: set<nat>, later: set<nat>)
    requires NoneOf(rest, later) && AllDifferent(rest)
    requires if h.None? then later == given else h.value !in given && later == given + {h.value}
    ensures NoneOf([h] + rest, given) && AllDifferent([h] + rest)
    ensures |later| + KeysGiven(rest) == |given| + KeysGiven([h] + rest)
  {
    var a := [h] + rest;
    assert a[0] == h && a[1..] == rest;
    assert forall i | 1 <= i < |a| :: a[i] == rest[i - 1];
  }

  /** At most once: no two calls of `Next` and `GetMessageKey` on one ratchet hand out the same step's key. */
  lemma {:induction false} NoStepTwice(c: Chain, calls: seq<Call>)
    requires c.Wf()
    ensures NoneOf(Answers(c, calls), c.spent) && AllDifferent(Answers(c, calls))
    ensures |Run(c, calls).spent| == |c.spent| + KeysGiven(Answers(c, calls))
    ensures Run(c, calls).Wf() && Run(c, calls).next <= c.next + (MAX_SKIP + 1) * |calls|
    decreases |calls|
  {
    if calls != [] {
      var c', rest := After(c, calls[0]), calls[1..];
      CallSpends(c, calls[0]);
      NoStepTwice(c', rest);
      DifferentCons(Handed(c, calls[0]), Answers(c', rest), c.spent, c'.spent);
    }
  }

  /** Nor the same key: message keys of different steps differ. */
  lemma NoKeyTwice(seed: Key, calls: seq<Call>, i: nat, j: nat)
    requires seed.Raw? && i < j < |calls|
    requires var a := Answers(NewChain(seed), calls); a[i].Some? && a[j].Some?
    ensures var a := Answers(NewChain(seed), calls);
      MessageKey(seed, a[i].value) != MessageKey(seed, a[j].value)
  {
    NoStepTwice(NewChain(seed), calls);
    var a := Answers(NewChain(seed), calls);
    if MessageKey(seed, a[i].value) == MessageKey(seed, a[j].value) {
      MessageKeysInjective(seed, a[i].value, seed, a[j].value);
    }
  }

  function Below(n: nat): (r: set<nat>)
    ensures |r| == n
    ensures forall i: nat :: i in r <==> i < n
  {
    if n == 0 then {} else Below(n - 1) + {n - 1}
  }

  /** The steps behind the chain that were skipped and are still to be had. */
  function Skipped(c: Chain): set<nat> {
    Below(c.next) - c.spent
  }

  /** Conservation: every advance of the chain is either a key handed out or a key still cached. */
  lemma Conservation(seed: Key, calls: seq<Call>)
    ensures var c := Run(NewChain(seed), calls);
      c.next == |Skipped(c)| + KeysGiven(Answers(NewChain(seed), calls))
  {
    NoStepTwice(NewChain(seed), calls);
    var c := Run(NewChain(seed), calls);
    assert Below(c.next) == Skipped(c) + c.spent && Skipped(c) !! c.spent;
  }

  // Two parties --------------------------------------------------------------------------

  datatype Event = Send | Recv(t: nat)

  /**
    A schedule the receiver can follow: it asks only for steps already sent, each once, and
    never more than MAX_SKIP past its own next step. `sent` and `next` are the two parties' next
    steps, `asked` the steps asked for so far.
   */
  predicate Followable(sent: nat, next: nat, asked: set<nat>, events: seq<Event>)
    decreases |events|
  {
    if events == [] then true else
      match events[0]
      case Send => Followable(sent + 1, next, asked, events[1..])
      case Recv(t) =>
        && t < sent && t !in asked && t <= next + MAX_SKIP
        && Followable(sent, if t < next then next else t + 1, asked + {t}, events[1..])
  }

  /** The (step, key) pairs the sender's `Next` returns. */
  function SentKeys(a: Chain, events: seq<Event>): seq<(nat, Key)>
    decreases |events|
  {
    if events == [] then []
    else if events[0].Send? then [(a.next, MessageKey(a.seed, a.next))] + SentKeys(AfterNext(a), events[1..])
    else SentKeys(a, events[1..])
  }

  /** The (step, answer) pairs of the receiver's `GetMessageKey`. */
  function ReceivedKeys(b: Chain, events: seq<Event>): seq<(nat, Option<Key>)>
    decreases |events|
  {
    if events == [] then []
    else match events[0]
      case Send => ReceivedKeys(b, events[1..])
      case Recv(t) => [(t, KeyFor(b, t))] + ReceivedKeys(AfterGet(b, t), events[1..])
  }

  ghost predicate InOrder(sent: seq<(nat, Key)>, seed: Key, first: nat) {
    forall i | 0 <= i < |sent| :: sent[i] == (first + i, MessageKey(seed, first + i))
  }

  lemma {:induction false} SentInOrder(a: Chain, events: seq<Event>)
    ensures InOrder(SentKeys(a, events), a.seed, a.next)
    decreases |events|
  {
    if events != [] {
      SentInOrder(if events[0].Send? then AfterNext(a) else a, events[1..]);
    }
  }

  ghost predicate AllGranted(got: seq<(nat, Option<Key>)>, seed: Key, sent: nat) {
    forall i | 0 <= i < |got| :: got[i].0 < sent && got[i].1 == Some(MessageKey(seed, got[i].0))
  }

  lemma AllGrantedCons(g: (nat, Option<Key>), rest: seq<(nat, Option<Key>)>, seed: Key, sent: nat)
    ensures AllGranted([g] + rest, seed, sent)
      <==> g.0 < sent && g.1 == Some(MessageKey(seed, g.0)) && AllGranted(rest, seed, sent)
  {
    var got := [g] + rest;
    assert got[0] == g && forall i | 0 <= i < |rest| :: got[i + 1] == rest[i];
  }

  /** Nothing is asked for before it was sent. */
  predicate InTime(sent: nat, events: seq<Event>)
    decreases |events|
  {
    if events == [] then true
    else if events[0].Send? then InTime(sent + 1, events[1..])
    else events[0].t < sent && InTime(sent, events[1..])
  }

  lemma {:induction false} ReceivedAllGranted(a: Chain, b: Chain, events: seq<Event>)
    requires a.seed == b.seed
    ensures Followable(a.next, b.next, b.spent, events)
      <==> AllGranted(ReceivedKeys(b, events), b.seed, a.next + |SentKeys(a, events)|) && InTime(a.next, events)
    decreases |events|
  {
    if events != [] {
      match events[0] {
        case Send =>
          ReceivedAllGranted(AfterNext(a), b, events[1..]);
        case Recv(t) =>
          ReceivedAllGranted(a, AfterGet(b, t), events[1..]);
          AllGrantedCons((t, KeyFor(b, t)), ReceivedKeys(AfterGet(b, t), events[1..]), b.seed,
                         a.next + |SentKeys(a, events)|);
      }
    }
  }

  /**
    Two-party agreement, exactly: on an interleaving of sends and receives after the receiver
    adopted the sender's seed, in which nothing is asked for before it was sent, every receive
    yields the very key the sender used for that step if and only if each step is asked for at
    most once and never more than MAX_SKIP past the receiver's next step.
   */
  lemma TwoPartyAgreement(seed: Key, events: seq<Event>)
    requires InTime(0, events)
    ensures var sent, got := SentKeys(NewChain(seed), events), ReceivedKeys(NewChain(seed), events);
      Followable(0, 0, {}, events) <==>
        forall i | 0 <= i < |got| ::
          got[i].0 < |sent| && got[i].1.Some? && sent[got[i].0] == (got[i].0, got[i].1.value)
  {
    var sent, got := SentKeys(NewChain(seed), events), ReceivedKeys(NewChain(seed), events);
    SentInOrder(NewChain(seed), events);
    ReceivedAllGranted(NewChain(seed), NewChain(seed), events);
    assert AllGranted(got, seed, |sent|) <==>
      forall i | 0 <= i < |got| ::
        got[i].0 < |sent| && got[i].1.Some? && sent[got[i].0] == (got[i].0, got[i].1.value);
  }

  /** The keys a ratchet keeps: those of the steps behind it that have not been handed out. */
  function Cache(seed: Key, next: nat, spent: set<nat>): map<nat, Key> {
    if next == 0 then map[]
    else if next - 1 in spent then Cache(seed, next - 1, spent)
    else Cache(seed, next - 1, spent)[next - 1 := MessageKey(seed, next - 1)]
  }

  lemma {:induction false} CacheHolds(seed: Key, next: nat, spent: set<nat>, t: nat)
    ensures t in Cache(seed, next, spent) <==> t < next && t !in spent
    ensures t in Cache(seed, next, spent) ==> Cache(seed, next, spent)[t] == MessageKey(seed, t)
  {
    if next > 0 { CacheHolds(seed, next - 1, spent, t); }
  }

  /** Handing out a key takes it out of the cache; a key ahead of the chain was never in it. */
  lemma {:induction false} CacheSpends(seed: Key, next: nat, spent: set<nat>, t: nat)
    ensures Cache(seed, next, spent + {t}) == Cache(seed, next, spent) - {t}
  {
    if next > 0 {
      CacheSpends(seed, next - 1, spent, t);
      CacheHolds(seed, next - 1, spent, next - 1);
    }
  }

  // The object -----------------------------------------------------------------------------

  /**
    `store` is the memory of the ratchet's key slices: `initialKey` and `chainKey` are references
    into it, and a write through one would be seen through the other while they are equal.
    `chain` is the value the object stands for.
   */
  class Ratchet {
    var store: seq<Key>
    var initialKey: nat
    var chainKey: nat
    var step: uint32
    var skippedKeys: map<nat, Key>
    ghost var chain: Chain
    ghost const owner: string  // the nick whose messages the chain is for

    ghost predicate Valid()
      reads this
    {
      && initialKey < |store| && chainKey < |store|
      && store[initialKey] == chain.seed
      && store[chainKey] == ChainKey(chain.seed, chain.next)
      && step == chain.next && chain.Wf()
      && skippedKeys == Cache(chain.seed, chain.next, chain.spent)
    }

    /** Copies the seed into one new buffer that serves as initial key and chain key alike. */
    constructor (seed: Key, ghost owner: string)
      ensures Valid() && chain == NewChain(seed) && this.owner == owner
      ensures initialKey == chainKey
    {
      store := [seed];
      initialKey, chainKey := 0, 0;
      step := 0;
      skippedKeys := map[];
      chain := NewChain(seed);
      this.owner := owner;
    }

    /** However far the chain has moved, the initial key is still the seed. */
    method GetInitialKey() returns (k: Key)
      requires Valid()
      ensures k == chain.seed
    {
      k := store[initialKey];
    }

    /** Derives both keys from the chain key; the next chain key goes to a new buffer. */
    method Advance() returns (mk: Key)
      requires Valid() && step < MAX_STEP
      modifies this`store, this`chainKey, this`step, this`chain
      ensures Valid() && chain == AfterNext(old(chain))
      ensures mk == MessageKey(chain.seed, old(chain).next)
    {
      var keys := Kdf(store[chainKey]);
      mk := keys.0;
      store, chainKey := store + [keys.1], |store|;
      step := step + 1;
      CacheSpends(chain.seed, chain.next, chain.spent, chain.next);
      CacheHolds(chain.seed, chain.next, chain.spent, chain.next);
      chain := AfterNext(chain);
    }

    method Next() returns (msgKey: Key, currentStep: uint32)
      requires Valid() && step < MAX_STEP
      modifies this
      ensures Valid() && chain == AfterNext(old(chain))
      ensures currentStep == old(chain).next
      ensures msgKey == MessageKey(chain.seed, currentStep)
    {
      currentStep := step;
      msgKey := Advance();
    }

    /** One turn of the catch-up loop: the current step's key goes to the cache. */
    method Skip()
      requires Valid() && step < MAX_STEP
      modifies this
      ensures Valid() && chain == old(chain).(next := old(chain).next + 1)
    {
      ghost var c := chain;
      var at := step;
      CacheSpends(c.seed, at, c.spent, at);
      CacheHolds(c.seed, at, c.spent, at);
      var mk := Advance();
      skippedKeys := skippedKeys[at := mk];
      chain := c.(next := c.next + 1);
    }

    /** The catch-up loop, then the last turn, whose key is handed out instead of cached. */
    method CatchUp(targetStep: uint32) returns (mk: Key)
      requires Valid() && step <= targetStep < MAX_STEP
      modifies this
      ensures Valid() && chain == Spend(old(chain), targetStep)
      ensures mk == MessageKey(chain.seed, targetStep)
    {
      while step < targetStep
        invariant Valid() && step <= targetStep
        invariant chain == old(chain).(next := step)
      {
        Skip();
      }
      mk := Advance();
    }

    method GetMessageKey(targetStep: uint32) returns (mk: Option<Key>)
      requires Valid() && step + MAX_SKIP < MAX_STEP
      modifies this
      ensures Valid() && chain == AfterGet(old(chain), targetStep)
      ensures mk == KeyFor(old(chain), targetStep)
      ensures mk.None? ==> unchanged(this)
    {
      CacheHolds(chain.seed, chain.next, chain.spent, targetStep);
      CacheSpends(chain.seed, chain.next, chain.spent, targetStep);
      if targetStep in skippedKeys {
        mk := Some(skippedKeys[targetStep]);
        skippedKeys := skippedKeys - {targetStep};
        chain := Spend(chain, targetStep);
        return;
      }
      if targetStep < step {
        return None;
      }
      if targetStep - step > MAX_SKIP {
        return None;
      }
      var k := CatchUp(targetStep);
      mk := Some(k);
    }
  }
}
