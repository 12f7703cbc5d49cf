/**
  EPOCH rotates: every member seals under the seed of its latest epoch, and once all who are left
  have had one, nothing that is sealed any more can be read by whoever was removed before.
 */
module Rotation {
  import opened Prelude
  import opened Ratchets
  import opened ChatProtocol
  import opened GroupRuns
  import opened Secrecy

  // Read off the steps ---------------------------------------------------------------------------

  /** The step gives the connection a new seed of its own. */
  predicate Rotates(s: Step, id: nat) {
    (s.Join? || s.Epoch?) && s.id == id
  }

  /** The seed of the latest join or epoch of a connection that has not left since. */
  function LatestSeed(steps: seq<Step>, id: nat): Option<Key>
    decreases |steps|
  {
    if steps == [] then None
    else
      var s := steps[|steps| - 1];
      if Rotates(s, id) then Some(s.seed)
      else if s.Leave? && s.id == id then None
      else LatestSeed(steps[..|steps| - 1], id)
  }

  /** How many epochs a connection has had since it joined. */
  function EpochsSinceJoin(steps: seq<Step>, id: nat): nat
    decreases |steps|
  {
    if steps == [] then 0
    else
      var s := steps[|steps| - 1];
      if s.Join? && s.id == id then 0
      else EpochsSinceJoin(steps[..|steps| - 1], id) + if s.Epoch? && s.id == id then 1 else 0
  }

  const EPOCHS: nat := 0x1_0000_0000_0000_0000

  /** The 64-bit epoch number after n epochs; the first one is 1. */
  predicate EpochNumber(e: nat, n: nat) { e == (1 + n) % EPOCHS }

  lemma NextEpochNumber(e: nat, n: nat)
    requires EpochNumber(e, n)
    ensures EpochNumber((e + 1) % EPOCHS, n + 1)
  {
  }

  lemma LatestSeedSnoc(steps: seq<Step>, s: Step, id: nat)
    ensures LatestSeed(steps + [s], id) ==
      if Rotates(s, id) then Some(s.seed) else if s.Leave? && s.id == id then None else LatestSeed(steps, id)
    ensures EpochsSinceJoin(steps + [s], id) ==
      if s.Join? && s.id == id then 0 else EpochsSinceJoin(steps, id) + if s.Epoch? && s.id == id then 1 else 0
  {
    assert (steps + [s])[..|steps|] == steps;
  }

  /** What a step does to the membership, the own seed and the epoch number of one connection. */
  lemma OwnSeedAfter(w: World, s: Step, id: nat)
    requires Enabled(w, s)
    ensures var nodes := Apply(w, s).nodes;
      && (id in nodes <==> Rotates(s, id) || (id in w.nodes && !(s.Leave? && s.id == id)))
      && (Rotates(s, id) ==> nodes[id].member.mine == NewChain(s.seed))
      && (id in nodes && !Rotates(s, id) ==> nodes[id].member.mine.seed == w.nodes[id].member.mine.seed)
  {
  }

  lemma EpochAfter(w: World, s: Step, id: nat)
    requires Enabled(w, s) && id in Apply(w, s).nodes
    ensures var e := Apply(w, s).nodes[id].member.epoch;
      if s.Join? && s.id == id then e == 1
      else id in w.nodes && e == if s.Epoch? && s.id == id then (w.nodes[id].member.epoch + 1) % EPOCHS
                                 else w.nodes[id].member.epoch
  {
  }

  /** In every run, whoever is connected seals under the seed of its latest join or epoch. */
  lemma {:induction false} OwnSeedIsLatest(steps: seq<Step>, w: World, id: nat)
    requires IsRun(steps, w)
    ensures id in w.nodes <==> LatestSeed(steps, id).Some?
    ensures id in w.nodes ==> w.nodes[id].member.mine.seed == LatestSeed(steps, id).value
    decreases |steps|
  {
    if steps != [] {
      var rest, s := steps[..|steps| - 1], steps[|steps| - 1];
      assert steps == rest + [s];
      var v := LastStep(rest, s, w);
      OwnSeedIsLatest(rest, v, id);
      OwnSeedAfter(v, s, id);
      LatestSeedSnoc(rest, s, id);
    }
  }

  lemma EpochStep(steps: seq<Step>, v: World, s: Step, id: nat)
    requires Enabled(v, s) && id in Apply(v, s).nodes
    requires id in v.nodes ==> EpochNumber(v.nodes[id].member.epoch, EpochsSinceJoin(steps, id))
    ensures EpochNumber(Apply(v, s).nodes[id].member.epoch, EpochsSinceJoin(steps + [s], id))
  {
    EpochAfter(v, s, id);
    LatestSeedSnoc(steps, s, id);
    if id in v.nodes {
      NextEpochNumber(v.nodes[id].member.epoch, EpochsSinceJoin(steps, id));
    }
  }

  /** And its epoch number counts its epochs since it joined. */
  lemma {:induction false} EpochCountsEpochs(steps: seq<Step>, w: World, id: nat)
    requires IsRun(steps, w) && id in w.nodes
    ensures EpochNumber(w.nodes[id].member.epoch, EpochsSinceJoin(steps, id))
    decreases |steps|
  {
    if steps != [] {
      var rest, s := steps[..|steps| - 1], steps[|steps| - 1];
      assert steps == rest + [s];
      var v := LastStep(rest, s, w);
      if id in v.nodes {
        EpochCountsEpochs(rest, v, id);
      }
      EpochStep(rest, v, s, id);
    }
  }

  /** Every step the chain has passed was used to seal a text. */
  ghost predicate AllUsed(log: seq<Record>, nick: string, c: Chain) {
    forall k: nat | k < c.next :: UsedAt(log, nick, c.seed, k)
  }

  ghost predicate UsedAt(log: seq<Record>, nick: string, seed: Key, k: nat) {
    exists r <- log :: r.sender == nick && r.seed == seed && r.step == k
  }

  lemma StepKeepsUsed(v: World, s: Step, id: nat)
    requires Enabled(v, s) && id in Apply(v, s).nodes
    requires id in v.nodes ==> AllUsed(v.log, v.nodes[id].member.nick, v.nodes[id].member.mine)
    ensures var w := Apply(v, s); AllUsed(w.log, w.nodes[id].member.nick, w.nodes[id].member.mine)
  {
    var w := Apply(v, s);
    var m := w.nodes[id].member;
    forall k: nat | k < m.mine.next ensures UsedAt(w.log, m.nick, m.mine.seed, k) {
      if UsedAt(v.log, m.nick, m.mine.seed, k) {
        var r :| r in v.log && r.sender == m.nick && r.seed == m.mine.seed && r.step == k;
        assert r in w.log;
      } else {
        assert w.log[|v.log|] in w.log;
      }
    }
  }

  /** In every run, no member ever skips a step of its own chain: with `NoKeyReuse`, each is used exactly once. */
  lemma {:induction false} NoStepSkipped(steps: seq<Step>, w: World, id: nat)
    requires IsRun(steps, w) && id in w.nodes
    ensures AllUsed(w.log, w.nodes[id].member.nick, w.nodes[id].member.mine)
    decreases |steps|
  {
    if steps != [] {
      var rest, s := steps[..|steps| - 1], steps[|steps| - 1];
      assert steps == rest + [s];
      var v := LastStep(rest, s, w);
      if id in v.nodes {
        NoStepSkipped(rest, v, id);
      }
      StepKeepsUsed(v, s, id);
    }
  }

  // After a removal --------------------------------------------------------------------------------

  /** Everybody seals under a seed made since v. */
  ghost predicate AllRotated(v: World, w: World) {
    forall i <- w.nodes :: w.nodes[i].member.mine.seed !in v.owner
  }

  lemma {:induction false} OwnersStay(before: seq<Step>, later: seq<Step>, v: World, w: World)
    requires IsRun(before, v) && IsRun(before + later, w)
    ensures v.owner.Keys <= w.owner.Keys && v.log <= w.log
    decreases |later|
  {
    if later == [] {
      assert before + later == before;
      RunsUnique(before, v, w);
    } else {
      var rest, s := later[..|later| - 1], later[|later| - 1];
      assert before + later == (before + rest) + [s];
      var u := LastStep(before + rest, s, w);
      OwnersStay(before, rest, v, u);
    }
  }

  predicate HasRotated(steps: seq<Step>, id: nat)
    decreases |steps|
  {
    steps != [] && (Rotates(steps[|steps| - 1], id) || HasRotated(steps[..|steps| - 1], id))
  }

  lemma {:induction false} RotatedIsNew(before: seq<Step>, later: seq<Step>, v: World, w: World, id: nat)
    requires IsRun(before, v) && IsRun(before + later, w)
    requires id in w.nodes && HasRotated(later, id)
    ensures w.nodes[id].member.mine.seed !in v.owner
    decreases |later|
  {
    var rest, s := later[..|later| - 1], later[|later| - 1];
    assert before + later == (before + rest) + [s];
    var u := LastStep(before + rest, s, w);
    OwnSeedAfter(u, s, id);
    if Rotates(s, id) {
      OwnersStay(before, rest, v, u);
    } else {
      RotatedIsNew(before, rest, v, u, id);
    }
  }

  lemma Suffixes(a: seq<Record>, b: seq<Record>, c: seq<Record>)
    requires a <= b <= c
    ensures forall r <- c[|a|..] :: r in b[|a|..] || r in c[|b|..]
  {
    assert c[|a|..] == b[|a|..] + c[|b|..];
  }

  /** Once all seal under new seeds, they go on doing so, and all that is sealed from then on is under one. */
  lemma {:induction false} NewSeedsFromThen(steps: seq<Step>, later: seq<Step>, v: World, u: World, w: World)
    requires IsRun(steps, u) && IsRun(steps + later, w)
    requires AllRotated(v, u) && v.owner.Keys <= u.owner.Keys
    ensures AllRotated(v, w) && u.log <= w.log
    ensures forall r <- w.log[|u.log|..] :: r.seed !in v.owner
    decreases |later|
  {
    if later == [] {
      assert steps + later == steps;
      RunsUnique(steps, u, w);
    } else {
      var rest, s := later[..|later| - 1], later[|later| - 1];
      assert steps + later == (steps + rest) + [s];
      var x := LastStep(steps + rest, s, w);
      NewSeedsFromThen(steps, rest, v, u, x);
      OwnersStay(steps, rest, u, x);
      StepKeepsNewSeeds(v, x, s);
      Suffixes(u.log, x.log, w.log);
    }
  }

  lemma StepKeepsNewSeeds(v: World, w: World, s: Step)
    requires Enabled(w, s) && AllRotated(v, w) && v.owner.Keys <= w.owner.Keys
    ensures AllRotated(v, Apply(w, s)) && w.log <= Apply(w, s).log
    ensures forall r <- Apply(w, s).log[|w.log|..] :: r.seed !in v.owner
  {
  }

  lemma SealedUnderNewSeeds(before: seq<Step>, rotating: seq<Step>, later: seq<Step>, v: World, u: World, w: World, k: nat)
    requires IsRun(before, v) && IsRun(before + rotating, u) && IsRun(before + rotating + later, w)
    requires forall i <- u.nodes :: HasRotated(rotating, i)
    requires |u.log| <= k < |w.log|
    ensures w.log[k].seed !in v.owner
  {
    OwnersStay(before, rotating, v, u);
    forall i <- u.nodes ensures u.nodes[i].member.mine.seed !in v.owner {
      RotatedIsNew(before, rotating, v, u, i);
    }
    NewSeedsFromThen(before + rotating, later, v, u, w);
    assert w.log[|u.log|..][k - |u.log|] == w.log[k];
  }

  lemma ThreeParts(a: seq<Step>, b: seq<Step>, c: seq<Step>)
    ensures a + b + c == a + (b + c)
  {
  }

  /**
    Rotation locks a removed client out: it is gone, then everyone left has an epoch or joins anew, and
    of all that is sealed from then on, for as long as it does not join again, it can compute no key
    from all the seeds it ever had.
   */
  lemma RotationLocksOut(before: seq<Step>, rotating: seq<Step>, later: seq<Step>, v: World, u: World, w: World,
                         id: nat, k: nat)
    requires IsRun(before, v) && id !in v.nodes
    requires IsRun(before + rotating, u) && forall i <- u.nodes :: HasRotated(rotating, i)
    requires IsRun(before + rotating + later, w)
    requires forall s <- rotating + later :: !(s.Join? && s.id == id)
    requires |u.log| <= k < |w.log|
    ensures w.log[k].ct.Sealed?
    ensures !Derivable(w.log[k].ct.key, Heard(before + rotating + later, id))
  {
    SealedUnderNewSeeds(before, rotating, later, v, u, w, k);
    ThreeParts(before, rotating, later);
    RemovedReadsOnlyOldSeeds(before, rotating + later, v, w, id, w.log[k]);
  }
}
