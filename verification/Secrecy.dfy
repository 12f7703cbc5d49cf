/**
  Who can read what in a group's run: exactly those who have the sender's seed, so whoever is
  removed reads nothing that is sealed under a seed made afterwards.
 */
module Secrecy {
  import opened Prelude
  import opened Ratchets
  import opened ChatProtocol
  import opened GroupRuns

  /** The keys one can compute from these: any chain of derivations, whatever the label. */
  ghost predicate Derivable(k: Key, known: set<Key>)
    decreases k
  {
    k in known || (k.Hmac? && Derivable(k.key, known))
  }

  lemma {:induction false} ChainKeyDerivable(seed: Key, n: nat, known: set<Key>)
    requires seed.Raw? && forall k <- known :: k.Raw?
    ensures Derivable(ChainKey(seed, n), known) <==> seed in known
  {
    if n > 0 {
      ChainKeyDerivable(seed, n - 1, known);
    }
  }

  lemma MessageKeyDerivable(seed: Key, n: nat, known: set<Key>)
    requires seed.Raw? && forall k <- known :: k.Raw?
    ensures Derivable(MessageKey(seed, n), known) <==> seed in known
  {
    ChainKeyDerivable(seed, n, known);
  }

  /** The seed a step gives to a connection: its own new one, or a peer's. */
  function SeedFor(s: Step, id: nat): set<Key> {
    match s
    case Join(i, _, seed) => if i == id then {seed} else {}
    case Epoch(i, seed) => if i == id then {seed} else {}
    case DeliverSeed(i, _, seed) => if i == id then {seed} else {}
    case _ => {}
  }

  /** All seeds a connection has had, even if it kept every one of them. */
  function Heard(steps: seq<Step>, id: nat): set<Key>
    decreases |steps|
  {
    if steps == [] then {} else Heard(steps[..|steps| - 1], id) + SeedFor(steps[|steps| - 1], id)
  }

  lemma StepKnowsItsSeed(w: World, s: Step, id: nat)
    requires Inv(w) && Enabled(w, s)
    ensures SeedFor(s, id) <= Apply(w, s).owner.Keys
    ensures w.owner.Keys <= Apply(w, s).owner.Keys
  {
    if s.DeliverSeed? {
      assert PacketOk(w.owner, w.log, SeedPacket(s.sender, s.seed));
    }
  }

  lemma {:induction false} HeardIsOwned(steps: seq<Step>, w: World, id: nat)
    requires IsRun(steps, w)
    ensures Heard(steps, id) <= w.owner.Keys
    decreases |steps|
  {
    if steps != [] {
      var last := |steps| - 1;
      var v :| IsRun(steps[..last], v) && Enabled(v, steps[last]) && w == Apply(v, steps[last]);
      HeardIsOwned(steps[..last], v, id);
      RunsKeepInv(steps[..last], v);
      StepKnowsItsSeed(v, steps[last], id);
    }
  }

  /** In every run, a sealed text's key can be computed by exactly those who have had its seed. */
  lemma ReadersAreHearers(steps: seq<Step>, w: World, id: nat, r: Record)
    requires IsRun(steps, w) && r in w.log
    ensures r.ct.Sealed?
    ensures Derivable(r.ct.key, Heard(steps, id)) <==> r.seed in Heard(steps, id)
  {
    RunsKeepInv(steps, w);
    HeardIsOwned(steps, w, id);
    assert RecordOk(w.owner, r);
    MessageKeyDerivable(r.seed, r.step, Heard(steps, id));
  }

  lemma {:induction false} RunsUnique(steps: seq<Step>, v: World, w: World)
    requires IsRun(steps, v) && IsRun(steps, w)
    ensures v == w
    decreases |steps|
  {
    if steps != [] {
      var last := |steps| - 1;
      var v' :| IsRun(steps[..last], v') && Enabled(v', steps[last]) && v == Apply(v', steps[last]);
      var w' :| IsRun(steps[..last], w') && Enabled(w', steps[last]) && w == Apply(w', steps[last]);
      RunsUnique(steps[..last], v', w');
    }
  }

  lemma AbsentStaysAbsent(w: World, s: Step, id: nat)
    requires id !in w.nodes && Enabled(w, s) && !(s.Join? && s.id == id)
    ensures id !in Apply(w, s).nodes && SeedFor(s, id) == {}
  {
  }

  lemma LastStep(steps: seq<Step>, s: Step, w: World) returns (v: World)
    requires IsRun(steps + [s], w)
    ensures IsRun(steps, v) && Enabled(v, s) && w == Apply(v, s)
  {
    var all := steps + [s];
    assert all[..|all| - 1] == steps && all[|all| - 1] == s;
    v :| IsRun(all[..|all| - 1], v) && Enabled(v, s) && w == Apply(v, s);
  }

  lemma HeardSnoc(steps: seq<Step>, s: Step, id: nat)
    ensures Heard(steps + [s], id) == Heard(steps, id) + SeedFor(s, id)
  {
    assert (steps + [s])[..|steps|] == steps;
  }

  /** Whoever is gone and does not join again hears of no further seed. */
  lemma {:induction false} AbsentHearsNothing(before: seq<Step>, later: seq<Step>, v: World, w: World, id: nat)
    requires IsRun(before, v) && id !in v.nodes && IsRun(before + later, w)
    requires forall s <- later :: !(s.Join? && s.id == id)
    ensures id !in w.nodes && Heard(before + later, id) == Heard(before, id)
    decreases |later|
  {
    if later == [] {
      assert before + later == before;
      RunsUnique(before, v, w);
    } else {
      var s, rest := later[|later| - 1], later[..|later| - 1];
      assert before + later == (before + rest) + [s];
      assert s in later && forall t <- rest :: t in later;
      var u := LastStep(before + rest, s, w);
      AbsentHearsNothing(before, rest, v, u, id);
      AbsentStaysAbsent(u, s, id);
      HeardSnoc(before + rest, s, id);
    }
  }

  /**
    A removed client and new traffic, exactly: what is sealed in any run that goes on without it has
    a key it can compute if and only if it had the seed before it was gone. So once the others have
    rotated, sealing under seeds made since, it reads nothing.
   */
  lemma RemovedReadsOnlyOldSeeds(before: seq<Step>, later: seq<Step>, v: World, w: World, id: nat, r: Record)
    requires IsRun(before, v) && id !in v.nodes && IsRun(before + later, w)
    requires forall s <- later :: !(s.Join? && s.id == id)
    requires r in w.log
    ensures r.ct.Sealed?
    ensures Derivable(r.ct.key, Heard(before + later, id)) <==> r.seed in Heard(before, id)
    ensures r.seed !in v.owner ==> !Derivable(r.ct.key, Heard(before + later, id))
  {
    AbsentHearsNothing(before, later, v, w, id);
    HeardIsOwned(before, v, id);
    ReadersAreHearers(before + later, w, id, r);
  }
}
