/** The hub's fixed-window limit on a connection's messages (allowMessage in internal/server/core.go). Times are in nanoseconds. */
module RateLimit {
  import opened Prelude

  const WINDOW: int := 1_000_000_000
  const LIMIT: nat := 20

  /** The window's start, none before the first message, and the messages counted in it. */
  datatype Window = Window(start: Option<int>, count: nat)

  const NEW := Window(None, 0)

  predicate Opens(w: Window, now: int) {
    w.start.None? || now - w.start.value > WINDOW
  }

  function After(w: Window, now: int): Window {
    if Opens(w, now) then Window(Some(now), 1) else w.(count := w.count + 1)
  }

  predicate Accepts(w: Window, now: int) {
    Opens(w, now) || w.count < LIMIT
  }

  class Limiter {
    var winStart: Option<int>
    var winCount: nat

    constructor ()
      ensures View() == NEW
    {
      winStart, winCount := None, 0;
    }

    ghost function View(): Window
      reads this
    {
      Window(winStart, winCount)
    }

    method AllowMessage(now: int) returns (ok: bool)
      modifies this
      ensures View() == After(old(View()), now)
      ensures ok == Accepts(old(View()), now)
    {
      if winStart.None? || now - winStart.value > WINDOW {
        winStart := Some(now);
        winCount := 1;
        return true;
      }
      winCount := winCount + 1;
      ok := winCount <= LIMIT;
    }
  }

  // Over a whole history of calls ------------------------------------------------------------------

  ghost predicate Ordered(times: seq<int>) {
    forall i, j | 0 <= i < j < |times| :: times[i] <= times[j]
  }

  function AfterAll(w: Window, times: seq<int>): Window
    decreases |times|
  {
    if times == [] then w else AfterAll(After(w, times[0]), times[1..])
  }

  /** How many calls at these times are accepted between lo and hi, both included. */
  function Accepted(w: Window, times: seq<int>, lo: int, hi: int): nat
    decreases |times|
  {
    if times == [] then 0
    else (if Accepts(w, times[0]) && lo <= times[0] <= hi then 1 else 0) + Accepted(After(w, times[0]), times[1..], lo, hi)
  }

  /** What the current window may still accept. */
  function Left(w: Window): nat {
    if w.start.Some? && w.count < LIMIT then LIMIT - w.count else 0
  }

  /** Within j window lengths of the start of the current window: what it has left and j - 1 full windows. */
  lemma {:induction false} AcceptedSinceStart(w: Window, times: seq<int>, lo: int, hi: int, j: nat)
    requires w.start.Some? && Ordered(times)
    requires j >= 1 && hi <= w.start.value + j * WINDOW
    ensures Accepted(w, times, lo, hi) <= Left(w) + LIMIT * (j - 1)
    decreases |times|
  {
    if times != [] {
      var w' := After(w, times[0]);
      if !Opens(w, times[0]) {
        AcceptedSinceStart(w', times[1..], lo, hi, j);
      } else if times[0] <= hi {
        AcceptedSinceStart(w', times[1..], lo, hi, j - 1);
      } else {
        NoneLater(w', times[1..], lo, hi);
      }
    }
  }

  lemma {:induction false} NoneLater(w: Window, times: seq<int>, lo: int, hi: int)
    requires forall i | 0 <= i < |times| :: times[i] > hi
    ensures Accepted(w, times, lo, hi) == 0
    decreases |times|
  {
    if times != [] { NoneLater(After(w, times[0]), times[1..], lo, hi); }
  }

  lemma {:induction false} AcceptedFrom(w: Window, times: seq<int>, lo: int, k: nat)
    requires Ordered(times) && k >= 1
    ensures w.start.None? || w.count > 0 ==> Accepted(w, times, lo, lo + k * WINDOW) < LIMIT + LIMIT * k
    ensures (forall i | 0 <= i < |times| :: times[i] >= lo) ==> Accepted(w, times, lo, lo + k * WINDOW) <= Left(w) + LIMIT * k
    decreases |times|
  {
    if times != [] {
      var w' := After(w, times[0]);
      AcceptedFrom(w', times[1..], lo, k);
      if times[0] >= lo {
        assert forall i | 0 <= i < |times| :: times[i] >= times[0];
        assert forall i | 0 <= i < |times[1..]| :: times[1..][i] == times[i + 1];
        if Opens(w, times[0]) {
          AcceptedSinceStart(w', times[1..], lo, lo + k * WINDOW, k);
        }
      }
    }
  }

  /** In any k >= 1 consecutive window lengths, a connection gets fewer than (k + 1) * 20 messages accepted. */
  lemma RateBound(times: seq<int>, from: int, k: nat)
    requires Ordered(times) && k >= 1
    ensures Accepted(NEW, times, from, from + k * WINDOW) < (k + 1) * LIMIT
  {
    AcceptedFrom(NEW, times, from, k);
  }

  /** n calls at time t. */
  function Burst(t: int, n: nat): (r: seq<int>)
    ensures |r| == n && forall i | 0 <= i < n :: r[i] == t
  {
    if n == 0 then [] else [t] + Burst(t, n - 1)
  }

  lemma {:induction false} BurstAccepted(w: Window, t: int, n: nat, later: seq<int>, lo: int, hi: int)
    requires !Opens(w, t) && w.count + n <= LIMIT && lo <= t <= hi
    ensures Accepted(w, Burst(t, n) + later, lo, hi) == n + Accepted(w.(count := w.count + n), later, lo, hi)
    decreases n
  {
    if n == 0 {
      assert Burst(t, n) + later == later;
    } else {
      var times := Burst(t, n) + later;
      assert times[0] == t && times[1..] == Burst(t, n - 1) + later;
      BurstAccepted(After(w, t), t, n - 1, later, lo, hi);
    }
  }

  /** LIMIT calls at a time that opens a new window are all accepted. */
  lemma FullWindow(w: Window, t: int, lo: int, hi: int)
    requires Opens(w, t) && lo <= t <= hi
    ensures Accepted(w, Burst(t, LIMIT), lo, hi) == LIMIT
  {
    assert Burst(t, LIMIT)[1..] == Burst(t, LIMIT - 1) + [];
    BurstAccepted(After(w, t), t, LIMIT - 1, [], lo, hi);
  }

  lemma TwoBursts(t: int, m: nat, u: int, n: nat)
    requires t <= u
    ensures Ordered(Burst(t, m) + Burst(u, n))
  {
  }

  /** The bound is reached: 39 messages within one window length, 19 of them at the very end of a window. */
  lemma BoundIsReached()
    ensures var times := [0] + (Burst(WINDOW, LIMIT - 1) + Burst(WINDOW + 1, LIMIT));
      Ordered(times) && Accepted(NEW, times, WINDOW, WINDOW + WINDOW) == 2 * LIMIT - 1
  {
    var hi, w := WINDOW + WINDOW, Window(Some(0), 1);
    TwoBursts(WINDOW, LIMIT - 1, WINDOW + 1, LIMIT);
    BurstAccepted(w, WINDOW, LIMIT - 1, Burst(WINDOW + 1, LIMIT), WINDOW, hi);
    FullWindow(w.(count := LIMIT), WINDOW + 1, WINDOW, hi);
    var times := [0] + (Burst(WINDOW, LIMIT - 1) + Burst(WINDOW + 1, LIMIT));
    assert times[1..] == Burst(WINDOW, LIMIT - 1) + Burst(WINDOW + 1, LIMIT);
  }

  ghost predicate From(times: seq<int>, from: int) {
    Ordered(times) && forall i | 0 <= i < |times| :: times[i] >= from
  }

  /** Every schedule from that time on gets at most LIMIT messages accepted within one window length. */
  ghost predicate KeepsLimit(w: Window, from: int) {
    forall times | From(times, from) :: Accepted(w, times, from, from + WINDOW) <= LIMIT
  }

  /** Whatever the window has left, used up at `from`, and a full window as soon as the next one can start. */
  function Worst(w: Window, from: int): seq<int>
    requires w.start.Some?
  {
    Burst(from, Left(w)) + Burst(w.start.value + WINDOW + 1, LIMIT)
  }

  lemma WorstAccepted(w: Window, from: int)
    requires w.start.Some? && w.start.value < from && !Opens(w, from) && Left(w) > 0
    ensures From(Worst(w, from), from)
    ensures Accepted(w, Worst(w, from), from, from + WINDOW) == Left(w) + LIMIT
  {
    var next, hi := w.start.value + WINDOW + 1, from + WINDOW;
    TwoBursts(from, Left(w), next, LIMIT);
    BurstAccepted(w, from, Left(w), Burst(next, LIMIT), from, hi);
    FullWindow(w.(count := LIMIT), next, from, hi);
  }

  lemma KeptWhenFresh(w: Window, times: seq<int>, from: int)
    requires From(times, from)
    requires Opens(w, from) || Left(w) == 0 || w.start.value >= from
    ensures Accepted(w, times, from, from + WINDOW) <= LIMIT
  {
    if w.start.Some? && w.start.value >= from {
      AcceptedSinceStart(w, times, from, from + WINDOW, 1);
    } else if times != [] {
      AcceptedFrom(w, times, from, 1);
      if Opens(w, from) {
        assert forall i | 0 <= i < |times[1..]| :: times[1..][i] == times[i + 1];
        AcceptedSinceStart(After(w, times[0]), times[1..], from, from + WINDOW, 1);
      }
    }
  }

  /**
    The documented limit, exactly: from a given time on at most 20 messages get through within one
    window length, whatever the schedule, if and only if the next message opens a new window, or the
    current one is used up, or it started no earlier.
   */
  lemma LimitKeptExactlyWhen(w: Window, from: int)
    ensures KeepsLimit(w, from) <==> Opens(w, from) || Left(w) == 0 || w.start.value >= from
  {
    if Opens(w, from) || Left(w) == 0 || w.start.value >= from {
      forall times | From(times, from) ensures Accepted(w, times, from, from + WINDOW) <= LIMIT {
        KeptWhenFresh(w, times, from);
      }
    } else {
      WorstAccepted(w, from);
    }
  }

  lemma {:induction false} Snoc(w: Window, times: seq<int>, t: int, lo: int, hi: int)
    ensures AfterAll(w, times + [t]) == After(AfterAll(w, times), t)
    ensures Accepted(w, times + [t], lo, hi) ==
      Accepted(w, times, lo, hi) + if Accepts(AfterAll(w, times), t) && lo <= t <= hi then 1 else 0
    decreases |times|
  {
    if times == [] {
      assert times + [t] == [t];
    } else {
      assert (times + [t])[0] == times[0] && (times + [t])[1..] == times[1..] + [t];
      Snoc(After(w, times[0]), times[1..], t, lo, hi);
    }
  }

  /** The current window's count, up to the limit, is the number of messages accepted since its start. */
  lemma {:induction false} CountedSinceStart(times: seq<int>, hi: int)
    requires times != [] && Ordered(times) && times[|times| - 1] <= hi
    ensures var w := AfterAll(NEW, times);
      && w.start.Some? && w.start.value <= times[|times| - 1]
      && Accepted(NEW, times, w.start.value, hi) >= if w.count < LIMIT then w.count else LIMIT
    decreases |times|
  {
    var before, t := times[..|times| - 1], times[|times| - 1];
    assert times == before + [t];
    var v := AfterAll(NEW, before);
    if before != [] {
      CountedSinceStart(before, hi);
      Snoc(NEW, before, t, v.start.value, hi);
    }
    Snoc(NEW, before, t, t, hi);
  }

  /** Every refusal comes after 20 acceptances within the last window length. */
  lemma RefusalJustified(times: seq<int>, now: int)
    requires Ordered(times + [now]) && !Accepts(AfterAll(NEW, times), now)
    ensures Accepted(NEW, times, now - WINDOW, now) >= LIMIT
  {
    var w := AfterAll(NEW, times);
    assert times != [];
    assert times[|times| - 1] == (times + [now])[|times| - 1] && now == (times + [now])[|times|];
    assert Ordered(times) by {
      forall i, j | 0 <= i < j < |times| ensures times[i] <= times[j] {
        assert (times + [now])[i] <= (times + [now])[j];
      }
    }
    CountedSinceStart(times, now);
    WiderCountsMore(NEW, times, w.start.value, now - WINDOW, now);
  }

  lemma {:induction false} WiderCountsMore(w: Window, times: seq<int>, lo: int, lo': int, hi: int)
    requires lo' <= lo
    ensures Accepted(w, times, lo, hi) <= Accepted(w, times, lo', hi)
    decreases |times|
  {
    if times != [] { WiderCountsMore(After(w, times[0]), times[1..], lo, lo', hi); }
  }
}
