/** The client's trust-on-first-use pins (internal/client/identity_store.go). */
module IdentityPins {
  import opened Prelude

  /** Pinned keys, and for nicks in dispute the differing key last seen. */
  datatype Pins = Pins(pinned: map<string, string>, mismatch: map<string, string>)

  datatype Event = Check(nick: string, key: string) | Trust(nick: string, key: string)

  /** The key a trust command would pin: the one given, else the one in dispute; "" means none. */
  function TrustedKey(p: Pins, nick: string, key: string): string {
    if key != "" then key else if nick in p.mismatch then p.mismatch[nick] else ""
  }

  predicate Effective(p: Pins, e: Event) {
    e.Trust? && TrustedKey(p, e.nick, e.key) != ""
  }

  function After(p: Pins, e: Event): Pins {
    match e
    case Check(n, k) =>
      if n !in p.pinned then p.(pinned := p.pinned[n := k])
      else if p.pinned[n] != k then p.(mismatch := p.mismatch[n := k])
      else p.(mismatch := p.mismatch - {n})
    case Trust(n, k) =>
      if Effective(p, e) then Pins(p.pinned[n := TrustedKey(p, n, k)], p.mismatch - {n}) else p
  }

  function Run(p: Pins, h: seq<Event>): Pins
    decreases |h|
  {
    if h == [] then p else After(Run(p, h[..|h| - 1]), h[|h| - 1])
  }

  // Read off the history ------------------------------------------------------------------------

  function FirstCheck(h: seq<Event>, nick: string): Option<string>
    decreases |h|
  {
    if h == [] then None
    else
      var first, last := FirstCheck(h[..|h| - 1], nick), h[|h| - 1];
      if first.None? && last.Check? && last.nick == nick then Some(last.key) else first
  }

  /** The key a trust command settles on: the one it gives, else the one in dispute before it; "" means none. */
  function Settled(file: map<string, string>, before: seq<Event>, e: Event): string
    requires e.Trust?
    decreases |before|, 4
  {
    if e.key != "" then e.key
    else match Dispute(file, before, e.nick)
      case Some(k) => k
      case None => ""
  }

  /** The key of the latest trust command of that nick that settled on one. */
  function LatestTrust(file: map<string, string>, h: seq<Event>, nick: string): Option<string>
    decreases |h|, 1
  {
    if h == [] then None
    else
      var last, before := h[|h| - 1], h[..|h| - 1];
      if last.Trust? && last.nick == nick && Settled(file, before, last) != "" then Some(Settled(file, before, last))
      else LatestTrust(file, before, nick)
  }

  /** The key of the latest check of that nick after all trust commands that settled on one. */
  function LatestCheck(file: map<string, string>, h: seq<Event>, nick: string): Option<string>
    decreases |h|, 1
  {
    if h == [] then None
    else
      var last, before := h[|h| - 1], h[..|h| - 1];
      if last.nick != nick then LatestCheck(file, before, nick)
      else if last.Check? then Some(last.key)
      else if Settled(file, before, last) != "" then None
      else LatestCheck(file, before, nick)
  }

  /** The key that ought to be pinned: the one last settled on, else the file's, else the first one seen. */
  function Pin(file: map<string, string>, h: seq<Event>, nick: string): Option<string>
    decreases |h|, 2
  {
    var settled := LatestTrust(file, h, nick);
    if settled.Some? then settled else if nick in file then Some(file[nick]) else FirstCheck(h, nick)
  }

  /** The key in dispute: the one last seen, where it is not the one that ought to be pinned. */
  function Dispute(file: map<string, string>, h: seq<Event>, nick: string): Option<string>
    decreases |h|, 3
  {
    var seen := LatestCheck(file, h, nick);
    if seen.Some? && seen != Pin(file, h, nick) then seen else None
  }

  function Get(m: map<string, string>, nick: string): Option<string> {
    if nick in m then Some(m[nick]) else None
  }

  /**
    For every history, what is pinned for a nick is the key of its latest effective trust, else the
    file's, else its first check's; and what is in dispute is the key of its latest check since,
    where that differs. Both sides of each equation are independent: the right ones look at the
    history alone.
   */
  lemma {:induction false} PinsAreOfHistory(file: map<string, string>, h: seq<Event>, nick: string)
    ensures Get(Run(Pins(file, map[]), h).pinned, nick) == Pin(file, h, nick)
    ensures Get(Run(Pins(file, map[]), h).mismatch, nick) == Dispute(file, h, nick)
    ensures LatestCheck(file, h, nick).Some? ==> Pin(file, h, nick).Some?
    decreases |h|
  {
    if h != [] {
      var last, before := h[|h| - 1], h[..|h| - 1];
      PinsAreOfHistory(file, before, nick);
      if last.nick == nick {
        if last.Trust? {
          assert Settled(file, before, last) == TrustedKey(Run(Pins(file, map[]), before), nick, last.key);
        } else {
          assert LatestTrust(file, h, nick) == LatestTrust(file, before, nick);
        }
      }
    }
  }

  /** Sending is blocked exactly when some nick is in dispute. */
  lemma BlockedIffDisputed(file: map<string, string>, h: seq<Event>)
    ensures Run(Pins(file, map[]), h).mismatch != map[] <==> exists nick :: Dispute(file, h, nick).Some?
  {
    var p := Run(Pins(file, map[]), h);
    forall nick ensures nick in p.mismatch <==> Dispute(file, h, nick).Some? {
      PinsAreOfHistory(file, h, nick);
    }
    if p.mismatch != map[] {
      var nick :| nick in p.mismatch;
      assert Dispute(file, h, nick).Some?;
    } else {
      assert forall nick :: nick !in p.mismatch;
    }
  }

  /** Trusting the key in dispute settles it: the key is pinned, and seeing it again is no dispute. */
  lemma TrustSettles(file: map<string, string>, h: seq<Event>, nick: string, key: string)
    requires Dispute(file, h, nick) == Some(key) && key != ""
    ensures var p := Run(Pins(file, map[]), h + [Trust(nick, ""), Check(nick, key)]);
      Get(p.pinned, nick) == Some(key) && nick !in p.mismatch
  {
    var p := Pins(file, map[]);
    var trusted := h + [Trust(nick, "")];
    var seen := h + [Trust(nick, ""), Check(nick, key)];
    PinsAreOfHistory(file, h, nick);
    assert trusted[..|h|] == h && Run(p, trusted) == After(Run(p, h), Trust(nick, ""));
    assert seen[..|h| + 1] == trusted && Run(p, seen) == After(Run(p, trusted), Check(nick, key));
  }

  /** Over any history a pin never disappears, and it keeps its key unless that nick is effectively trusted on the way. */
  lemma {:induction false} PinsChangeOnlyByTrust(p: Pins, h: seq<Event>, nick: string)
    requires nick in p.pinned
    ensures nick in Run(p, h).pinned
    ensures Run(p, h).pinned[nick] != p.pinned[nick] ==>
      exists i | 0 <= i < |h| :: h[i].nick == nick && Effective(Run(p, h[..i]), h[i])
    decreases |h|
  {
    if h != [] {
      var before := h[..|h| - 1];
      PinsChangeOnlyByTrust(p, before, nick);
      if Run(p, before).pinned[nick] != p.pinned[nick] {
        var i :| 0 <= i < |before| && before[i].nick == nick && Effective(Run(p, before[..i]), before[i]);
        assert h[..i] == before[..i] && h[i] == before[i];
      } else {
        assert h[..|h| - 1] == before;
      }
    }
  }

  // The pin file ---------------------------------------------------------------------------------

  /** The file is written when a pin is made or replaced, and only then. */
  function FileAfter(p: Pins, file: map<string, string>, e: Event): map<string, string> {
    if Effective(p, e) || (e.Check? && e.nick !in p.pinned) then After(p, e).pinned else file
  }

  function FileRun(file: map<string, string>, h: seq<Event>): map<string, string>
    decreases |h|
  {
    if h == [] then file
    else FileAfter(Run(Pins(file, map[]), h[..|h| - 1]), FileRun(file, h[..|h| - 1]), h[|h| - 1])
  }

  /** Closing and opening again, after any history, keeps every pin and forgets every dispute. */
  lemma {:induction false} ReopeningKeepsPins(file: map<string, string>, h: seq<Event>)
    ensures Pins(FileRun(file, h), map[]) == Run(Pins(file, map[]), h).(mismatch := map[])
    decreases |h|
  {
    if h != [] { ReopeningKeepsPins(file, h[..|h| - 1]); }
  }

  class IdentityStore {
    var identities: map<string, string>
    var mismatch: map<string, string>
    var file: map<string, string>  // contents of the pin file

    ghost function View(): Pins
      reads this
    {
      Pins(identities, mismatch)
    }

    /** Loads the pins; disputes are not persisted. */
    constructor (file: map<string, string>)
      ensures View() == Pins(file, map[]) && this.file == file
    {
      identities := file;
      mismatch := map[];
      this.file := file;
    }

    method HasMismatch() returns (b: bool)
      ensures b <==> View().mismatch != map[]
    {
      b := |mismatch| > 0;
    }

    method Trust(nick: string, key: string)
      modifies this
      ensures View() == After(old(View()), Event.Trust(nick, key))
      ensures file == FileAfter(old(View()), old(file), Event.Trust(nick, key))
    {
      var pubKey := key;
      if pubKey == "" {
        pubKey := if nick in mismatch then mismatch[nick] else "";
      }
      if pubKey == "" {
        return;
      }
      identities := identities[nick := pubKey];
      mismatch := mismatch - {nick};
      file := identities;
    }

    method Check(nick: string, key: string) returns (isOK: bool, isNew: bool)
      modifies this
      ensures View() == After(old(View()), Event.Check(nick, key))
      ensures isNew <==> nick !in old(identities)
      ensures nick in identities && (isOK <==> identities[nick] == key)
      ensures file == FileAfter(old(View()), old(file), Event.Check(nick, key))
    {
      if nick !in identities {
        identities := identities[nick := key];
        file := identities;
        return true, true;
      }
      if identities[nick] != key {
        mismatch := mismatch[nick := key];
        return false, false;
      }
      mismatch := mismatch - {nick};
      return true, false;
    }
  }
}
