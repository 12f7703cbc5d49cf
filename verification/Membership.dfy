/** What the hub's commands achieve, over all that may happen afterwards, restarts included. */
module Membership {
  import opened Prelude
  import opened Hub
  import opened HubRuns

  // Blocking -----------------------------------------------------------------------------------------

  /** Some permitted command blocks a connection of that key. */
  predicate BlocksKey(h: State, e: Event, key: string) {
    e.Blocking? && MayCommand(h, e.actor) && e.addr in h.conns && h.conns[e.addr].key == key
  }

  /** A block bans the identity and strikes the key off both lists, in memory and in the file; nobody is disconnected yet. */
  lemma BlockBans(h: State, actor: Option<string>, addr: string)
    requires MayCommand(h, actor) && addr in h.conns
    ensures var c, h' := h.conns[addr], Apply(h, Blocking(actor, addr));
      && IsBanned(h', c.identity) && h'.conns == h.conns
      && c.key !in h'.acl.whitelist && c.key !in h'.acl.admins && h'.stored == Some(h'.acl)
      && (forall nick, key {:trigger AdmitReply(h', nick, c.identity, key)} ::
            AdmitReply(h', nick, c.identity, key) in {Banned(c.nick), NameOwned})
  {
  }

  /**
    Blocked until approved again: whatever happens after a block, restarts included, nobody of that
    identity gets in or on the waiting list as long as no connection of that identity is approved.
   */
  lemma BlockedStaysOut(h: State, actor: Option<string>, addr: string, later: seq<Event>, nick: string, key: string)
    requires MayCommand(h, actor) && addr in h.conns
    requires var blocked := Apply(h, Blocking(actor, addr));
      forall i | 0 <= i < |later| && later[i].Approval? ::
        !Concerns(Run(blocked, later[..i]), later[i], h.conns[addr].identity)
    ensures var h' := Run(Apply(h, Blocking(actor, addr)), later);
      var reply := AdmitReply(h', nick, h.conns[addr].identity, key);
      reply.Banned? || reply.NameOwned?
  {
    BlockBans(h, actor, addr);
    BanSticks(Apply(h, Blocking(actor, addr)), h.conns[addr].identity, later);
  }

  // Grants ---------------------------------------------------------------------------------------------

  /** The key is an admin's, in memory and in the file. */
  ghost predicate AdminKept(h: State, key: string) {
    key in h.acl.admins && h.stored.Some? && key in h.stored.value.admins
  }

  /** A grant makes the connection an admin; an admin's grant is also stored, the operator's is not. */
  lemma GrantMakesAdmin(h: State, actor: Option<string>, addr: string)
    requires MayCommand(h, actor) && addr in h.conns
    ensures var c, h' := h.conns[addr], Apply(h, Grant(actor, addr));
      && addr in h'.conns && h'.conns[addr] == c.(isAdmin := true)
      && (forall a <- h.conns | a != addr :: a in h'.conns && h'.conns[a] == h.conns[a])
      && (if actor.Some? then AdminKept(h', c.key) && h'.acl.whitelist == h.acl.whitelist
          else h'.acl == h.acl && h'.stored == h.stored)
  {
  }

  lemma AdminKeptByAdmission(h: State, e: Event, key: string)
    requires AdminKept(h, key) && e.Admission?
    ensures AdminKept(Apply(h, e), key)
  {
  }

  lemma AdminKeptByEvent(h: State, e: Event, key: string)
    requires AdminKept(h, key) && !BlocksKey(h, e, key)
    ensures AdminKept(Apply(h, e), key)
  {
    if e.Admission? { AdminKeptByAdmission(h, e, key); }
  }

  lemma {:induction false} AdminKeptByRun(h: State, events: seq<Event>, key: string)
    requires AdminKept(h, key)
    requires forall i | 0 <= i < |events| :: !BlocksKey(Run(h, events[..i]), events[i], key)
    ensures AdminKept(Run(h, events), key)
    decreases |events|
  {
    if events != [] {
      var before := events[..|events| - 1];
      forall i | 0 <= i < |before| ensures !BlocksKey(Run(h, before[..i]), before[i], key) {
        assert before[..i] == events[..i] && before[i] == events[i];
      }
      AdminKeptByRun(h, before, key);
      AdminKeptByEvent(Run(h, before), events[|events| - 1], key);
    }
  }

  lemma StoredAdminComesIn(h: State, addr: string, nick: string, identity: string, key: string, newToken: string)
    requires key in h.acl.admins && AdmitReply(h, nick, identity, key).Approved?
    ensures var h' := Admit(h, addr, nick, identity, key, newToken); addr in h'.conns && h'.conns[addr].isAdmin
  {
  }

  /**
    An admin's grant lasts: whatever happens afterwards, restarts included, as long as no connection of
    that key is blocked, the key stays an admin's, and it is an admin again whenever it is let in.
   */
  lemma GrantLasts(h: State, actor: string, addr: string, later: seq<Event>,
                   again: string, nick: string, identity: string, newToken: string)
    requires MayCommand(h, Some(actor)) && addr in h.conns
    requires var granted := Apply(h, Grant(Some(actor), addr));
      forall i | 0 <= i < |later| :: !BlocksKey(Run(granted, later[..i]), later[i], h.conns[addr].key)
    ensures var key, h' := h.conns[addr].key, Run(Apply(h, Grant(Some(actor), addr)), later);
      && AdminKept(h', key)
      && (AdmitReply(h', nick, identity, key).Approved? ==>
            var h2 := Admit(h', again, nick, identity, key, newToken); again in h2.conns && h2.conns[again].isAdmin)
  {
    var granted := Apply(h, Grant(Some(actor), addr));
    GrantMakesAdmin(h, Some(actor), addr);
    AdminKeptByRun(granted, later, h.conns[addr].key);
    var h' := Run(granted, later);
    if AdmitReply(h', nick, identity, h.conns[addr].key).Approved? {
      StoredAdminComesIn(h', again, nick, identity, h.conns[addr].key, newToken);
    }
  }

  // Approval -------------------------------------------------------------------------------------------

  /** The key is whitelisted, in memory and in the file. */
  ghost predicate ListedKept(h: State, key: string) {
    key in h.acl.whitelist && h.stored.Some? && key in h.stored.value.whitelist
  }

  /** An approval makes a member, lists its key for its nick, and lifts a ban of its identity, in memory and in the file. */
  lemma ApprovalLists(h: State, actor: Option<string>, addr: string, newToken: string)
    requires MayCommand(h, actor) && addr in h.conns
    ensures var c, h' := h.conns[addr], Apply(h, Approval(actor, addr, newToken));
      && addr in h'.conns && h'.conns[addr].status == Whitelisted
      && h'.conns[addr].(isAdmin := c.isAdmin) == c.(status := Whitelisted)
      && ListedKept(h', c.key) && h'.acl.whitelist[c.key] == c.nick && h'.stored == Some(h'.acl)
      && c.identity !in h'.acl.blacklist
  {
  }

  /** It makes an admin of whoever was one, is stored as one, or is then the only member; and stores that. */
  lemma ApprovalMakesAdmin(h: State, actor: Option<string>, addr: string, newToken: string)
    requires MayCommand(h, actor) && addr in h.conns
    ensures var c, h' := h.conns[addr], Apply(h, Approval(actor, addr, newToken));
      && (h'.conns[addr].isAdmin <==> c.isAdmin || c.key in h.acl.admins || NoOtherMember(h, addr))
      && (if h'.conns[addr].isAdmin then AdminKept(h', c.key) else h'.acl.admins == h.acl.admins)
  {
    var c := h.conns[addr].(status := Whitelisted);
    var conns := h.conns[addr := c];
    CountIsOne(conns, addr);
    assert forall a <- h.conns | a != addr :: conns[a] == h.conns[a];
  }

  /** Nobody but a connected, whitelisted admin commands: anyone else's commands change nothing and tell nobody. */
  lemma OnlyAdminsCommand(h: State, actor: string, addr: string, newToken: string)
    requires actor in h.conns ==> !h.conns[actor].isAdmin || h.conns[actor].status == Pending
    ensures forall e | e in {Approval(Some(actor), addr, newToken), Blocking(Some(actor), addr), Grant(Some(actor), addr)} ::
      Apply(h, e) == h && EpochSent(h, e) == None
  {
  }

  lemma ListedKeptByEvent(h: State, e: Event, key: string)
    requires ListedKept(h, key) && !BlocksKey(h, e, key)
    ensures ListedKept(Apply(h, e), key)
  {
    if e.Admission? { ListedKeptByAdmission(h, e, key); }
  }

  lemma ListedKeptByAdmission(h: State, e: Event, key: string)
    requires ListedKept(h, key) && e.Admission?
    ensures ListedKept(Apply(h, e), key)
  {
  }

  lemma {:induction false} ListedKeptByRun(h: State, events: seq<Event>, key: string)
    requires ListedKept(h, key)
    requires forall i | 0 <= i < |events| :: !BlocksKey(Run(h, events[..i]), events[i], key)
    ensures ListedKept(Run(h, events), key)
    decreases |events|
  {
    if events != [] {
      var before := events[..|events| - 1];
      forall i | 0 <= i < |before| ensures !BlocksKey(Run(h, before[..i]), before[i], key) {
        assert before[..i] == events[..i] && before[i] == events[i];
      }
      ListedKeptByRun(h, before, key);
      ListedKeptByEvent(Run(h, before), events[|events| - 1], key);
    }
  }

  /**
    An approval lasts: whatever happens afterwards, restarts included, as long as no connection of that
    key is blocked, the key is let in at once, unless the nick it asks for is another's or in use or
    the identity it comes with is banned.
   */
  lemma ApprovalLasts(h: State, actor: Option<string>, addr: string, newToken: string, later: seq<Event>,
                      nick: string, identity: string)
    requires MayCommand(h, actor) && addr in h.conns
    requires var approved := Apply(h, Approval(actor, addr, newToken));
      forall i | 0 <= i < |later| :: !BlocksKey(Run(approved, later[..i]), later[i], h.conns[addr].key)
    ensures var key, h' := h.conns[addr].key, Run(Apply(h, Approval(actor, addr, newToken)), later);
      var letIn := AdmitReply(h', nick, identity, key).Approved?;
      letIn <==> !OwnedByOther(h'.acl.whitelist, nick, key) && identity !in h'.acl.blacklist && !InUse(h'.conns, nick)
  {
    ApprovalLists(h, actor, addr, newToken);
    ListedKeptByRun(Apply(h, Approval(actor, addr, newToken)), later, h.conns[addr].key);
  }

  // Who is in ------------------------------------------------------------------------------------------

  /** How an admitted client is entered: under its listed nick if it has one, as a member and admin only as it may be. */
  lemma AdmittedAs(h: State, addr: string, nick: string, identity: string, key: string, newToken: string)
    requires AdmitReply(h, nick, identity, key) in {Waiting, Approved}
    ensures var reply, h' := AdmitReply(h, nick, identity, key), Admit(h, addr, nick, identity, key, newToken);
      addr in h'.conns && var c := h'.conns[addr];
      && c.nick == (if key in h.acl.whitelist then h.acl.whitelist[key] else nick)
      && c.identity == identity && c.key == key
      && (c.status == Whitelisted <==> reply.Approved?)
      && (c.isAdmin <==> reply.Approved? && (key in h.acl.admins || NoOtherMember(h, addr)))
      && (key in h.acl.whitelist ==> key in h'.acl.whitelist && h'.acl.whitelist[key] == h.acl.whitelist[key])
      && (forall a <- h.conns | a != addr :: a in h'.conns && h'.conns[a] == h.conns[a])
  {
    if AdmitReply(h, nick, identity, key).Approved? {
      ApprovalListsKey(h, addr, nick, identity, key, newToken);
      SoleNewcomer(h, addr, nick, identity, key);
    }
  }

  lemma SoleNewcomer(h: State, addr: string, nick: string, identity: string, key: string)
    requires AdmitReply(h, nick, identity, key).Approved?
    ensures |WhitelistedIn(h.conns[addr := Newcomer(h, nick, identity, key)])| == 1 <==> NoOtherMember(h, addr)
  {
    var conns := h.conns[addr := Newcomer(h, nick, identity, key)];
    CountIsOne(conns, addr);
    assert forall a <- h.conns | a != addr :: conns[a] == h.conns[a];
  }

  predicate MemberAt(h: State, addr: string) {
    addr in h.conns && h.conns[addr].status == Whitelisted
  }

  /** The event ends whatever membership there was at an address. */
  predicate Ends(h: State, e: Event, addr: string) {
    match e
    case Restarting(_) => true
    case Removal(a, _, _) => a == addr
    case Admission(a, nick, identity, key, _) => a == addr && AdmitReply(h, nick, identity, key).Waiting?
    case _ => false
  }

  lemma MemberAfterAdmission(h: State, e: Event, addr: string)
    requires e.Admission?
    ensures MemberAt(Apply(h, e), addr)
      <==> (LetsIn(h, e) && e.addr == addr) || (MemberAt(h, addr) && !Ends(h, e, addr))
  {
    var reply := AdmitReply(h, e.nick, e.identity, e.key);
    if reply in {Waiting, Approved} {
      AdmittedAs(h, e.addr, e.nick, e.identity, e.key, e.newToken);
    }
  }

  lemma MemberAfter(h: State, e: Event, addr: string)
    ensures MemberAt(Apply(h, e), addr)
      <==> (LetsIn(h, e) && e.addr == addr) || (MemberAt(h, addr) && !Ends(h, e, addr))
  {
    if e.Admission? {
      MemberAfterAdmission(h, e, addr);
    }
  }

  ghost predicate LetInAt(start: State, events: seq<Event>, addr: string, i: nat)
    requires i < |events|
  {
    && LetsIn(Run(start, events[..i]), events[i]) && events[i].addr == addr
    && forall j | i < j < |events| :: !Ends(Run(start, events[..j]), events[j], addr)
  }

  lemma LetInAtSnoc(start: State, events: seq<Event>, e: Event, addr: string, i: nat)
    requires i < |events|
    ensures LetInAt(start, events + [e], addr, i) <==> LetInAt(start, events, addr, i) && !Ends(Run(start, events), e, addr)
  {
    var later := events + [e];
    assert later[..|events|] == events && later[|events|] == e;
    assert forall j | 0 <= j < |events| :: later[..j] == events[..j] && later[j] == events[j];
  }

  /**
    Who is a member, exactly, in every run: a connection counts as whitelisted if and only if it was let
    in, by admission or approval, and since then neither it was removed, nor the hub restarted, nor its
    address taken by someone who has to wait.
   */
  lemma {:induction false} MembersExactly(stored: Option<Acl>, autoApprove: bool, events: seq<Event>, addr: string)
    ensures MemberAt(Run(Start(stored, autoApprove), events), addr)
      <==> exists i :: 0 <= i < |events| && LetInAt(Start(stored, autoApprove), events, addr, i)
    decreases |events|
  {
    var start := Start(stored, autoApprove);
    if events != [] {
      var before, e := events[..|events| - 1], events[|events| - 1];
      assert events == before + [e];
      MembersExactly(stored, autoApprove, before, addr);
      MemberAfter(Run(start, before), e, addr);
      forall i | 0 <= i < |before|
        ensures LetInAt(start, events, addr, i) <==> LetInAt(start, before, addr, i) && !Ends(Run(start, before), e, addr)
      {
        LetInAtSnoc(start, before, e, addr, i);
      }
      assert LetInAt(start, events, addr, |before|) <==> LetsIn(Run(start, before), e) && e.addr == addr;
    }
  }

  /** A removed connection is gone, every other stays, and its address is empty until someone is admitted there. */
  lemma {:induction false} RemovedStaysGone(h: State, addr: string, was: bool, newToken: string, later: seq<Event>)
    requires forall e <- later :: !(e.Admission? && e.addr == addr)
    ensures Apply(h, Removal(addr, was, newToken)).conns == h.conns - {addr}
    ensures addr !in Run(Apply(h, Removal(addr, was, newToken)), later).conns
    decreases |later|
  {
    if later != [] {
      var before, e := later[..|later| - 1], later[|later| - 1];
      assert e in later && forall x <- before :: x in later;
      RemovedStaysGone(h, addr, was, newToken, before);
      ElsewhereOnly(Run(Apply(h, Removal(addr, was, newToken)), before), e, addr);
    }
  }

  lemma ElsewhereOnly(h: State, e: Event, addr: string)
    requires addr !in h.conns && !(e.Admission? && e.addr == addr)
    ensures addr !in Apply(h, e).conns
  {
  }

  // Epochs ---------------------------------------------------------------------------------------------

  /** Changes of the membership that go unannounced: a restart, someone waiting who takes a member's address, a stale removal. */
  predicate Unannounced(h: State, e: Event) {
    match e
    case Restarting(_) => true
    case Removal(_, wasWhitelisted, _) => !wasWhitelisted
    case Admission(_, nick, identity, key, _) => AdmitReply(h, nick, identity, key).Waiting?
    case _ => false
  }

  /**
    Every change of the membership rotates: if an event changes who the members are, an EPOCH with the
    hub's vault token goes to exactly those who are members afterwards, unless the event is of one of
    three kinds.
   */
  lemma MembershipChangesRotate(h: State, e: Event)
    requires WhitelistedIn(Apply(h, e).conns) != WhitelistedIn(h.conns) && !Unannounced(h, e)
    ensures EpochSent(h, e).Some? && EpochSent(h, e).value.token == Apply(h, e).acl.token
    ensures forall a :: a in EpochSent(h, e).value.to <==> MemberAt(Apply(h, e), a)
  {
  }
}
