/** What holds in every state the hub can reach. */
module HubRuns {
  import opened Prelude
  import opened Hub

  // Name ownership ---------------------------------------------------------------------------------

  ghost predicate Injective(whitelist: map<string, string>) {
    forall k, l | k in whitelist && l in whitelist && whitelist[k] == whitelist[l] :: k == l
  }

  /**
    Nicks belong to keys: no two keys are whitelisted for one nick, connections under one nick
    have one key, and no connection carries a nick whitelisted to another key.
   */
  ghost predicate NamesOwned(h: State) {
    && Injective(h.acl.whitelist)
    && (forall a, b | a in h.conns && b in h.conns && h.conns[a].nick == h.conns[b].nick :: h.conns[a].key == h.conns[b].key)
    && (forall a, k | a in h.conns && k in h.acl.whitelist && h.acl.whitelist[k] == h.conns[a].nick :: k == h.conns[a].key)
    && Injective(Loaded(h.stored).whitelist)
  }

  /** The nick is nobody else's, neither on the whitelist nor among the connected. */
  ghost predicate Fits(h: State, nick: string, key: string) {
    && (forall a <- h.conns | h.conns[a].nick == nick :: h.conns[a].key == key)
    && (forall k <- h.acl.whitelist | h.acl.whitelist[k] == nick :: k == key)
  }

  lemma JoinKeepsNames(h: State, addr: string, c: Conn)
    requires NamesOwned(h) && Fits(h, c.nick, c.key)
    ensures NamesOwned(h.(conns := h.conns[addr := c]))
    ensures Fits(h.(conns := h.conns[addr := c]), c.nick, c.key)
  {
  }

  lemma ListingKeepsNames(h: State, key: string, nick: string)
    requires NamesOwned(h) && Fits(h, nick, key)
    ensures NamesOwned(h.(acl := h.acl.(whitelist := h.acl.whitelist[key := nick])))
  {
  }

  lemma SavingKeepsNames(h: State, key: string, nick: string, newToken: string)
    requires NamesOwned(h)
    ensures NamesOwned(Save(h)) && NamesOwned(RememberAdmin(h, key, nick)) && NamesOwned(BumpEpoch(h, newToken))
  {
  }

  /** The name a newcomer ends up with fits, even when it is not the name it asked for. */
  lemma NewcomerFits(h: State, nick: string, identity: string, key: string)
    requires NamesOwned(h)
    requires !OwnedByOther(h.acl.whitelist, nick, key) && !InUse(h.conns, nick)
    ensures Fits(h, Newcomer(h, nick, identity, key).nick, key)
  {
  }

  lemma JoinAsAdminKeepsNames(h: State, addr: string, c: Conn, newToken: string)
    requires NamesOwned(h) && Fits(h, c.nick, c.key)
    ensures NamesOwned(JoinAsAdmin(h, addr, c, newToken))
  {
    var promoted := h.(conns := h.conns[addr := c.(isAdmin := true)]);
    JoinKeepsNames(h, addr, c.(isAdmin := true));
    SavingKeepsNames(promoted, c.key, c.nick, newToken);
    SavingKeepsNames(RememberAdmin(promoted, c.key, c.nick), c.key, c.nick, newToken);
  }

  lemma JoinAsMemberKeepsNames(h: State, addr: string, c: Conn, newToken: string)
    requires NamesOwned(h) && Fits(h, c.nick, c.key)
    ensures NamesOwned(JoinAsMember(h, addr, c, newToken))
  {
    var joined := h.(conns := h.conns[addr := c]);
    JoinKeepsNames(h, addr, c);
    ListingKeepsNames(joined, c.key, c.nick);
    var listed := joined.(acl := h.acl.(whitelist := h.acl.whitelist[c.key := c.nick]));
    SavingKeepsNames(listed, c.key, c.nick, newToken);
    SavingKeepsNames(Save(listed), c.key, c.nick, newToken);
  }

  lemma AdmitKeepsNames(h: State, addr: string, nick: string, identity: string, key: string, newToken: string)
    requires NamesOwned(h)
    ensures NamesOwned(Admit(h, addr, nick, identity, key, newToken))
  {
    var reply, c := AdmitReply(h, nick, identity, key), Newcomer(h, nick, identity, key);
    if reply.Waiting? || reply.Approved? {
      NewcomerFits(h, nick, identity, key);
      JoinKeepsNames(h, addr, c);
      JoinAsAdminKeepsNames(h, addr, c, newToken);
      JoinAsMemberKeepsNames(h, addr, c, newToken);
    }
  }

  lemma ApproveKeepsNames(h: State, addr: string, newToken: string)
    requires NamesOwned(h) && addr in h.conns
    ensures NamesOwned(Approve(h, addr, newToken))
  {
    var c := ApprovedConn(h, addr);
    var joined := h.(conns := h.conns[addr := c]);
    JoinKeepsNames(h, addr, c);
    ListingKeepsNames(joined, c.key, c.nick);
  }

  lemma BlockKeepsNames(h: State, addr: string)
    requires NamesOwned(h) && addr in h.conns
    ensures NamesOwned(Block(h, addr))
  {
  }

  lemma GrantKeepsNames(h: State, addr: string)
    requires NamesOwned(h) && addr in h.conns
    ensures NamesOwned(OperatorOp(h, addr)) && NamesOwned(Op(h, addr))
  {
    JoinKeepsNames(h, addr, h.conns[addr].(isAdmin := true));
  }

  lemma StepKeepsNames(h: State, e: Event)
    requires NamesOwned(h)
    ensures NamesOwned(Apply(h, e))
  {
    match e
    case Admission(addr, nick, identity, key, newToken) => AdmitKeepsNames(h, addr, nick, identity, key, newToken);
    case Approval(actor, addr, newToken) =>
      if addr in h.conns { ApproveKeepsNames(h, addr, newToken); }
    case Blocking(_, addr) =>
      if addr in h.conns { BlockKeepsNames(h, addr); }
    case Removal(_, _, _) =>
    case Grant(_, addr) =>
      if addr in h.conns { GrantKeepsNames(h, addr); }
    case TokenRotation(_) =>
    case AutoApproval(_) =>
    case Restarting(_) =>
  }

  /** Name ownership, in every run from a stored whitelist that gives each nick to one key. */
  lemma {:induction false} NamesAlwaysOwned(stored: Option<Acl>, autoApprove: bool, events: seq<Event>)
    requires Injective(Loaded(stored).whitelist)
    ensures NamesOwned(Run(Start(stored, autoApprove), events))
    decreases |events|
  {
    if events != [] {
      NamesAlwaysOwned(stored, autoApprove, events[..|events| - 1]);
      StepKeepsNames(Run(Start(stored, autoApprove), events[..|events| - 1]), events[|events| - 1]);
    }
  }

  // The vault token ---------------------------------------------------------------------------------

  /** The file holds the token that is in memory. */
  predicate TokenSaved(h: State) {
    h.acl.token == if h.stored.Some? then h.stored.value.token else ""
  }

  lemma TokenKept(h: State, e: Event)
    requires h.acl.token != "" && (TokenSaved(h) || !e.Restarting?)
    ensures Apply(h, e).acl.token == h.acl.token
    ensures TokenSaved(h) ==> TokenSaved(Apply(h, e))
  {
  }

  /** Once there is a vault token it never changes, not over restarts either if it was saved. */
  lemma {:induction false} TokenStable(h: State, events: seq<Event>)
    requires h.acl.token != ""
    requires TokenSaved(h) || forall e <- events :: !e.Restarting?
    ensures Run(h, events).acl.token == h.acl.token
    ensures TokenSaved(h) ==> TokenSaved(Run(h, events))
    decreases |events|
  {
    if events != [] {
      TokenStable(h, events[..|events| - 1]);
      assert events[|events| - 1] in events;
      TokenKept(Run(h, events[..|events| - 1]), events[|events| - 1]);
    }
  }

  /** With its file server up, the hub has a token that is in the file, whatever happens then. */
  lemma TokenOfNormalStartIsSaved(stored: Option<Acl>, autoApprove: bool, token: string, events: seq<Event>)
    requires token != ""
    ensures var h := RotateVaultToken(Start(stored, autoApprove), token);
      h.acl.token != "" && TokenSaved(Run(h, events)) && Run(h, events).acl.token == h.acl.token
  {
    TokenStable(RotateVaultToken(Start(stored, autoApprove), token), events);
  }

  /** The event brings a connection in as a member. */
  predicate LetsIn(h: State, e: Event) {
    match e
    case Admission(_, nick, identity, key, _) => AdmitReply(h, nick, identity, key).Approved?
    case Approval(actor, addr, _) => MayCommand(h, actor) && addr in h.conns
    case _ => false
  }

  /** The event makes the hub's token and leaves it unsaved: an admission saves before, a leave not at all. */
  predicate MakesTokenUnsaved(h: State, e: Event) {
    h.acl.token == "" &&
    match e
    case Admission(_, _, _, _, newToken) => LetsIn(h, e) && newToken != ""
    case Removal(_, wasWhitelisted, newToken) => wasWhitelisted && newToken != ""
    case _ => false
  }

  /** The event brings memory and file together: it writes the one or reads the other. */
  predicate Settles(h: State, e: Event) {
    match e
    case Admission(_, _, _, _, _) => LetsIn(h, e)
    case Approval(_, _, _) => LetsIn(h, e)
    case Blocking(actor, addr) => MayCommand(h, actor) && addr in h.conns
    case Grant(actor, addr) => actor.Some? && MayCommand(h, actor) && addr in h.conns
    case TokenRotation(_) => h.acl.token == ""
    case Restarting(_) => true
    case _ => false
  }

  /** The file never holds a token other than the hub's. */
  predicate TokenOnceMade(h: State) {
    (h.stored.Some? ==> h.stored.value.token == "") || TokenSaved(h)
  }

  lemma TokenSavedAfterAdmission(h: State, e: Event)
    requires TokenOnceMade(h) && e.Admission?
    ensures TokenOnceMade(Apply(h, e))
    ensures TokenSaved(Apply(h, e)) <==> !MakesTokenUnsaved(h, e) && (TokenSaved(h) || Settles(h, e))
  {
  }

  lemma TokenSavedAfter(h: State, e: Event)
    requires TokenOnceMade(h)
    ensures TokenOnceMade(Apply(h, e))
    ensures TokenSaved(Apply(h, e)) <==> !MakesTokenUnsaved(h, e) && (TokenSaved(h) || Settles(h, e))
  {
    if e.Admission? {
      TokenSavedAfterAdmission(h, e);
    }
  }

  /** Memory and file came together at event j - 1, or were together at the start, and no token was made unsaved from there on. */
  ghost predicate SettledAt(h: State, events: seq<Event>, j: nat)
    requires j <= |events|
  {
    && (if j == 0 then TokenSaved(h) else Settles(Run(h, events[..j - 1]), events[j - 1]))
    && forall k | j - 1 <= k < |events| && 0 <= k :: !MakesTokenUnsaved(Run(h, events[..k]), events[k])
  }

  lemma SettledAtSnoc(h: State, events: seq<Event>, e: Event, j: nat)
    requires j <= |events|
    ensures SettledAt(h, events + [e], j) <==> SettledAt(h, events, j) && !MakesTokenUnsaved(Run(h, events), e)
  {
    var later := events + [e];
    assert later[..|events|] == events && later[|events|] == e;
    assert forall k | 0 <= k < |events| :: later[..k] == events[..k] && later[k] == events[k];
  }

  lemma {:induction false} TokenSavedExactlyWhen(h: State, events: seq<Event>)
    requires TokenOnceMade(h)
    ensures TokenOnceMade(Run(h, events))
    ensures TokenSaved(Run(h, events)) <==> exists j :: 0 <= j <= |events| && SettledAt(h, events, j)
    decreases |events|
  {
    if events == [] {
      assert TokenSaved(h) <==> SettledAt(h, events, 0);
    } else {
      var before, e := events[..|events| - 1], events[|events| - 1];
      var v := Run(h, before);
      assert events == before + [e];
      TokenSavedExactlyWhen(h, before);
      TokenSavedAfter(v, e);
      forall j | 0 <= j <= |before|
        ensures SettledAt(h, events, j) <==> SettledAt(h, before, j) && !MakesTokenUnsaved(v, e)
      {
        SettledAtSnoc(h, before, e, j);
      }
      assert SettledAt(h, events, |events|) <==> Settles(v, e) && !MakesTokenUnsaved(v, e);
    }
  }

  /**
    A restart keeps the vault token, exactly: if and only if no token was made unsaved, by an
    admission or a leave, since memory and file last came together.
   */
  lemma RestartKeepsToken(stored: Option<Acl>, autoApprove: bool, events: seq<Event>, again: bool)
    ensures var start := Start(stored, autoApprove);
      var h := Run(start, events);
      Restart(h, again).acl.token == h.acl.token <==> exists j :: 0 <= j <= |events| && SettledAt(start, events, j)
  {
    TokenSavedExactlyWhen(Start(stored, autoApprove), events);
  }

  /** The first newcomer of a hub without lists that approves automatically. */
  lemma FirstAdmission(h: State, addr: string, nick: string, identity: string, key: string, newToken: string)
    requires h.conns == map[] && h.autoApprove && h.acl == EMPTY_ACL.(token := h.acl.token)
    ensures var g := Admit(h, addr, nick, identity, key, newToken);
      var listed := h.acl.(admins := map[key := nick]);
      g.stored == Some(listed) && g.acl == listed.(token := if h.acl.token == "" then newToken else h.acl.token)
  {
    CountIsOne(h.conns[addr := Newcomer(h, nick, identity, key)], addr);
  }

  /** A hub whose file server is not up, or not yet: the first member's admission makes a token that a restart loses. */
  lemma FirstTokenIsLost(addr: string, nick: string, identity: string, key: string, token: string)
    requires token != ""
    ensures var h := Run(Start(None, true), [Admission(addr, nick, identity, key, token)]);
      h.acl.token == token && !TokenSaved(h) && Restart(h, true).acl.token == ""
  {
    var e := Admission(addr, nick, identity, key, token);
    assert [e][..0] == [];
    FirstAdmission(Start(None, true), addr, nick, identity, key, token);
  }

  /** The event approves a connection of that identity. */
  predicate Concerns(h: State, e: Event, identity: string) {
    e.Approval? && e.addr in h.conns && h.conns[e.addr].identity == identity
  }

  ghost predicate IsBanned(h: State, identity: string) {
    identity in h.acl.blacklist && h.stored.Some? && identity in h.stored.value.blacklist
  }

  lemma BanSurvivesAdmission(h: State, identity: string, e: Event)
    requires IsBanned(h, identity) && e.Admission?
    ensures IsBanned(Apply(h, e), identity)
  {
  }

  lemma BanSurvivesApproval(h: State, identity: string, e: Event)
    requires IsBanned(h, identity) && e.Approval? && !Concerns(h, e, identity)
    ensures IsBanned(Apply(h, e), identity)
  {
  }

  lemma BanSurvives(h: State, identity: string, e: Event)
    requires IsBanned(h, identity) && !Concerns(h, e, identity)
    ensures IsBanned(Apply(h, e), identity)
  {
    if e.Admission? {
      BanSurvivesAdmission(h, identity, e);
    } else if e.Approval? {
      BanSurvivesApproval(h, identity, e);
    }
  }

  /**
    A ban sticks, over restarts too: until someone of that identity is approved again, nobody of that
    identity is let in or even put on the waiting list.
   */
  lemma {:induction false} BanSticks(h: State, identity: string, events: seq<Event>)
    requires IsBanned(h, identity)
    requires forall i | 0 <= i < |events| && events[i].Approval? :: !Concerns(Run(h, events[..i]), events[i], identity)
    ensures var h' := Run(h, events);
      && IsBanned(h', identity)
      && forall nick, key {:trigger AdmitReply(h', nick, identity, key)} ::
           AdmitReply(h', nick, identity, key).Banned? || AdmitReply(h', nick, identity, key).NameOwned?
    decreases |events|
  {
    if events != [] {
      var before, e := events[..|events| - 1], events[|events| - 1];
      forall i | 0 <= i < |before| && before[i].Approval? ensures !Concerns(Run(h, before[..i]), before[i], identity) {
        assert before[..i] == events[..i] && before[i] == events[i];
      }
      BanSticks(h, identity, before);
      BanSurvives(Run(h, before), identity, e);
    }
  }

  // Admission and the whitelist -----------------------------------------------------------------------

  /** Nobody else is whitelisted and connected. */
  predicate NoOtherMember(h: State, addr: string) {
    forall a <- h.conns | a != addr :: h.conns[a].status != Whitelisted
  }

  /**
    An approved newcomer's key is on the whitelist afterwards unless it was not before and the
    newcomer is a stored admin or finds no other member: then it is remembered as admin only.
   */
  lemma ApprovalListsKey(h: State, addr: string, nick: string, identity: string, key: string, newToken: string)
    requires AdmitReply(h, nick, identity, key).Approved?
    ensures var h' := Admit(h, addr, nick, identity, key, newToken);
      && h'.conns[addr].status == Whitelisted && h'.conns[addr].key == key
      && (key in h'.acl.whitelist <==> key in h.acl.whitelist || !(key in h.acl.admins || NoOtherMember(h, addr)))
      && (key in h'.acl.admins <==> key in h.acl.admins || NoOtherMember(h, addr))
  {
    var c := Newcomer(h, nick, identity, key);
    CountIsOne(h.conns[addr := c], addr);
    assert OnlyWhitelisted(h.conns[addr := c], addr) <==> NoOtherMember(h, addr) by {
      assert forall a <- h.conns | a != addr :: h.conns[addr := c][a] == h.conns[a];
    }
  }

  lemma JoiningSavesLists(h: State, addr: string, c: Conn, newToken: string)
    ensures forall g | g in {JoinAsAdmin(h, addr, c, newToken), JoinAsMember(h, addr, c, newToken)} ::
      && g.stored.Some? && g.stored.value.whitelist == g.acl.whitelist && g.stored.value.blacklist == h.acl.blacklist
      && addr in g.conns && g.conns[addr].key == c.key
  {
  }

  lemma ApprovalSavesLists(h: State, addr: string, nick: string, identity: string, key: string, newToken: string)
    requires AdmitReply(h, nick, identity, key).Approved?
    ensures var h' := Admit(h, addr, nick, identity, key, newToken);
      && h'.stored.Some? && addr in h'.conns && h'.conns[addr].key == key
      && h'.stored.value.whitelist == h'.acl.whitelist && h'.stored.value.blacklist == h.acl.blacklist
  {
    JoiningSavesLists(h, addr, Newcomer(h, nick, identity, key), newToken);
  }

  lemma ReplyAfterRestart(h: State, addr: string, identity: string, autoApprove: bool)
    requires NamesOwned(h) && addr in h.conns
    requires Loaded(h.stored).whitelist == h.acl.whitelist && identity !in Loaded(h.stored).blacklist
    ensures var reply := AdmitReply(Restart(h, autoApprove), h.conns[addr].nick, identity, h.conns[addr].key);
      reply.Approved? <==> autoApprove || h.conns[addr].key in h.acl.whitelist
  {
  }

  /**
    Coming back after a restart, exactly: an approved newcomer is let in again at once if and only if
    the hub then approves automatically, or its key was whitelisted before, or it was no stored admin
    and found another member.
   */
  lemma ReturnsAfterRestart(h: State, addr: string, nick: string, identity: string, key: string, newToken: string,
                            autoApprove: bool)
    requires NamesOwned(h) && AdmitReply(h, nick, identity, key).Approved?
    ensures var h' := Admit(h, addr, nick, identity, key, newToken);
      var reply := AdmitReply(Restart(h', autoApprove), h'.conns[addr].nick, identity, key);
      reply.Approved? <==> autoApprove || key in h.acl.whitelist || !(key in h.acl.admins || NoOtherMember(h, addr))
  {
    ApprovalListsKey(h, addr, nick, identity, key, newToken);
    ApprovalSavesLists(h, addr, nick, identity, key, newToken);
    AdmitKeepsNames(h, addr, nick, identity, key, newToken);
    ReplyAfterRestart(Admit(h, addr, nick, identity, key, newToken), addr, identity, autoApprove);
  }

  /** So the first member of a new hub, its admin, has to wait after a restart without automatic approval. */
  lemma FirstAdminHasToWait(addr: string, nick: string, identity: string, key: string, token: string, newToken: string)
    ensures var events := [TokenRotation(token), Admission(addr, nick, identity, key, newToken)];
      var h := Restart(Run(Start(None, true), events), false);
      key in h.acl.admins && AdmitReply(h, nick, identity, key) == Waiting
  {
    var start, e := Start(None, true), Admission(addr, nick, identity, key, newToken);
    var events := [TokenRotation(token), e];
    assert events[..1] == [TokenRotation(token)] && events[..1][..0] == [];
    assert Run(start, events[..1]) == RotateVaultToken(start, token);
    FirstAdmission(RotateVaultToken(start, token), addr, nick, identity, key, newToken);
  }

  // Where admins come from --------------------------------------------------------------------------

  ghost predicate OnlyWhitelisted(conns: map<string, Conn>, addr: string) {
    && addr in conns && conns[addr].status == Whitelisted
    && forall a <- conns | conns[a].status == Whitelisted :: a == addr
  }

  lemma CountIsOne(conns: map<string, Conn>, addr: string)
    requires addr in conns && conns[addr].status == Whitelisted
    ensures |WhitelistedIn(conns)| == 1 <==> OnlyWhitelisted(conns, addr)
  {
    var w := WhitelistedIn(conns);
    assert addr in w;
    if |w| == 1 {
      forall a <- conns | conns[a].status == Whitelisted ensures a == addr {
        assert a in w;
        assert |w - {addr}| == 0;
        assert a !in w - {addr};
      }
    }
    if OnlyWhitelisted(conns, addr) {
      assert w == {addr};
    }
  }

  /** Being an admin does not matter to being the only member. */
  lemma OnlyWhitelistedEitherWay(conns: map<string, Conn>, addr: string, c: Conn, d: Conn)
    requires c.status == d.status
    ensures OnlyWhitelisted(conns[addr := c], addr) <==> OnlyWhitelisted(conns[addr := d], addr)
  {
    var x, y := conns[addr := c], conns[addr := d];
    assert forall a :: a in x <==> a in y;
    assert forall a <- x :: x[a].status == y[a].status;
  }

  /** Why a key is an admin's: a chain of grants back to a root. `at` is the event in question. */
  datatype Reason =
    | StoredAtStart(key: string)
    | SoleMember(key: string, at: nat)
    | OperatorGrant(key: string, at: nat)
    | GrantedBy(key: string, at: nat, granter: Reason)

  ghost predicate Justifies(start: State, events: seq<Event>, r: Reason)
    decreases r
  {
    match r
    case StoredAtStart(key) => key in start.acl.admins
    case SoleMember(key, at) =>
      at < |events| && LetsIn(Run(start, events[..at]), events[at]) &&
      var h := Run(start, events[..at + 1]);
      OnlyWhitelisted(h.conns, events[at].addr) && h.conns[events[at].addr].key == key
    case OperatorGrant(key, at) =>
      at < |events| && events[at].Grant? && events[at].actor.None? &&
      var h := Run(start, events[..at]);
      events[at].addr in h.conns && h.conns[events[at].addr].key == key
    case GrantedBy(key, at, granter) =>
      at < |events| && events[at].Grant? && events[at].actor.Some? &&
      var h, actor := Run(start, events[..at]), events[at].actor;
      && events[at].addr in h.conns && h.conns[events[at].addr].key == key
      && MayCommand(h, actor) && h.conns[actor.value].key == granter.key
      && Justifies(start, events[..at], granter)
  }

  ghost predicate Justified(start: State, events: seq<Event>, key: string) {
    exists r :: Justifies(start, events, r) && r.key == key
  }

  /** All keys that count as admin: of admin connections, in memory, in the file. */
  function AdminKeys(h: State): set<string> {
    (set a | a in h.conns && h.conns[a].isAdmin :: h.conns[a].key) + h.acl.admins.Keys + Loaded(h.stored).admins.Keys
  }

  ghost predicate AdminsJustified(start: State, events: seq<Event>) {
    forall k <- AdminKeys(Run(start, events)) :: Justified(start, events, k)
  }

  /** The key an event may add to the admins. */
  function NewAdmin(h: State, e: Event): set<string> {
    match e
    case Admission(addr, nick, identity, key, newToken) =>
      if AdmitReply(h, nick, identity, key).Approved? && Admit(h, addr, nick, identity, key, newToken).conns[addr].isAdmin
      then {key} else {}
    case Approval(actor, addr, _) =>
      if MayCommand(h, actor) && addr in h.conns && ApprovedConn(h, addr).isAdmin then {h.conns[addr].key} else {}
    case Grant(actor, addr) =>
      if MayCommand(h, actor) && addr in h.conns then {h.conns[addr].key} else {}
    case _ => {}
  }

  /** A connection that takes an address brings at most its own key. */
  lemma ConnAddsAdmin(h: State, addr: string, c: Conn)
    ensures AdminKeys(h.(conns := h.conns[addr := c])) <= AdminKeys(h) + if c.isAdmin then {c.key} else {}
  {
  }

  lemma JoinAddsAdmin(h: State, addr: string, c: Conn, newToken: string)
    ensures AdminKeys(JoinAsAdmin(h, addr, c, newToken)) <= AdminKeys(h) + {c.key}
    ensures AdminKeys(JoinAsMember(h, addr, c, newToken)) <= AdminKeys(h) + if c.isAdmin then {c.key} else {}
  {
    ConnAddsAdmin(h, addr, c);
    ConnAddsAdmin(h, addr, c.(isAdmin := true));
  }

  lemma AdmitAddsAdmin(h: State, addr: string, nick: string, identity: string, key: string, newToken: string)
    ensures AdminKeys(Admit(h, addr, nick, identity, key, newToken))
         <= AdminKeys(h) + NewAdmin(h, Admission(addr, nick, identity, key, newToken))
  {
    var c := Newcomer(h, nick, identity, key);
    ConnAddsAdmin(h, addr, c);
    JoinAddsAdmin(h, addr, c, newToken);
  }

  lemma ApproveAddsAdmin(h: State, addr: string, newToken: string)
    requires addr in h.conns
    ensures AdminKeys(Approve(h, addr, newToken)) <= AdminKeys(h) + if ApprovedConn(h, addr).isAdmin then {h.conns[addr].key} else {}
  {
  }

  lemma EventAddsAdmin(h: State, e: Event)
    ensures AdminKeys(Apply(h, e)) <= AdminKeys(h) + NewAdmin(h, e)
  {
    match e
    case Admission(addr, nick, identity, key, newToken) => AdmitAddsAdmin(h, addr, nick, identity, key, newToken);
    case Approval(actor, addr, newToken) =>
      if addr in h.conns { ApproveAddsAdmin(h, addr, newToken); }
    case Blocking(_, _) =>
    case Removal(_, _, _) =>
    case Grant(_, _) =>
    case TokenRotation(_) =>
    case AutoApproval(_) =>
    case Restarting(_) =>
  }

  lemma {:induction false} JustifiesLater(start: State, events: seq<Event>, e: Event, r: Reason)
    requires Justifies(start, events, r)
    ensures Justifies(start, events + [e], r)
    decreases r
  {
    if !r.StoredAtStart? {
      var later := events + [e];
      assert later[..r.at] == events[..r.at] && later[..r.at + 1] == events[..r.at + 1] && later[r.at] == events[r.at];
    }
  }

  lemma JustifiedLater(start: State, events: seq<Event>, e: Event, key: string)
    requires Justified(start, events, key)
    ensures Justified(start, events + [e], key)
  {
    var r :| Justifies(start, events, r) && r.key == key;
    JustifiesLater(start, events, e, r);
  }

  lemma RunSnoc(h: State, events: seq<Event>, e: Event)
    ensures Run(h, events + [e]) == Apply(Run(h, events), e)
    ensures (events + [e])[..|events|] == events && (events + [e])[..|events| + 1] == events + [e]
  {
    assert (events + [e])[..|events|] == events;
  }

  /** The step that makes a sole member admin. */
  lemma SoleMemberJustified(start: State, events: seq<Event>, at: nat, key: string)
    requires at < |events| && LetsIn(Run(start, events[..at]), events[at])
    requires var conns := Run(start, events[..at + 1]).conns;
      OnlyWhitelisted(conns, events[at].addr) && conns[events[at].addr].key == key
    ensures Justified(start, events, key)
  {
    assert Justifies(start, events, SoleMember(key, at));
  }

  lemma NewSoleMemberJustified(start: State, events: seq<Event>, e: Event, h: State, key: string)
    requires h == Run(start, events) && LetsIn(h, e)
    requires OnlyWhitelisted(Apply(h, e).conns, e.addr) && Apply(h, e).conns[e.addr].key == key
    ensures Justified(start, events + [e], key)
  {
    RunSnoc(start, events, e);
    assert (events + [e])[|events|] == e;
    SoleMemberJustified(start, events + [e], |events|, key);
  }

  lemma GrantJustified(start: State, events: seq<Event>, e: Event)
    requires AdminsJustified(start, events) && e.Grant?
    requires var h := Run(start, events); MayCommand(h, e.actor) && e.addr in h.conns
    ensures Justified(start, events + [e], Run(start, events).conns[e.addr].key)
  {
    var later, h := events + [e], Run(start, events);
    assert later[..|events|] == events && later[|events|] == e;
    var key := h.conns[e.addr].key;
    if e.actor.None? {
      assert Justifies(start, later, OperatorGrant(key, |events|));
    } else {
      assert h.conns[e.actor.value].key in AdminKeys(h);
      var g :| Justifies(start, events, g) && g.key == h.conns[e.actor.value].key;
      assert Justifies(start, later, GrantedBy(key, |events|, g));
    }
  }

  lemma AdmittedAdminIsSole(h: State, e: Event)
    requires e.Admission? && LetsIn(h, e) && Apply(h, e).conns[e.addr].isAdmin && e.key !in h.acl.admins
    ensures OnlyWhitelisted(Apply(h, e).conns, e.addr)
  {
    var c := Newcomer(h, e.nick, e.identity, e.key);
    CountIsOne(h.conns[e.addr := c], e.addr);
    OnlyWhitelistedEitherWay(h.conns, e.addr, c, c.(isAdmin := true));
  }

  lemma ApprovedAdminIsSole(h: State, e: Event)
    requires e.Approval? && LetsIn(h, e) && Apply(h, e).conns[e.addr].isAdmin
    requires !h.conns[e.addr].isAdmin && h.conns[e.addr].key !in h.acl.admins
    ensures OnlyWhitelisted(Apply(h, e).conns, e.addr)
  {
    var c := h.conns[e.addr].(status := Whitelisted);
    CountIsOne(h.conns[e.addr := c], e.addr);
    OnlyWhitelistedEitherWay(h.conns, e.addr, c, ApprovedConn(h, e.addr));
  }

  /** Whoever is let in as an admin was one before or is the only member. */
  lemma NewAdminIsSole(h: State, e: Event)
    requires LetsIn(h, e) && NewAdmin(h, e) != {}
    ensures e.addr in Apply(h, e).conns && NewAdmin(h, e) == {Apply(h, e).conns[e.addr].key}
    ensures NewAdmin(h, e) <= AdminKeys(h) || OnlyWhitelisted(Apply(h, e).conns, e.addr)
  {
    if e.Admission? {
      if e.key !in h.acl.admins { AdmittedAdminIsSole(h, e); }
    } else {
      var c := h.conns[e.addr];
      if !c.isAdmin && c.key !in h.acl.admins { ApprovedAdminIsSole(h, e); }
    }
  }

  lemma LetInJustified(start: State, events: seq<Event>, e: Event, key: string)
    requires AdminsJustified(start, events) && LetsIn(Run(start, events), e) && key in NewAdmin(Run(start, events), e)
    ensures Justified(start, events + [e], key)
  {
    var h := Run(start, events);
    if key in AdminKeys(h) {
      JustifiedLater(start, events, e, key);
    } else {
      NewAdminIsSole(h, e);
      NewSoleMemberJustified(start, events, e, h, key);
    }
  }

  lemma StepKeepsJustified(start: State, events: seq<Event>, e: Event)
    requires AdminsJustified(start, events)
    ensures AdminsJustified(start, events + [e])
  {
    var later, h := events + [e], Run(start, events);
    assert later[..|later| - 1] == events && Run(start, later) == Apply(h, e);
    EventAddsAdmin(h, e);
    forall k <- AdminKeys(h) ensures Justified(start, later, k) {
      JustifiedLater(start, events, e, k);
    }
    forall k <- NewAdmin(h, e) ensures Justified(start, later, k) {
      match e
      case Admission(_, _, _, _, _) => LetInJustified(start, events, e, k);
      case Approval(_, _, _) => LetInJustified(start, events, e, k);
      case Grant(_, _) => GrantJustified(start, events, e);
    }
  }

  /**
    Admin provenance: in every run, every admin connection and every admin key, in memory or in the
    file, goes back by a finite chain of grants by admins to a key stored at the start, a member
    that was the only whitelisted one when it was let in, or a grant at the hub's own console.
   */
  lemma {:induction false} AdminsAlwaysJustified(stored: Option<Acl>, autoApprove: bool, events: seq<Event>)
    ensures AdminsJustified(Start(stored, autoApprove), events)
    decreases |events|
  {
    var start := Start(stored, autoApprove);
    if events == [] {
      forall k <- AdminKeys(start) ensures Justified(start, events, k) {
        assert Justifies(start, events, StoredAtStart(k));
      }
    } else {
      var before, e := events[..|events| - 1], events[|events| - 1];
      AdminsAlwaysJustified(stored, autoApprove, before);
      StepKeepsJustified(start, before, e);
      assert events == before + [e];
    }
  }
}
