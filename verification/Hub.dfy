/**
  The hub's membership and access control (internal/server/core.go, commands.go, persist.go), as
  functions on its value. Admission, from the look at the stored lists to the reply, is one step;
  so is every command. `HubServer` holds the objects.
 */
module Hub {
  import opened Prelude

  datatype Status = Pending | Whitelisted

  /** A connected client, as far as access control goes. */
  datatype Conn = Conn(nick: string, identity: string, key: string, status: Status, isAdmin: bool)

  /** Whitelist and admins go from signing key to nick, the blacklist from identity to nick. */
  datatype Acl = Acl(whitelist: map<string, string>, blacklist: map<string, string>, admins: map<string, string>,
                     token: string)

  const EMPTY_ACL := Acl(map[], map[], map[], "")

  /** `conns` is keyed by remote address; `stored` is the content of the ACL file. */
  datatype State = State(conns: map<string, Conn>, acl: Acl, stored: Option<Acl>, autoApprove: bool)

  function WhitelistedIn(conns: map<string, Conn>): set<string> {
    set a | a in conns && conns[a].status == Whitelisted
  }

  function Save(h: State): State {
    h.(stored := Some(h.acl))
  }

  function RememberAdmin(h: State, key: string, nick: string): State {
    Save(h.(acl := h.acl.(admins := h.acl.admins[key := nick])))
  }

  /** A bump makes a vault token only if there is none yet, and does not save it. */
  function BumpEpoch(h: State, newToken: string): State {
    if h.acl.token == "" then h.(acl := h.acl.(token := newToken)) else h
  }

  /** What an EPOCH tells, and whom. */
  datatype Epoch = Epoch(to: set<string>, token: string)

  /** The one that goes out in this state: to every member, with the vault token. */
  function EpochOf(h: State): Epoch {
    Epoch(WhitelistedIn(h.conns), h.acl.token)
  }

  function RotateVaultToken(h: State, newToken: string): State {
    if h.acl.token == "" then Save(h.(acl := h.acl.(token := newToken))) else h
  }

  // Admission ------------------------------------------------------------------------------------

  datatype Reply = NameOwned | Banned(nick: string) | NameTaken | Waiting | Approved

  predicate OwnedByOther(whitelist: map<string, string>, nick: string, key: string) {
    exists k <- whitelist :: whitelist[k] == nick && k != key
  }

  predicate InUse(conns: map<string, Conn>, nick: string) {
    exists a <- conns :: conns[a].nick == nick
  }

  function AdmitReply(h: State, nick: string, identity: string, key: string): Reply {
    if OwnedByOther(h.acl.whitelist, nick, key) then NameOwned
    else if identity in h.acl.blacklist then Banned(h.acl.blacklist[identity])
    else if InUse(h.conns, nick) then NameTaken
    else if key in h.acl.whitelist || h.autoApprove then Approved
    else Waiting
  }

  /** A whitelisted key comes in under the nick it is whitelisted for, whatever nick it asked for. */
  function Newcomer(h: State, nick: string, identity: string, key: string): Conn {
    var known := key in h.acl.whitelist;
    Conn(if known then h.acl.whitelist[key] else nick, identity, key,
         if known || h.autoApprove then Whitelisted else Pending, known && key in h.acl.admins)
  }

  /** The newcomer as an admin, remembered as one but not put on the whitelist. */
  function JoinAsAdmin(h: State, addr: string, c: Conn, newToken: string): State {
    BumpEpoch(RememberAdmin(h.(conns := h.conns[addr := c.(isAdmin := true)]), c.key, c.nick), newToken)
  }

  function JoinAsMember(h: State, addr: string, c: Conn, newToken: string): State {
    BumpEpoch(Save(h.(conns := h.conns[addr := c],
                      acl := h.acl.(whitelist := h.acl.whitelist[c.key := c.nick]))), newToken)
  }

  function Admit(h: State, addr: string, nick: string, identity: string, key: string, newToken: string): State {
    var c := Newcomer(h, nick, identity, key);
    match AdmitReply(h, nick, identity, key)
    case NameOwned => h
    case Banned(_) => h
    case NameTaken => h
    case Waiting => h.(conns := h.conns[addr := c])
    case Approved =>
      if key in h.acl.admins || |WhitelistedIn(h.conns[addr := c])| == 1 then JoinAsAdmin(h, addr, c, newToken)
      else JoinAsMember(h, addr, c, newToken)
  }

  // Commands -------------------------------------------------------------------------------------

  function ApprovedConn(h: State, addr: string): Conn
    requires addr in h.conns
  {
    var c := h.conns[addr].(status := Whitelisted);
    c.(isAdmin := c.isAdmin || c.key in h.acl.admins || |WhitelistedIn(h.conns[addr := c])| == 1)
  }

  function Approve(h: State, addr: string, newToken: string): State
    requires addr in h.conns
  {
    var c := ApprovedConn(h, addr);
    var bumped := BumpEpoch(h.(conns := h.conns[addr := c]), newToken);
    var listed := bumped.(acl := bumped.acl.(whitelist := h.acl.whitelist[c.key := c.nick],
                                             blacklist := h.acl.blacklist - {c.identity}));
    if c.isAdmin then RememberAdmin(listed, c.key, c.nick) else Save(listed)
  }

  /** Blocking only changes the lists; the connection is closed a little later, as a removal of its own. */
  function Block(h: State, addr: string): State
    requires addr in h.conns
  {
    var c := h.conns[addr];
    Save(h.(acl := h.acl.(blacklist := h.acl.blacklist[c.identity := c.nick],
                          whitelist := h.acl.whitelist - {c.key}, admins := h.acl.admins - {c.key})))
  }

  function Remove(h: State, addr: string, wasWhitelisted: bool, newToken: string): State {
    var gone := h.(conns := h.conns - {addr});
    if wasWhitelisted then BumpEpoch(gone, newToken) else gone
  }

  function Op(h: State, addr: string): State
    requires addr in h.conns
  {
    var c := h.conns[addr];
    RememberAdmin(h.(conns := h.conns[addr := c.(isAdmin := true)]), c.key, c.nick)
  }

  /** A grant at the hub's own console holds for the connection but is not stored. */
  function OperatorOp(h: State, addr: string): State
    requires addr in h.conns
  {
    h.(conns := h.conns[addr := h.conns[addr].(isAdmin := true)])
  }

  function Loaded(stored: Option<Acl>): Acl {
    if stored.None? then EMPTY_ACL else stored.value
  }

  function Restart(h: State, autoApprove: bool): State {
    State(map[], Loaded(h.stored), h.stored, autoApprove)
  }

  // Runs -----------------------------------------------------------------------------------------

  /** Admin commands name the acting connection; without one, the hub's operator acts. */
  datatype Event =
    | Admission(addr: string, nick: string, identity: string, key: string, newToken: string)
    | Approval(actor: Option<string>, addr: string, newToken: string)
    | Blocking(actor: Option<string>, addr: string)
    | Removal(addr: string, wasWhitelisted: bool, newToken: string)
    | Grant(actor: Option<string>, addr: string)
    | TokenRotation(newToken: string)
    | AutoApproval(on: bool)
    | Restarting(autoApprove: bool)

  /** Commands are taken from connected, whitelisted admins only. */
  predicate MayCommand(h: State, actor: Option<string>) {
    actor.Some? ==> actor.value in h.conns && h.conns[actor.value].isAdmin && h.conns[actor.value].status == Whitelisted
  }

  /** An event that cannot happen in a state leaves it as it is. */
  function Apply(h: State, e: Event): State {
    match e
    case Admission(addr, nick, identity, key, newToken) => Admit(h, addr, nick, identity, key, newToken)
    case Approval(actor, addr, newToken) =>
      if MayCommand(h, actor) && addr in h.conns then Approve(h, addr, newToken) else h
    case Blocking(actor, addr) => if MayCommand(h, actor) && addr in h.conns then Block(h, addr) else h
    case Removal(addr, was, newToken) => Remove(h, addr, was, newToken)
    case Grant(actor, addr) =>
      if MayCommand(h, actor) && addr in h.conns then if actor.Some? then Op(h, addr) else OperatorOp(h, addr) else h
    case TokenRotation(newToken) => RotateVaultToken(h, newToken)
    case AutoApproval(on) => h.(autoApprove := on)
    case Restarting(auto) => Restart(h, auto)
  }

  /** The EPOCH an event sends: letting someone in and removing a member do. */
  function EpochSent(h: State, e: Event): Option<Epoch> {
    match e
    case Admission(_, nick, identity, key, _) =>
      if AdmitReply(h, nick, identity, key).Approved? then Some(EpochOf(Apply(h, e))) else None
    case Approval(actor, addr, _) =>
      if MayCommand(h, actor) && addr in h.conns then Some(EpochOf(Apply(h, e))) else None
    case Removal(_, wasWhitelisted, _) => if wasWhitelisted then Some(EpochOf(Apply(h, e))) else None
    case _ => None
  }

  function Start(stored: Option<Acl>, autoApprove: bool): State {
    State(map[], Loaded(stored), stored, autoApprove)
  }

  function Run(h: State, events: seq<Event>): State
    decreases |events|
  {
    if events == [] then h else Apply(Run(h, events[..|events| - 1]), events[|events| - 1])
  }
}
