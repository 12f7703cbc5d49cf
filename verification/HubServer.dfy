/** The hub's objects (internal/server/manager.go, core.go, commands.go, persist.go), realising `Hub`. */
module HubServer {
  import opened Prelude
  import opened Hub

  class Client {
    const address: string
    const identity: string
    const signingPubKey: string
    var nickname: string
    var state: Status
    var isAdmin: bool

    constructor (address: string, c: Conn)
      ensures this.address == address && Record() == c
    {
      this.address := address;
      identity, signingPubKey := c.identity, c.key;
      nickname, state, isAdmin := c.nick, c.status, c.isAdmin;
    }

    function Record(): Conn
      reads this
    {
      Conn(nickname, identity, signingPubKey, state, isAdmin)
    }
  }

  class ClientManager {
    var clients: map<string, Client>

    /** The connected clients, each filed under its own address, have these values. */
    ghost predicate Holds(conns: map<string, Conn>)
      reads this, clients.Values
    {
      && (forall a :: a in clients <==> a in conns)
      && (forall a <- clients :: clients[a].address == a && clients[a].Record() == conns[a])
    }

    constructor ()
      ensures Holds(map[])
    {
      clients := map[];
    }

    method AddClient(id: string, client: Client, ghost conns: map<string, Conn>)
      requires Holds(conns) && client.address == id
      modifies this
      ensures clients == old(clients)[id := client] && Holds(conns[id := client.Record()])
    {
      clients := clients[id := client];
    }

    method RemoveClient(id: string, ghost conns: map<string, Conn>)
      requires Holds(conns)
      modifies this
      ensures clients == old(clients) - {id} && Holds(conns - {id})
    {
      clients := clients - {id};
    }

    /** Writing to one connected client leaves all others as they are: no two addresses share an object. */
    method SetWhitelisted(c: Client, ghost conns: map<string, Conn>)
      requires Holds(conns) && c.address in clients && clients[c.address] == c
      modifies c`state
      ensures Holds(conns[c.address := conns[c.address].(status := Whitelisted)])
    {
      c.state := Whitelisted;
    }

    method SetAdmin(c: Client, ghost conns: map<string, Conn>)
      requires Holds(conns) && c.address in clients && clients[c.address] == c
      modifies c`isAdmin
      ensures Holds(conns[c.address := conns[c.address].(isAdmin := true)])
    {
      c.isAdmin := true;
    }

    /** Some client of that nick; which one, among several, is up to the iteration order of the map. */
    method GetClientByNickname(nickname: string, ghost conns: map<string, Conn>) returns (c: Client?)
      requires Holds(conns)
      ensures c == null <==> !InUse(conns, nickname)
      ensures c != null ==> c.address in clients && clients[c.address] == c && c.nickname == nickname
    {
      var todo := clients.Keys;
      while todo != {}
        invariant todo <= clients.Keys
        invariant forall a <- clients | a !in todo :: clients[a].nickname != nickname
        decreases todo
      {
        var a :| a in todo;
        if clients[a].nickname == nickname {
          assert conns[a].nick == nickname;
          return clients[a];
        }
        todo := todo - {a};
      }
      assert forall a <- conns :: conns[a].nick == clients[a].nickname;
      return null;
    }

    /** The addresses a broadcast to all members reaches. */
    method Members(ghost conns: map<string, Conn>) returns (to: set<string>)
      requires Holds(conns)
      ensures to == WhitelistedIn(conns)
    {
      to := {};
      var todo := clients.Keys;
      while todo != {}
        invariant todo <= clients.Keys
        invariant to == set a | a in conns && a !in todo && conns[a].status == Whitelisted
        decreases todo
      {
        var a :| a in todo;
        todo := todo - {a};
        if clients[a].state == Whitelisted {
          to := to + {a};
        }
        assert conns[a].status == clients[a].state;
      }
    }

    method WhitelistedCount(ghost conns: map<string, Conn>) returns (n: nat)
      requires Holds(conns)
      ensures n == |WhitelistedIn(conns)|
    {
      n := 0;
      var todo := clients.Keys;
      ghost var seen: set<string> := {};
      while todo != {}
        invariant todo <= clients.Keys
        invariant seen == set a | a in conns && a !in todo && conns[a].status == Whitelisted
        invariant n == |seen|
        decreases todo
      {
        var a :| a in todo;
        todo := todo - {a};
        if clients[a].state == Whitelisted {
          n := n + 1;
          seen := seen + {a};
        }
        assert conns[a].status == clients[a].state;
      }
      assert seen == WhitelistedIn(conns);
    }
  }

  method CopyMap(m: map<string, string>) returns (out: map<string, string>)
    ensures out == m
  {
    out := map[];
    var todo := m.Keys;
    while todo != {}
      invariant todo <= m.Keys
      invariant out.Keys == m.Keys - todo && forall k <- out :: out[k] == m[k]
      decreases todo
    {
      var k :| k in todo;
      out := out[k := m[k]];
      todo := todo - {k};
    }
  }

  class Server {
    const manager: ClientManager
    var whitelistMap: map<string, string>
    var blacklistMap: map<string, string>
    var admins: map<string, string>
    var vaultToken: string
    var autoApprove: bool
    var file: Option<Acl>  // content of the ACL file

    function Memory(): Acl
      reads this
    {
      Acl(whitelistMap, blacklistMap, admins, vaultToken)
    }

    /** The lists, in memory and in the file, are those of h. */
    ghost predicate ListsAre(h: State)
      reads this
    {
      Memory() == h.acl && file == h.stored && autoApprove == h.autoApprove
    }

    ghost predicate Is(h: State)
      reads this, manager, manager.clients.Values
    {
      ListsAre(h) && manager.Holds(h.conns)
    }

    /** A new process: no connections, the lists as the file has them. */
    constructor (file: Option<Acl>, autoApprove: bool)
      ensures Is(Start(file, autoApprove))
      ensures forall h: State | h.stored == file :: Is(Restart(h, autoApprove))
    {
      manager := new ClientManager();
      whitelistMap, blacklistMap, admins, vaultToken := map[], map[], map[], "";
      this.autoApprove := autoApprove;
      this.file := file;
      new;
      LoadACL();
    }

    method LoadACL()
      requires vaultToken == "" && whitelistMap == blacklistMap == map[]
      modifies this`whitelistMap, this`blacklistMap, this`admins, this`vaultToken
      ensures Memory() == Loaded(file)
    {
      admins := map[];
      if file.None? {
        return;
      }
      whitelistMap, blacklistMap, admins := file.value.whitelist, file.value.blacklist, file.value.admins;
      if file.value.token != "" {
        vaultToken := file.value.token;
      }
    }

    method SaveACL()
      modifies this`file
      ensures file == Some(Memory())
    {
      var w := CopyMap(whitelistMap);
      var b := CopyMap(blacklistMap);
      var a := CopyMap(admins);
      file := Some(Acl(w, b, a, vaultToken));
    }

    method RememberAdmin(key: string, nick: string)
      modifies this`admins, this`file
      ensures Memory() == old(Memory()).(admins := old(admins)[key := nick]) && file == Some(Memory())
    {
      admins := admins[key := nick];
      SaveACL();
    }

    method IsStoredAdmin(key: string) returns (b: bool)
      ensures b <==> key in admins
    {
      b := key in admins;
    }

    /** Tells every member to rotate; makes a vault token first if there is none. */
    method BumpEpoch(newToken: string, ghost conns: map<string, Conn>) returns (epoch: Epoch)
      requires manager.Holds(conns)
      modifies this`vaultToken
      ensures vaultToken == if old(vaultToken) == "" then newToken else old(vaultToken)
      ensures epoch == Epoch(WhitelistedIn(conns), vaultToken)
    {
      if vaultToken == "" {
        vaultToken := newToken;
      }
      var to := manager.Members(conns);
      epoch := Epoch(to, vaultToken);
    }

    method RotateVaultToken(newToken: string, ghost h: State)
      requires Is(h)
      modifies this`vaultToken, this`file
      ensures Is(Hub.RotateVaultToken(h, newToken))
    {
      if vaultToken != "" {
        return;
      }
      vaultToken := newToken;
      SaveACL();
    }

    // Admission ----------------------------------------------------------------------------------

    method Lookup(nickname: string, key: string) returns (owned: bool, known: bool, listedNick: string)
      ensures owned <==> OwnedByOther(whitelistMap, nickname, key)
      ensures !owned ==> (known <==> key in whitelistMap) && (known ==> listedNick == whitelistMap[key])
    {
      owned, known, listedNick := false, false, "";
      var todo := whitelistMap.Keys;
      while todo != {}
        invariant todo <= whitelistMap.Keys
        invariant forall k <- whitelistMap | k !in todo :: whitelistMap[k] == nickname ==> k == key
        invariant known <==> key in whitelistMap && key !in todo
        invariant known ==> listedNick == whitelistMap[key]
        decreases todo
      {
        var k :| k in todo;
        if k == key {
          known, listedNick := true, whitelistMap[k];
        }
        if whitelistMap[k] == nickname && k != key {
          owned := true;
          return;
        }
        todo := todo - {k};
      }
    }

    method MakeClient(addr: string, nickname: string, identity: string, key: string,
                      known: bool, listedNick: string) returns (client: Client)
      ensures fresh(client) && client.address == addr
      ensures client.Record() == Conn(if known then listedNick else nickname, identity, key,
                                      if known || autoApprove then Whitelisted else Pending, known && key in admins)
    {
      var stored := IsStoredAdmin(key);
      client := new Client(addr, Conn(nickname, identity, key, Pending, false));
      if known {
        client.nickname, client.state := listedNick, Whitelisted;
        if stored {
          client.isAdmin := true;
        }
      }
      if autoApprove {
        client.state := Whitelisted;
      }
    }

    /** The newcomer's object, connected, before it is known whether it becomes an admin. */
    method Connect(addr: string, nickname: string, identity: string, key: string,
                   known: bool, listedNick: string, ghost h: State) returns (client: Client)
      requires Is(h)
      requires known <==> key in h.acl.whitelist
      requires known ==> listedNick == h.acl.whitelist[key]
      modifies manager
      ensures fresh(client) && client.address == addr && client.Record() == Newcomer(h, nickname, identity, key)
      ensures addr in manager.clients && manager.clients[addr] == client
      ensures manager.Holds(h.conns[addr := client.Record()])
    {
      client := MakeClient(addr, nickname, identity, key, known, listedNick);
      manager.AddClient(addr, client, h.conns);
    }

    /** Makes a whitelisted newcomer an admin if it is a stored one or the only member. */
    method Promote(client: Client, ghost conns: map<string, Conn>) returns (isAdmin: bool)
      requires manager.Holds(conns) && client.address in manager.clients && manager.clients[client.address] == client
      modifies client`isAdmin
      ensures isAdmin <==> client.signingPubKey in admins || |WhitelistedIn(conns)| == 1
      ensures manager.Holds(if isAdmin then conns[client.address := conns[client.address].(isAdmin := true)] else conns)
    {
      var stored := IsStoredAdmin(client.signingPubKey);
      var count := manager.WhitelistedCount(conns);
      isAdmin := stored || count == 1;
      if isAdmin {
        manager.SetAdmin(client, conns);
      }
    }

    ghost function Joined(h: State, addr: string, c: Conn, isAdmin: bool, newToken: string): State {
      if isAdmin then JoinAsAdmin(h, addr, c, newToken) else JoinAsMember(h, addr, c, newToken)
    }

    /** Lists an approved newcomer: as an admin among the admins only, otherwise on the whitelist only. */
    method ListNewcomer(key: string, nick: string, isAdmin: bool, newToken: string,
                        ghost h: State, ghost addr: string, ghost c: Conn) returns (epoch: Epoch)
      requires ListsAre(h) && c.key == key && c.nick == nick
      requires manager.Holds(Joined(h, addr, c, isAdmin, newToken).conns)
      modifies this`whitelistMap, this`admins, this`vaultToken, this`file
      ensures ListsAre(Joined(h, addr, c, isAdmin, newToken))
      ensures epoch == EpochOf(Joined(h, addr, c, isAdmin, newToken))
    {
      if isAdmin {
        RememberAdmin(key, nick);
      } else {
        whitelistMap := whitelistMap[key := nick];
        SaveACL();
      }
      epoch := BumpEpoch(newToken, Joined(h, addr, c, isAdmin, newToken).conns);
    }

    /** A whitelisted newcomer joins as an admin or as a plain member. */
    method Join(client: Client, newToken: string, ghost h: State) returns (epoch: Epoch)
      requires client.address in manager.clients && manager.clients[client.address] == client
      requires ListsAre(h) && manager.Holds(h.conns[client.address := client.Record()])
      modifies this`whitelistMap, this`admins, this`vaultToken, this`file, client`isAdmin
      ensures var c := old(client.Record());
        var h' := Joined(h, client.address, c,
                         c.key in h.acl.admins || |WhitelistedIn(h.conns[client.address := c])| == 1, newToken);
        Is(h') && epoch == EpochOf(h')
    {
      ghost var c := client.Record();
      ghost var conns := h.conns[client.address := c];
      var isAdmin := Promote(client, conns);
      assert conns[client.address := c.(isAdmin := true)] == h.conns[client.address := c.(isAdmin := true)];
      epoch := ListNewcomer(client.signingPubKey, client.nickname, isAdmin, newToken, h, client.address, c);
    }

    /** What follows once none of the three refusals applies. */
    method Enter(addr: string, nickname: string, identity: string, key: string,
                 known: bool, listedNick: string, newToken: string, ghost h: State)
      returns (reply: Reply, epoch: Option<Epoch>)
      requires Is(h) && AdmitReply(h, nickname, identity, key) in {Waiting, Approved}
      requires known <==> key in h.acl.whitelist
      requires known ==> listedNick == h.acl.whitelist[key]
      modifies this`whitelistMap, this`admins, this`vaultToken, this`file, manager
      ensures reply == AdmitReply(h, nickname, identity, key)
      ensures Is(Hub.Admit(h, addr, nickname, identity, key, newToken))
      ensures epoch == EpochSent(h, Admission(addr, nickname, identity, key, newToken))
    {
      var client := Connect(addr, nickname, identity, key, known, listedNick, h);
      if !known && !autoApprove {
        return Waiting, None;
      }
      var sent := Join(client, newToken, h);
      reply, epoch := Approved, Some(sent);
    }

    method Admit(addr: string, nickname: string, identity: string, key: string, newToken: string, ghost h: State)
      returns (reply: Reply, epoch: Option<Epoch>)
      requires Is(h)
      modifies this`whitelistMap, this`admins, this`vaultToken, this`file, manager
      ensures reply == AdmitReply(h, nickname, identity, key)
      ensures Is(Hub.Admit(h, addr, nickname, identity, key, newToken))
      ensures epoch == EpochSent(h, Admission(addr, nickname, identity, key, newToken))
    {
      var owned, known, listedNick := Lookup(nickname, key);
      if owned {
        return NameOwned, None;
      }
      if identity in blacklistMap {
        return Banned(blacklistMap[identity]), None;
      }
      var taken := manager.GetClientByNickname(nickname, h.conns);
      if taken != null {
        return NameTaken, None;
      }
      reply, epoch := Enter(addr, nickname, identity, key, known, listedNick, newToken, h);
    }

    lemma ApprovedByParts(h: State, addr: string, newToken: string)
      requires addr in h.conns
      ensures var c, m := ApprovedConn(h, addr), h.acl;
        var acl := Acl(m.whitelist[c.key := c.nick], m.blacklist - {c.identity},
                       if c.isAdmin then m.admins[c.key := c.nick] else m.admins,
                       if m.token == "" then newToken else m.token);
        Approve(h, addr, newToken) == State(h.conns[addr := c], acl, Some(acl), h.autoApprove)
    {
    }

    lemma ApprovedAsAdmin(h: State, addr: string)
      requires addr in h.conns
      ensures var c := h.conns[addr].(status := Whitelisted);
        var conns := h.conns[addr := c];
        conns[addr := (if c.key in h.acl.admins || |WhitelistedIn(conns)| == 1 then c.(isAdmin := true) else c)]
          == h.conns[addr := ApprovedConn(h, addr)]
    {
    }

    /** Marks a client as whitelisted, and as admin if it is a stored one or now the only member. */
    method MarkApproved(target: Client, ghost h: State)
      requires Is(h) && target.address in manager.clients && manager.clients[target.address] == target
      modifies target`state, target`isAdmin
      ensures manager.Holds(h.conns[target.address := ApprovedConn(h, target.address)])
      ensures target.Record() == ApprovedConn(h, target.address)
    {
      ApprovedAsAdmin(h, target.address);
      manager.SetWhitelisted(target, h.conns);
      ghost var conns := h.conns[target.address := h.conns[target.address].(status := Whitelisted)];
      var known := IsStoredAdmin(target.signingPubKey);
      var count := manager.WhitelistedCount(conns);
      if known || count == 1 {
        manager.SetAdmin(target, conns);
      }
    }

    /** Puts an approved key on the whitelist and its identity off the blacklist. */
    method ListApproved(key: string, nick: string, identity: string, isAdmin: bool, newToken: string,
                        ghost h: State, ghost addr: string) returns (epoch: Epoch)
      requires ListsAre(h) && addr in h.conns && manager.Holds(h.conns[addr := ApprovedConn(h, addr)])
      requires Conn(nick, identity, key, Whitelisted, isAdmin) == ApprovedConn(h, addr)
      modifies this`whitelistMap, this`blacklistMap, this`admins, this`vaultToken, this`file
      ensures ListsAre(Approve(h, addr, newToken)) && epoch == EpochOf(Approve(h, addr, newToken))
    {
      ApprovedByParts(h, addr, newToken);
      epoch := BumpEpoch(newToken, h.conns[addr := ApprovedConn(h, addr)]);
      whitelistMap := whitelistMap[key := nick];
      blacklistMap := blacklistMap - {identity};
      if isAdmin {
        RememberAdmin(key, nick);
      } else {
        SaveACL();
      }
    }

    method ApproveClient(nickname: string, newToken: string, ghost h: State)
      returns (epoch: Option<Epoch>, ghost addr: string)
      requires Is(h)
      modifies this`whitelistMap, this`blacklistMap, this`admins, this`vaultToken, this`file, manager.clients.Values
      ensures epoch.Some? <==> InUse(h.conns, nickname)
      ensures epoch.None? ==> Is(h)
      ensures epoch.Some? ==>
        && addr in h.conns && h.conns[addr].nick == nickname && Is(Approve(h, addr, newToken))
        && epoch.value == EpochOf(Approve(h, addr, newToken))
    {
      addr := "";
      var target := manager.GetClientByNickname(nickname, h.conns);
      if target == null {
        return None, addr;
      }
      addr := target.address;
      ApprovedByParts(h, addr, newToken);
      MarkApproved(target, h);
      var sent := ListApproved(target.signingPubKey, target.nickname, target.identity, target.isAdmin, newToken, h, addr);
      epoch := Some(sent);
    }

    /** Blocking changes the lists now; closing the connection is left to RemoveClient. */
    method BlockClient(nickname: string, ghost h: State) returns (target: Client?)
      requires Is(h)
      modifies this`whitelistMap, this`blacklistMap, this`admins, this`file
      ensures target != null <==> InUse(h.conns, nickname)
      ensures target == null ==> Is(h)
      ensures target != null ==>
        target.address in h.conns && h.conns[target.address].nick == nickname && Is(Block(h, target.address))
    {
      target := manager.GetClientByNickname(nickname, h.conns);
      if target == null {
        return;
      }
      blacklistMap := blacklistMap[target.identity := target.nickname];
      whitelistMap := whitelistMap - {target.signingPubKey};
      admins := admins - {target.signingPubKey};
      SaveACL();
    }

    /** Also for a client that is no longer, or no longer the one, at its address. */
    method RemoveClient(c: Client, newToken: string, ghost h: State) returns (epoch: Option<Epoch>)
      requires Is(h)
      modifies this`vaultToken, manager
      ensures Is(Remove(h, c.address, c.state == Whitelisted, newToken))
      ensures epoch == EpochSent(h, Removal(c.address, c.state == Whitelisted, newToken))
    {
      epoch := None;
      manager.RemoveClient(c.address, h.conns);
      if c.state == Whitelisted {
        var sent := BumpEpoch(newToken, h.conns - {c.address});
        epoch := Some(sent);
      }
    }

    /** A grant by an operator at the console. */
    method OperatorGrant(nickname: string, ghost h: State) returns (ghost addr: string)
      requires Is(h)
      modifies manager.clients.Values
      ensures !InUse(h.conns, nickname) ==> Is(h)
      ensures InUse(h.conns, nickname) ==>
        addr in h.conns && h.conns[addr].nick == nickname && Is(OperatorOp(h, addr))
    {
      addr := "";
      var target := manager.GetClientByNickname(nickname, h.conns);
      if target != null {
        addr := target.address;
        manager.SetAdmin(target, h.conns);
      }
    }

    // The commands: refused unless the acting client is an admin ------------------------------------

    method HandleOp(client: Client, nickname: string, ghost h: State) returns (ghost addr: string)
      requires Is(h)
      modifies this`admins, this`file, manager.clients.Values
      ensures !old(client.isAdmin) || !InUse(h.conns, nickname) ==> Is(h)
      ensures old(client.isAdmin) && InUse(h.conns, nickname) ==>
        addr in h.conns && h.conns[addr].nick == nickname && Is(Op(h, addr))
    {
      addr := "";
      if !client.isAdmin {
        return;
      }
      var target := manager.GetClientByNickname(nickname, h.conns);
      if target != null {
        addr := target.address;
        manager.SetAdmin(target, h.conns);
        RememberAdmin(target.signingPubKey, target.nickname);
      }
    }

    method HandleApprove(client: Client, nickname: string, newToken: string, ghost h: State)
      returns (epoch: Option<Epoch>, ghost addr: string)
      requires Is(h)
      modifies this`whitelistMap, this`blacklistMap, this`admins, this`vaultToken, this`file, manager.clients.Values
      ensures !old(client.isAdmin) || !InUse(h.conns, nickname) ==> Is(h) && epoch == None
      ensures old(client.isAdmin) && InUse(h.conns, nickname) ==>
        && addr in h.conns && h.conns[addr].nick == nickname && Is(Approve(h, addr, newToken))
        && epoch == Some(EpochOf(Approve(h, addr, newToken)))
    {
      addr := "";
      if !client.isAdmin {
        return None, addr;
      }
      epoch, addr := ApproveClient(nickname, newToken, h);
    }

    method HandleBlock(client: Client, nickname: string, ghost h: State) returns (target: Client?)
      requires Is(h)
      modifies this`whitelistMap, this`blacklistMap, this`admins, this`file
      ensures target != null <==> client.isAdmin && InUse(h.conns, nickname)
      ensures target == null ==> Is(h)
      ensures target != null ==>
        target.address in h.conns && h.conns[target.address].nick == nickname && Is(Block(h, target.address))
    {
      if !client.isAdmin {
        return null;
      }
      target := BlockClient(nickname, h);
    }

    method HandleKick(client: Client, nickname: string, newToken: string, ghost h: State)
      returns (epoch: Option<Epoch>, ghost addr: string)
      requires Is(h)
      modifies this`vaultToken, manager
      ensures !client.isAdmin || !InUse(h.conns, nickname) ==> Is(h) && epoch == None
      ensures client.isAdmin && InUse(h.conns, nickname) ==>
        && addr in h.conns && h.conns[addr].nick == nickname
        && Is(Remove(h, addr, h.conns[addr].status == Whitelisted, newToken))
        && epoch == EpochSent(h, Removal(addr, h.conns[addr].status == Whitelisted, newToken))
    {
      epoch, addr := None, "";
      if !client.isAdmin {
        return;
      }
      var target := manager.GetClientByNickname(nickname, h.conns);
      if target != null {
        addr := target.address;
        epoch := RemoveClient(target, newToken, h);
      }
    }
  }
}
