/**
  Runs of a whole group: honest members, a hub that may drop, delay, repeat and reorder what it
  relays and rewrite the sender and step a chat claims, and an EPOCH for anyone at any time.
  Seeds are fresh; sealing is ideal.
 */
module GroupRuns {
  import opened Prelude
  import opened Ratchets
  import opened ChatProtocol

  const SEND_CAPACITY := 256

  datatype Node = Node(member: Member, outbox: seq<Outgoing>, shown: seq<Shown>)

  /** One sealing of a chat text: by whom, under which seed, at which step. */
  datatype Record = Record(sender: string, seed: Key, step: nat, ct: Cipher)

  /** `wire` is all that was ever sent, `owner` whose seed each seed ever made is, `log` all sealings in order. */
  datatype World = World(nodes: map<nat, Node>, wire: set<Packet>, owner: map<Key, string>, log: seq<Record>)

  datatype Step =
    | Join(id: nat, nick: string, seed: Key)
    | Leave(id: nat)
    | Epoch(id: nat, seed: Key)
    | Republish(id: nat)
    | Compose(id: nat, o: Outgoing)
    | WriteOut(id: nat, blocked: bool, nonce: nat)
    | DeliverSeed(id: nat, sender: string, seed: Key)
    | DeliverText(id: nat, msg: Message)

  const START := World(map[], {}, map[], [])

  ghost predicate FreshSeed(w: World, seed: Key) {
    seed.Raw? && seed.Length() == 32 && seed !in w.owner
  }

  /** Sealed content must have been sent by someone; everything else about a message is the hub's choice. */
  ghost predicate Deliverable(w: World, msg: Message) {
    msg.content.Encoded? && msg.content.ct.Sealed? ==>
      exists p <- w.wire :: p.TextPacket? && p.msg.content == msg.content
  }

  ghost predicate Enabled(w: World, s: Step) {
    match s
    case Join(id, _, seed) => id !in w.nodes && FreshSeed(w, seed)
    case Leave(id) => id in w.nodes
    case Epoch(id, seed) => id in w.nodes && FreshSeed(w, seed)
    case Republish(id) => id in w.nodes
    case Compose(id, o) => id in w.nodes && |w.nodes[id].outbox| < SEND_CAPACITY && !o.SeedOut?
    case WriteOut(id, _, _) => id in w.nodes && w.nodes[id].outbox != []
    case DeliverSeed(id, sender, seed) =>
      id in w.nodes && SeedPacket(sender, seed) in w.wire && sender != w.nodes[id].member.nick
    case DeliverText(id, msg) => id in w.nodes && Deliverable(w, msg)
  }

  /** A full send channel drops what is offered. */
  function Offered(outbox: seq<Outgoing>, offers: seq<Outgoing>): seq<Outgoing> {
    if |outbox| < SEND_CAPACITY then outbox + offers else outbox
  }

  /** The record of the sealing a write performs, if it performs one. */
  function NewRecords(m: Member, o: Outgoing, blocked: bool, nonce: nat): seq<Record> {
    if !o.TextOut? || HeldBack(o, blocked) then []
    else [Record(m.nick, m.mine.seed, m.mine.next, Sealed(MessageKey(m.mine.seed, m.mine.next), nonce, o.text))]
  }

  ghost function Apply(w: World, s: Step): World
    requires Enabled(w, s)
  {
    match s
    case Join(id, nick, seed) =>
      var m := Member(nick, 1, NewChain(seed), map[], []);
      w.(nodes := w.nodes[id := Node(m, [], [])], owner := w.owner[seed := nick])
    case Leave(id) => w.(nodes := w.nodes - {id})
    case Epoch(id, seed) =>
      var n := w.nodes[id];
      var m := OnEpoch(n.member, seed);
      w.(nodes := w.nodes[id := n.(member := m, outbox := Offered(n.outbox, Offer(m)))],
         owner := w.owner[seed := m.nick])
    case Republish(id) =>
      var n := w.nodes[id];
      w.(nodes := w.nodes[id := n.(outbox := Offered(n.outbox, Offer(n.member)))])
    case Compose(id, o) =>
      var n := w.nodes[id];
      w.(nodes := w.nodes[id := n.(outbox := n.outbox + [o])])
    case WriteOut(id, blocked, nonce) =>
      var n := w.nodes[id];
      var o := n.outbox[0];
      var p := Written(n.member, o, blocked, nonce);
      w.(nodes := w.nodes[id := n.(member := AfterWrite(n.member, o, blocked), outbox := n.outbox[1..])],
         wire := w.wire + if p.Some? then {p.value} else {},
         log := w.log + NewRecords(n.member, o, blocked, nonce))
    case DeliverSeed(id, sender, seed) =>
      var n := w.nodes[id];
      var m := Adopt(n.member, sender, seed);
      w.(nodes := w.nodes[id := n.(member := Flush(m, sender), shown := n.shown + FlushShown(m, sender))])
    case DeliverText(id, msg) =>
      var n := w.nodes[id];
      w.(nodes := w.nodes[id := Node(OnMessage(n.member, msg),
                                     Offered(n.outbox, MessageOffers(n.member, msg)),
                                     n.shown + [MessageShown(n.member, msg)])])
  }

  // The invariant ----------------------------------------------------------------------------

  ghost predicate Logged(log: seq<Record>, ct: Cipher) {
    ct.Sealed? ==> exists r <- log :: r.ct == ct
  }

  /** An opened message was sealed, with that very text, by the sender it names, at the step it names. */
  ghost predicate Authentic(log: seq<Record>, s: Shown) {
    s.Opened? ==>
      s.msg.content.Encoded? &&
      exists r <- log :: r.sender == s.msg.sender && r.step == s.msg.step && r.ct == s.msg.content.ct
                         && r.ct.Sealed? && r.ct.text == s.text
  }

  ghost predicate Owns(owner: map<Key, string>, nick: string, seed: Key) {
    seed in owner && owner[seed] == nick
  }

  ghost predicate RecordOk(owner: map<Key, string>, r: Record) {
    && Owns(owner, r.sender, r.seed)
    && r.ct.Sealed? && r.ct.key == MessageKey(r.seed, r.step)
  }

  ghost predicate MemberOk(owner: map<Key, string>, log: seq<Record>, m: Member) {
    && Owns(owner, m.nick, m.mine.seed)
    && (forall p <- m.peers :: Owns(owner, p, m.peers[p].seed))
    && (forall msg <- m.pending | msg.content.Encoded? :: Logged(log, msg.content.ct))
    && |m.pending| <= PENDING_LIMIT + 1
  }

  ghost predicate NodeOk(owner: map<Key, string>, log: seq<Record>, n: Node) {
    && MemberOk(owner, log, n.member)
    && (forall o <- n.outbox | o.SeedOut? :: Owns(owner, n.member.nick, o.seed))
    && (forall s <- n.shown :: Authentic(log, s))
  }

  ghost predicate PacketOk(owner: map<Key, string>, log: seq<Record>, p: Packet) {
    match p
    case SeedPacket(sender, seed) => Owns(owner, sender, seed)
    case TextPacket(msg) => msg.content.Encoded? && Logged(log, msg.content.ct)
    case OtherPacket(_) => true
  }

  /** Whatever was sealed under the chain's seed was sealed at a step it has passed. */
  ghost predicate Ahead(log: seq<Record>, c: Chain) {
    forall r <- log | r.seed == c.seed :: r.step < c.next
  }

  /** No two sealings use the same seed and step. */
  ghost predicate KeysFresh(log: seq<Record>) {
    forall i, j | 0 <= i < j < |log| :: !(log[i].seed == log[j].seed && log[i].step == log[j].step)
  }

  ghost predicate Inv(w: World) {
    && (forall k <- w.owner :: k.Raw?)
    && (forall id <- w.nodes :: NodeOk(w.owner, w.log, w.nodes[id]) && Ahead(w.log, w.nodes[id].member.mine))
    && (forall i, j | i in w.nodes && j in w.nodes && i != j ::
          w.nodes[i].member.mine.seed != w.nodes[j].member.mine.seed)
    && (forall p <- w.wire :: PacketOk(w.owner, w.log, p))
    && (forall r <- w.log :: RecordOk(w.owner, r))
    && KeysFresh(w.log)
  }

  // Its preservation --------------------------------------------------------------------------

  ghost predicate Extends(owner: map<Key, string>, owner': map<Key, string>) {
    forall k <- owner :: k in owner' && owner'[k] == owner[k]
  }

  lemma LoggedGrows(log: seq<Record>, more: seq<Record>, ct: Cipher)
    requires Logged(log, ct)
    ensures Logged(log + more, ct)
  {
    if ct.Sealed? {
      var r :| r in log && r.ct == ct;
      assert r in log + more;
    }
  }

  lemma AuthenticGrows(log: seq<Record>, more: seq<Record>, s: Shown)
    requires Authentic(log, s)
    ensures Authentic(log + more, s)
  {
    if s.Opened? {
      var r :| r in log && r.sender == s.msg.sender && r.step == s.msg.step && r.ct == s.msg.content.ct
               && r.ct.Sealed? && r.ct.text == s.text;
      assert r in log + more;
    }
  }

  lemma NodeOkGrows(owner: map<Key, string>, owner': map<Key, string>, log: seq<Record>, more: seq<Record>, n: Node)
    requires NodeOk(owner, log, n) && Extends(owner, owner')
    ensures NodeOk(owner', log + more, n)
  {
    forall msg <- n.member.pending | msg.content.Encoded? ensures Logged(log + more, msg.content.ct) {
      LoggedGrows(log, more, msg.content.ct);
    }
    forall s <- n.shown ensures Authentic(log + more, s) {
      AuthenticGrows(log, more, s);
    }
  }

  lemma PacketOkGrows(owner: map<Key, string>, owner': map<Key, string>, log: seq<Record>, more: seq<Record>, p: Packet)
    requires PacketOk(owner, log, p) && Extends(owner, owner')
    ensures PacketOk(owner', log + more, p)
  {
    if p.TextPacket? { LoggedGrows(log, more, p.msg.content.ct); }
  }

  /** The heart of authenticity: a key that opens a sealed text names the seed and step it was sealed under. */
  lemma OpenedIsAuthentic(w: World, p: string, c: Chain, msg: Message)
    requires Inv(w) && Owns(w.owner, p, c.seed)
    requires msg.sender == p && msg.content.Encoded? && Logged(w.log, msg.content.ct)
    requires Open(c, msg).Some? && Open(c, msg).value.Some?
    ensures Authentic(w.log, Opened(msg, Open(c, msg).value.value))
  {
    var r :| r in w.log && r.ct == msg.content.ct;
    assert RecordOk(w.owner, r);
    MessageKeysInjective(r.seed, r.step, c.seed, msg.step);
  }

  lemma {:induction false} FlushedIsAuthentic(w: World, p: string, c: Chain, ready: seq<Message>)
    requires Inv(w) && Owns(w.owner, p, c.seed)
    requires forall m <- ready :: m.sender == p && (m.content.Encoded? ==> Logged(w.log, m.content.ct))
    ensures forall s <- OpenAll(c, ready) :: Authentic(w.log, s)
    decreases |ready|
  {
    if ready != [] {
      var c' := if ready[0].content.Encoded? then AfterGet(c, ready[0].step) else c;
      FlushedIsAuthentic(w, p, c', ready[1..]);
      if ready[0].content.Encoded? && Open(c, ready[0]).Some? && Open(c, ready[0]).value.Some? {
        OpenedIsAuthentic(w, p, c, ready[0]);
      }
    }
  }

  /** Replacing one node, with nothing new on the wire or in the log, and its own chain as before. */
  lemma NodeStep(w: World, id: nat, n: Node)
    requires Inv(w) && id in w.nodes
    requires NodeOk(w.owner, w.log, n) && n.member.mine == w.nodes[id].member.mine
    ensures Inv(w.(nodes := w.nodes[id := n]))
  {
  }

  lemma TextKeepsMember(owner: map<Key, string>, log: seq<Record>, m: Member, msg: Message)
    requires MemberOk(owner, log, m)
    requires msg.content.Encoded? ==> Logged(log, msg.content.ct)
    ensures MemberOk(owner, log, OnMessage(m, msg)) && OnMessage(m, msg).mine == m.mine
  {
    assert Push(m.pending, msg)[|Push(m.pending, msg)| - 1] == msg;
  }

  lemma DeliverTextKeeps(w: World, id: nat, msg: Message)
    requires Inv(w) && Enabled(w, DeliverText(id, msg))
    ensures Inv(Apply(w, DeliverText(id, msg)))
  {
    var n := w.nodes[id];
    if msg.content.Encoded? && msg.content.ct.Sealed? {
      var p :| p in w.wire && p.TextPacket? && p.msg.content == msg.content;
      assert PacketOk(w.owner, w.log, p);
    }
    var s := MessageShown(n.member, msg);
    if s.Opened? {
      OpenedIsAuthentic(w, msg.sender, n.member.peers[msg.sender], msg);
    }
    TextKeepsMember(w.owner, w.log, n.member, msg);
    NodeStep(w, id, Node(OnMessage(n.member, msg), Offered(n.outbox, MessageOffers(n.member, msg)), n.shown + [s]));
  }

  lemma DeliverSeedKeeps(w: World, id: nat, sender: string, seed: Key)
    requires Inv(w) && Enabled(w, DeliverSeed(id, sender, seed))
    ensures Inv(Apply(w, DeliverSeed(id, sender, seed)))
  {
    var n := w.nodes[id];
    assert PacketOk(w.owner, w.log, SeedPacket(sender, seed));
    var m := Adopt(n.member, sender, seed);
    var ready := From(sender, m.pending);
    FilterKeepsAll(sender, m.pending);
    assert forall x <- ready :: x in multiset(m.pending);
    assert forall x <- Others(sender, m.pending) :: x in multiset(m.pending);
    FlushedIsAuthentic(w, sender, m.peers[sender], ready);
    ChainAfterKeepsSeed(m.peers[sender], ready);
    NodeStep(w, id, n.(member := Flush(m, sender), shown := n.shown + FlushShown(m, sender)));
  }

  /** A new seed, on a new node or on an old one. */
  lemma SeedStep(w: World, id: nat, n: Node, seed: Key)
    requires Inv(w) && FreshSeed(w, seed)
    requires n.member.mine == NewChain(seed) && NodeOk(w.owner[seed := n.member.nick], w.log, n)
    ensures Inv(w.(nodes := w.nodes[id := n], owner := w.owner[seed := n.member.nick]))
  {
    var owner' := w.owner[seed := n.member.nick];
    assert w.log + [] == w.log;
    forall i <- w.nodes ensures NodeOk(owner', w.log, w.nodes[i]) {
      NodeOkGrows(w.owner, owner', w.log, [], w.nodes[i]);
    }
    forall p <- w.wire ensures PacketOk(owner', w.log, p) {
      PacketOkGrows(w.owner, owner', w.log, [], p);
    }
    forall r <- w.log ensures RecordOk(owner', r) && r.seed != seed {
      assert RecordOk(w.owner, r);
    }
  }

  lemma EpochKeeps(w: World, id: nat, seed: Key)
    requires Inv(w) && Enabled(w, Epoch(id, seed))
    ensures Inv(Apply(w, Epoch(id, seed)))
  {
    var n := w.nodes[id];
    var m := OnEpoch(n.member, seed);
    assert w.log + [] == w.log;
    NodeOkGrows(w.owner, w.owner[seed := m.nick], w.log, [], n);
    SeedStep(w, id, n.(member := m, outbox := Offered(n.outbox, Offer(m))), seed);
  }

  /** A write that seals nothing: only the outbox and the wire change. */
  lemma QuietWriteKeeps(w: World, id: nat, blocked: bool, nonce: nat)
    requires Inv(w) && Enabled(w, WriteOut(id, blocked, nonce))
    requires NewRecords(w.nodes[id].member, w.nodes[id].outbox[0], blocked, nonce) == []
    ensures Inv(Apply(w, WriteOut(id, blocked, nonce)))
  {
    var n := w.nodes[id];
    assert w.log + [] == w.log;
    NodeStep(w, id, n.(outbox := n.outbox[1..]));
  }

  lemma FreshKey(log: seq<Record>, c: Chain, r: Record)
    requires KeysFresh(log) && Ahead(log, c) && r.seed == c.seed && r.step == c.next
    ensures KeysFresh(log + [r]) && Ahead(log + [r], AfterNext(c))
  {
    forall i | 0 <= i < |log| ensures log[i] in log {}
  }

  /** A longer log takes nothing away from the nodes and packets there are. */
  lemma LongerLog(w: World, r: Record)
    requires Inv(w)
    ensures forall i <- w.nodes :: NodeOk(w.owner, w.log + [r], w.nodes[i])
    ensures forall p <- w.wire :: PacketOk(w.owner, w.log + [r], p)
  {
    forall i <- w.nodes ensures NodeOk(w.owner, w.log + [r], w.nodes[i]) {
      NodeOkGrows(w.owner, w.owner, w.log, [r], w.nodes[i]);
    }
    forall p <- w.wire ensures PacketOk(w.owner, w.log + [r], p) {
      PacketOkGrows(w.owner, w.owner, w.log, [r], p);
    }
  }

  /** One more sealing, at the step the own chain of the node then leaves behind. */
  lemma SealingStep(w: World, id: nat, n: Node, r: Record, p: Packet)
    requires Inv(w) && id in w.nodes && RecordOk(w.owner, r)
    requires r.seed == w.nodes[id].member.mine.seed && r.step == w.nodes[id].member.mine.next
    requires n.member.mine == AfterNext(w.nodes[id].member.mine)
    requires NodeOk(w.owner, w.log + [r], n) && PacketOk(w.owner, w.log + [r], p)
    ensures Inv(w.(nodes := w.nodes[id := n], wire := w.wire + {p}, log := w.log + [r]))
  {
    LongerLog(w, r);
    FreshKey(w.log, w.nodes[id].member.mine, r);
    forall i <- w.nodes | i != id ensures Ahead(w.log + [r], w.nodes[i].member.mine) {
      assert Ahead(w.log, w.nodes[i].member.mine);
    }
  }

  /** A write that seals a text. */
  lemma SealingWriteKeeps(w: World, id: nat, blocked: bool, nonce: nat)
    requires Inv(w) && Enabled(w, WriteOut(id, blocked, nonce))
    requires NewRecords(w.nodes[id].member, w.nodes[id].outbox[0], blocked, nonce) != []
    ensures Inv(Apply(w, WriteOut(id, blocked, nonce)))
  {
    var n := w.nodes[id];
    var o := n.outbox[0];
    var r := NewRecords(n.member, o, blocked, nonce)[0];
    var n' := n.(member := AfterWrite(n.member, o, blocked), outbox := n.outbox[1..]);
    NodeOkGrows(w.owner, w.owner, w.log, [r], n);
    assert (w.log + [r])[|w.log|] == r && Logged(w.log + [r], r.ct);
    SealingStep(w, id, n', r, Written(n.member, o, blocked, nonce).value);
  }

  /** Every step of a run keeps the invariant. */
  lemma StepKeeps(w: World, s: Step)
    requires Inv(w) && Enabled(w, s)
    ensures Inv(Apply(w, s))
  {
    match s
    case Join(id, nick, seed) => SeedStep(w, id, Node(Member(nick, 1, NewChain(seed), map[], []), [], []), seed);
    case Leave(id) =>
    case Epoch(id, seed) => EpochKeeps(w, id, seed);
    case Republish(id) =>
      var n := w.nodes[id];
      NodeStep(w, id, n.(outbox := Offered(n.outbox, Offer(n.member))));
    case Compose(id, o) =>
      var n := w.nodes[id];
      NodeStep(w, id, n.(outbox := n.outbox + [o]));
    case WriteOut(id, blocked, nonce) =>
      if NewRecords(w.nodes[id].member, w.nodes[id].outbox[0], blocked, nonce) == [] {
        QuietWriteKeeps(w, id, blocked, nonce);
      } else {
        SealingWriteKeeps(w, id, blocked, nonce);
      }
    case DeliverSeed(id, sender, seed) => DeliverSeedKeeps(w, id, sender, seed);
    case DeliverText(id, msg) => DeliverTextKeeps(w, id, msg);
  }

  // The theorems -------------------------------------------------------------------------------

  ghost predicate IsRun(steps: seq<Step>, w: World)
    decreases |steps|
  {
    if steps == [] then w == START
    else
      var last := |steps| - 1;
      exists v :: IsRun(steps[..last], v) && Enabled(v, steps[last]) && w == Apply(v, steps[last])
  }

  lemma {:induction false} RunsKeepInv(steps: seq<Step>, w: World)
    requires IsRun(steps, w)
    ensures Inv(w)
    decreases |steps|
  {
    if steps != [] {
      var last := |steps| - 1;
      var v :| IsRun(steps[..last], v) && Enabled(v, steps[last]) && w == Apply(v, steps[last]);
      RunsKeepInv(steps[..last], v);
      StepKeeps(v, steps[last]);
    }
  }

  /**
    Group authenticity: in every run, whatever any member was shown as decrypted was sealed, as
    that text, by the member it names as sender and at the step it names, although the hub may
    rewrite both and the sealing binds neither.
   */
  lemma GroupAuthenticity(steps: seq<Step>, w: World, id: nat, s: Shown)
    requires IsRun(steps, w) && id in w.nodes && s in w.nodes[id].shown && s.Opened?
    ensures exists r <- w.log ::
      r.sender == s.msg.sender && r.step == s.msg.step && Encoded(r.ct) == s.msg.content
      && r.ct.Sealed? && r.ct.text == s.text
  {
    RunsKeepInv(steps, w);
    assert NodeOk(w.owner, w.log, w.nodes[id]) && Authentic(w.log, s);
  }

  /** In every run, over all members and epochs together, no key ever seals two texts. */
  lemma NoKeyReuse(steps: seq<Step>, w: World, i: nat, j: nat)
    requires IsRun(steps, w) && i < j < |w.log|
    ensures w.log[i].ct.Sealed? && w.log[j].ct.Sealed? && w.log[i].ct.key != w.log[j].ct.key
  {
    RunsKeepInv(steps, w);
    assert RecordOk(w.owner, w.log[i]) && RecordOk(w.owner, w.log[j]);
    if w.log[i].ct.key == w.log[j].ct.key {
      MessageKeysInjective(w.log[i].seed, w.log[i].step, w.log[j].seed, w.log[j].step);
    }
  }

  /** In every run no member ever holds more than 65 messages back. */
  lemma PendingBounded(steps: seq<Step>, w: World, id: nat)
    requires IsRun(steps, w) && id in w.nodes
    ensures |w.nodes[id].member.pending| <= 65
  {
    RunsKeepInv(steps, w);
    assert NodeOk(w.owner, w.log, w.nodes[id]);
  }
}
