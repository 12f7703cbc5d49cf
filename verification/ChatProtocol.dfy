/**
  What one member of a group room does with the messages of the sender-key protocol
  (internal/client/core.go), as functions on the member's value. `ChatClient` holds the
  object that realises them; `GroupRuns` the runs of many members.
 */
module ChatProtocol {
  import opened Prelude
  import opened Ratchets

  datatype Kind = Chat | FileOffer

  /**
    A chat ciphertext: what sealing `text` under `key` produced, or bytes nobody sealed. Chat
    sealing binds no associated data, so nothing in a ciphertext names its sender or step.
   */
  datatype Cipher = Sealed(key: Key, nonce: nat, text: string) | Junk(raw: bytes)

  function Decrypt(key: Key, ct: Cipher): Option<string> {
    if ct.Sealed? && ct.key == key then Some(ct.text) else None
  }

  /** Message content: the base64 form of a ciphertext, or a string that does not decode. */
  datatype Content = Encoded(ct: Cipher) | Text(text: string)

  datatype Message = Message(kind: Kind, sender: string, e2ee: bool, step: uint32, content: Content)

  /** What a branch of the read loop hands on: to the screen, or for a file offer to the download logic. */
  datatype Shown =
    | Unchanged(msg: Message)             // content as it came
    | Opened(msg: Message, text: string)  // content replaced by the decryption
    | Failed(msg: Message)                // "[decrypt failed]"
    | Waiting(msg: Message)               // "[waiting for sender key]"

  /**
    An entry of the send channel: a seed to publish, a text to encrypt once it is written out, or
    something that passes the sender chain by: a private message, a command, a file message.
   */
  datatype Outgoing = SeedOut(seed: Key) | TextOut(kind: Kind, text: string) | OtherOut(isPrivate: bool, body: string)

  const PENDING_LIMIT := 64

  datatype Member = Member(nick: string, epoch: nat, mine: Chain, peers: map<string, Chain>, pending: seq<Message>)

  /** What publishing puts on offer to the send channel. */
  function Offer(m: Member): seq<Outgoing> {
    if m.mine.seed.Length() > 0 then [SeedOut(m.mine.seed)] else []
  }

  /** Queueing drops the oldest entry once more than PENDING_LIMIT are held. */
  function Push(pending: seq<Message>, msg: Message): (r: seq<Message>)
    ensures |pending| <= PENDING_LIMIT + 1 ==> |r| <= PENDING_LIMIT + 1
    ensures |r| > 0 && r[|r| - 1] == msg
  {
    (if |pending| > PENDING_LIMIT then pending[1..] else pending) + [msg]
  }

  function From(nick: string, pending: seq<Message>): seq<Message> {
    if pending == [] then []
    else if pending[0].sender == nick then [pending[0]] + From(nick, pending[1..])
    else From(nick, pending[1..])
  }

  function Others(nick: string, pending: seq<Message>): seq<Message> {
    if pending == [] then []
    else if pending[0].sender == nick then Others(nick, pending[1..])
    else [pending[0]] + Others(nick, pending[1..])
  }

  /** Asking for a message's key and opening it: the outcome, when a key was given. */
  function Open(c: Chain, msg: Message): Option<Option<string>>
    requires msg.content.Encoded?
  {
    var k := KeyFor(c, msg.step);
    if k.None? then None else Some(Decrypt(k.value, msg.content.ct))
  }

  /** The chain after the queued messages were tried in order. */
  function ChainAfter(c: Chain, ready: seq<Message>): Chain
    decreases |ready|
  {
    if ready == [] then c
    else ChainAfter(if ready[0].content.Encoded? then AfterGet(c, ready[0].step) else c, ready[1..])
  }

  /** The queued messages that opened, in order; the others vanish. */
  function OpenAll(c: Chain, ready: seq<Message>): seq<Shown>
    decreases |ready|
  {
    if ready == [] then []
    else if !ready[0].content.Encoded? then OpenAll(c, ready[1..])
    else
      var r := Open(c, ready[0]);
      (if r.Some? && r.value.Some? then [Opened(ready[0], r.value.value)] else [])
      + OpenAll(AfterGet(c, ready[0].step), ready[1..])
  }

  function Flush(m: Member, nick: string): Member {
    var rest := m.(pending := Others(nick, m.pending));
    if nick !in m.peers then rest
    else rest.(peers := m.peers[nick := ChainAfter(m.peers[nick], From(nick, m.pending))])
  }

  function FlushShown(m: Member, nick: string): seq<Shown> {
    if nick !in m.peers then [] else OpenAll(m.peers[nick], From(nick, m.pending))
  }

  /** An EPOCH message: a fresh own chain and no peers. What is pending stays. */
  function OnEpoch(m: Member, seed: Key): Member {
    m.(epoch := (m.epoch + 1) % 0x1_0000_0000_0000_0000, mine := NewChain(seed), peers := map[])
  }

  /** A SENDER_KEY message of another member, before what waits for it is tried. */
  function Adopt(m: Member, sender: string, seed: Key): Member {
    m.(peers := m.peers[sender := NewChain(seed)])
  }

  /** Whether a message goes through the sender's chain at all. */
  predicate Sealing(m: Member, msg: Message) {
    msg.e2ee && msg.sender != m.nick && msg.content.Encoded?
  }

  /** The answer of the sender's chain: no key, or the outcome of opening with it. */
  function Answer(m: Member, msg: Message): Option<Option<string>>
    requires Sealing(m, msg)
  {
    if msg.sender in m.peers then Open(m.peers[msg.sender], msg) else None
  }

  function OnMessage(m: Member, msg: Message): Member {
    if !Sealing(m, msg) then m
    else if Answer(m, msg).None? then m.(pending := Push(m.pending, msg))
    else m.(peers := m.peers[msg.sender := AfterGet(m.peers[msg.sender], msg.step)])
  }

  function MessageShown(m: Member, msg: Message): Shown {
    if !Sealing(m, msg) then Unchanged(msg)
    else
      match Answer(m, msg)
      case None => Waiting(msg)
      case Some(None) => Failed(msg)
      case Some(Some(text)) => Opened(msg, text)
  }

  /** A message that has to wait makes the member publish its own seed again. */
  function MessageOffers(m: Member, msg: Message): seq<Outgoing> {
    if Sealing(m, msg) && Answer(m, msg).None? then Offer(m) else []
  }

  /** What goes out on the wire. */
  datatype Packet = SeedPacket(sender: string, seed: Key) | TextPacket(msg: Message) | OtherPacket(body: string)

  /** Chats and private messages are held back while a peer's identity is in dispute; file offers are not. */
  predicate HeldBack(o: Outgoing, blocked: bool) {
    blocked && ((o.TextOut? && o.kind == Chat) || (o.OtherOut? && o.isPrivate))
  }

  /** A text spends the next key of the own chain at the moment it is written out, not when it was queued. */
  function AfterWrite(m: Member, o: Outgoing, blocked: bool): Member {
    if !o.TextOut? || HeldBack(o, blocked) then m else m.(mine := AfterNext(m.mine))
  }

  function Written(m: Member, o: Outgoing, blocked: bool, nonce: nat): Option<Packet> {
    if HeldBack(o, blocked) then None
    else match o
      case SeedOut(seed) => Some(SeedPacket(m.nick, seed))
      case OtherOut(_, body) => Some(OtherPacket(body))
      case TextOut(kind, text) =>
        Some(TextPacket(Message(kind, m.nick, true, m.mine.next % TWO32,
                                Encoded(Sealed(MessageKey(m.mine.seed, m.mine.next), nonce, text)))))
  }

  // Properties of the queue ------------------------------------------------------------------

  /** Flushing loses nothing and invents nothing. */
  lemma {:induction false} FilterKeepsAll(nick: string, s: seq<Message>)
    ensures |From(nick, s)| + |Others(nick, s)| == |s|
    ensures multiset(From(nick, s)) + multiset(Others(nick, s)) == multiset(s)
    ensures forall m <- From(nick, s) :: m.sender == nick
    ensures forall m <- Others(nick, s) :: m.sender != nick
  {
    if s != [] {
      FilterKeepsAll(nick, s[1..]);
      assert s == [s[0]] + s[1..];
    }
  }

  lemma {:induction false} FilterSnoc(nick: string, s: seq<Message>, msg: Message)
    ensures From(nick, s + [msg]) == if msg.sender == nick then From(nick, s) + [msg] else From(nick, s)
    ensures Others(nick, s + [msg]) == if msg.sender == nick then Others(nick, s) else Others(nick, s) + [msg]
  {
    if s == [] {
      assert s + [msg] == [msg];
    } else {
      assert (s + [msg])[0] == s[0] && (s + [msg])[1..] == s[1..] + [msg];
      FilterSnoc(nick, s[1..], msg);
    }
  }

  lemma FilterPrefix(nick: string, s: seq<Message>, k: nat)
    requires k < |s|
    ensures From(nick, s[..k + 1]) == if s[k].sender == nick then From(nick, s[..k]) + [s[k]] else From(nick, s[..k])
    ensures Others(nick, s[..k + 1]) == if s[k].sender == nick then Others(nick, s[..k]) else Others(nick, s[..k]) + [s[k]]
  {
    assert s[..k + 1] == s[..k] + [s[k]];
    FilterSnoc(nick, s[..k], s[k]);
  }

  lemma {:induction false} ChainAfterKeepsSeed(c: Chain, ready: seq<Message>)
    ensures ChainAfter(c, ready).seed == c.seed
    decreases |ready|
  {
    if ready != [] {
      ChainAfterKeepsSeed(if ready[0].content.Encoded? then AfterGet(c, ready[0].step) else c, ready[1..]);
    }
  }

  /** Trying the first message, then the rest. */
  lemma TryCons(c: Chain, s: seq<Message>, i: nat)
    requires i < |s|
    ensures ChainAfter(c, s[i..]) == ChainAfter(ChainAfter(c, [s[i]]), s[i + 1..])
    ensures OpenAll(c, s[i..]) == OpenAll(c, [s[i]]) + OpenAll(ChainAfter(c, [s[i]]), s[i + 1..])
  {
    assert s[i..][1..] == s[i + 1..];
  }

  /** With i of the messages tried, the chain stands at `now`, and `shown` is what was opened. */
  ghost predicate Tried(c: Chain, s: seq<Message>, i: nat, now: Chain, shown: seq<Shown>) {
    i <= |s| && ChainAfter(c, s) == ChainAfter(now, s[i..]) && OpenAll(c, s) == shown + OpenAll(now, s[i..])
  }

  lemma TriedNext(c: Chain, s: seq<Message>, i: nat, now: Chain, shown: seq<Shown>)
    requires i < |s| && Tried(c, s, i, now, shown)
    ensures Tried(c, s, i + 1, ChainAfter(now, [s[i]]), shown + OpenAll(now, [s[i]]))
    ensures ChainAfter(now, [s[i]]).next <= now.next + MAX_SKIP + 1
  {
    TryCons(now, s, i);
  }
}
