/**
  The client object of internal/client/core.go, as far as the sender-key protocol goes.

  `pendingDecrypt` is a slice: a window lo..hi of a backing array that appending may outgrow and
  that flushing compacts in place.
 */
module ChatClient {
  import opened Prelude
  import opened Ratchets
  import opened SenderKeys
  import opened IdentityPins
  import opened Slices
  import opened ChatProtocol

  /** queuePending: beyond the limit the oldest message makes room. */
  method QueuePending(pending: Slice<Message>, msg: Message)
    requires pending.Valid()
    modifies pending, pending.buf
    ensures pending.Valid() && (pending.buf == old(pending.buf) || fresh(pending.buf))
    ensures pending.Contents() == Push(old(pending.Contents()), msg)
  {
    if pending.Len() > PENDING_LIMIT {
      pending.DropFirst();
    }
    pending.Append(msg);
  }

  /**
    The first half of flushPending splits the queue by sender, writing the messages it keeps back
    into the very array being read: the write position never passes the read position.
   */
  method TakePending(pending: Slice<Message>, nick: string) returns (ready: seq<Message>)
    requires pending.Valid()
    modifies pending`hi, pending.buf
    ensures pending.Valid() && ready == From(nick, old(pending.Contents()))
    ensures pending.Contents() == Others(nick, old(pending.Contents()))
  {
    ready := [];
    var left := 0;
    ghost var all := pending.Contents();
    for k := 0 to pending.Len()
      invariant pending.Valid() && pending.Len() == |all| && left <= k
      invariant pending.Contents()[..left] == Others(nick, all[..k]) && ready == From(nick, all[..k])
      invariant pending.Contents()[k..] == all[k..]
    {
      var m := pending.At(k);
      ghost var cur := pending.Contents();
      assert m == cur[k..][0] == all[k..][0];
      FilterPrefix(nick, all, k);
      if m.sender != nick {
        pending.Put(left, m);
        left := left + 1;
        Compacted(cur, all, left - 1, k);
      } else {
        ready := ready + [m];
        Compacted(cur, all, left, k);
      }
    }
    assert all[..|all|] == all;
    pending.Truncate(left);
  }

  lemma Compacted(cur: seq<Message>, all: seq<Message>, left: nat, k: nat)
    requires left <= k < |cur| == |all| && cur[k..] == all[k..]
    ensures cur[k + 1..] == all[k + 1..] && cur[k] == all[k]
    ensures cur[left := cur[k]][..left + 1] == cur[..left] + [all[k]]
    ensures cur[left := cur[k]][k + 1..] == all[k + 1..]
  {
    assert cur[k] == cur[k..][0] == all[k..][0];
    assert cur[k + 1..] == cur[k..][1..] && all[k + 1..] == all[k..][1..];
  }

  class Client {
    const nickname: string
    const senders: SenderState
    const identityStore: IdentityStore
    const pendingDecrypt: Slice<Message>

    /** The chains of the member stand at these values; the own chain is the one in the table. */
    ghost predicate ChainsAre(mine: Chain, peers: map<string, Chain>)
      reads senders, senders.chains.Values, senders.myChain
    {
      && senders.Valid() && senders.Aliased() && senders.myNick == nickname
      && mine == senders.myChain.chain
      && nickname !in peers && (forall n :: n in senders.chains <==> n in peers || n == nickname)
      && (forall n <- peers :: senders.chains[n].chain == peers[n])
    }

    ghost predicate PendingIs(pending: seq<Message>)
      reads pendingDecrypt, pendingDecrypt.buf
    {
      pendingDecrypt.Valid() && pending == pendingDecrypt.Contents()
    }

    /** The object is in state m. */
    ghost predicate Is(m: Member)
      reads pendingDecrypt, pendingDecrypt.buf, senders, senders.chains.Values, senders.myChain
    {
      && m.nick == nickname && m.epoch == senders.epoch
      && ChainsAre(m.mine, m.peers) && PendingIs(m.pending)
    }

    constructor (nick: string, seed: Key, identityStore: IdentityStore)
      requires seed.Length() > 0
      ensures Is(Member(nick, 1, NewChain(seed), map[], []))
      ensures this.identityStore == identityStore
    {
      nickname := nick;
      senders := new SenderState(nick, 1, seed);
      this.identityStore := identityStore;
      var empty := new Message[0];
      pendingDecrypt := new Slice(empty);
    }

    method PublishSenderKey(ghost m: Member) returns (offers: seq<Outgoing>)
      requires Is(m)
      ensures offers == Offer(m)
    {
      var seed := senders.ExportMySeed();
      if seed.None? || seed.value.Length() == 0 {
        return [];
      }
      offers := [SeedOut(seed.value)];
    }

    /** Asks the sender's chain for one queued message's key and opens it; whatever fails is dropped. */
    method TryOne(nick: string, m: Message) returns (shown: seq<Shown>)
      requires senders.Valid()
      requires nick in senders.chains ==> senders.chains[nick].step + MAX_SKIP < MAX_STEP
      modifies if nick in senders.chains then {senders.chains[nick]} else {}
      ensures senders.Valid()
      ensures nick !in senders.chains ==> shown == []
      ensures nick in senders.chains ==>
        && senders.chains[nick].chain == ChainAfter(old(senders.chains[nick].chain), [m])
        && shown == OpenAll(old(senders.chains[nick].chain), [m])
    {
      shown := [];
      if m.content.Text? {
        return;
      }
      var mk := senders.Recv(nick, m.step);
      if mk.Some? {
        var pt := Decrypt(mk.value, m.content.ct);
        if pt.Some? {
          shown := [Opened(m, pt.value)];
        }
      }
    }

    method TryReady(nick: string, ready: seq<Message>) returns (shown: seq<Shown>)
      requires senders.Valid()
      requires nick in senders.chains ==> senders.chains[nick].step + (MAX_SKIP + 1) * (|ready| + 1) < MAX_STEP
      modifies if nick in senders.chains then {senders.chains[nick]} else {}
      ensures senders.Valid()
      ensures nick !in senders.chains ==> shown == []
      ensures nick in senders.chains ==>
        && senders.chains[nick].chain == ChainAfter(old(senders.chains[nick].chain), ready)
        && shown == OpenAll(old(senders.chains[nick].chain), ready)
    {
      shown := [];
      ghost var c := if nick in senders.chains then senders.chains[nick].chain else NewChain(Raw([]));
      for i := 0 to |ready|
        invariant senders.Valid()
        invariant nick !in senders.chains ==> shown == []
        invariant nick in senders.chains ==>
          && senders.chains[nick].step + (MAX_SKIP + 1) * (|ready| + 1 - i) < MAX_STEP
          && Tried(c, ready, i, senders.chains[nick].chain, shown)
      {
        if nick in senders.chains {
          TriedNext(c, ready, i, senders.chains[nick].chain, shown);
        }
        var more := TryOne(nick, ready[i]);
        shown := shown + more;
      }
    }

    method TryPeer(nick: string, ready: seq<Message>, ghost mine: Chain, ghost peers: map<string, Chain>)
      returns (shown: seq<Shown>)
      requires ChainsAre(mine, peers) && nick != nickname
      requires nick in peers ==> peers[nick].next + (MAX_SKIP + 1) * (|ready| + 1) < MAX_STEP
      modifies if nick in senders.chains then {senders.chains[nick]} else {}
      ensures ChainsAre(mine, if nick in peers then peers[nick := ChainAfter(peers[nick], ready)] else peers)
      ensures shown == if nick in peers then OpenAll(peers[nick], ready) else []
    {
      shown := TryReady(nick, ready);
      if nick in peers {
        forall n <- peers | n != nick ensures senders.chains[n].chain == peers[n] {
          assert senders.chains[n] != senders.chains[nick];
        }
      }
    }

    /** Trying messages moves that chain and leaves the queue alone. */
    method TryTaken(nick: string, ready: seq<Message>, ghost m: Member) returns (shown: seq<Shown>)
      requires Is(m) && nick != nickname
      requires nick in m.peers ==> m.peers[nick].next + (MAX_SKIP + 1) * (|ready| + 1) < MAX_STEP
      modifies if nick in senders.chains then {senders.chains[nick]} else {}
      ensures ChainsAre(m.mine, if nick in m.peers then m.peers[nick := ChainAfter(m.peers[nick], ready)] else m.peers)
      ensures PendingIs(m.pending) && senders.epoch == m.epoch
      ensures shown == if nick in m.peers then OpenAll(m.peers[nick], ready) else []
    {
      shown := TryPeer(nick, ready, m.mine, m.peers);
    }

    /** Taking messages out of the queue leaves the chains alone. */
    method TakeReady(nick: string, ghost m: Member) returns (ready: seq<Message>)
      requires Is(m)
      modifies pendingDecrypt`hi, pendingDecrypt.buf
      ensures Is(m.(pending := Others(nick, m.pending))) && ready == From(nick, m.pending)
    {
      ready := TakePending(pendingDecrypt, nick);
    }

    method FlushPending(nick: string, ghost m: Member) returns (shown: seq<Shown>)
      requires Is(m) && nick != nickname
      requires nick in m.peers ==> m.peers[nick].next + (MAX_SKIP + 1) * (|m.pending| + 1) < MAX_STEP
      modifies pendingDecrypt`hi, pendingDecrypt.buf, if nick in senders.chains then {senders.chains[nick]} else {}
      ensures Is(Flush(m, nick)) && shown == FlushShown(m, nick)
    {
      FilterKeepsAll(nick, m.pending);
      var ready := TakeReady(nick, m);
      shown := TryTaken(nick, ready, m.(pending := Others(nick, m.pending)));
    }

    /** EPOCH: a fresh seed for a new own chain, all peers forgotten, the seed published. */
    method OnEpoch(seed: Key, ghost m: Member) returns (offers: seq<Outgoing>)
      requires Is(m) && seed.Length() > 0
      modifies senders
      ensures Is(ChatProtocol.OnEpoch(m, seed)) && offers == Offer(ChatProtocol.OnEpoch(m, seed))
    {
      var e := senders.epoch;
      senders.ResetEpoch(if e == 0xFFFF_FFFF_FFFF_FFFF then 0 else e + 1, seed);
      offers := PublishSenderKey(ChatProtocol.OnEpoch(m, seed));
    }

    method AdoptPeer(sender: string, seed: Key, ghost m: Member)
      requires Is(m) && sender != nickname
      modifies senders`chains
      ensures Is(Adopt(m, sender, seed)) && fresh(senders.chains[sender])
    {
      senders.AdoptPeer(sender, seed);
    }

    /**
      SENDER_KEY: adopt the seed, then try what was waiting for it. A seed that does not decode is
      ignored, and the own one coming back is not adopted.
     */
    method OnSenderKey(sender: string, seed: Option<Key>, ghost m: Member) returns (shown: seq<Shown>)
      requires Is(m)
      requires (MAX_SKIP + 1) * (|m.pending| + 1) < MAX_STEP
      modifies senders`chains, pendingDecrypt`hi, pendingDecrypt.buf
      ensures var adopts := sender != nickname && seed.Some?;
        && Is(if adopts then Flush(Adopt(m, sender, seed.value), sender) else m)
        && shown == if adopts then FlushShown(Adopt(m, sender, seed.value), sender) else []
    {
      if sender == nickname || seed.None? {
        return [];
      }
      AdoptPeer(sender, seed.value, m);
      shown := FlushPending(sender, Adopt(m, sender, seed.value));
    }

    method Ask(sender: string, step: uint32, ghost mine: Chain, ghost peers: map<string, Chain>) returns (mk: Option<Key>)
      requires ChainsAre(mine, peers) && sender != nickname
      requires sender in peers ==> peers[sender].next + MAX_SKIP < MAX_STEP
      modifies if sender in senders.chains then {senders.chains[sender]} else {}
      ensures mk == if sender in peers then KeyFor(peers[sender], step) else None
      ensures ChainsAre(mine, if sender in peers then peers[sender := AfterGet(peers[sender], step)] else peers)
    {
      mk := senders.Recv(sender, step);
      if sender in peers {
        forall n <- peers | n != sender ensures senders.chains[n].chain == peers[n] {
          assert senders.chains[n] != senders.chains[sender];
        }
      }
    }

    method NextKey(ghost mine: Chain, ghost peers: map<string, Chain>) returns (mk: Key, step: uint32)
      requires ChainsAre(mine, peers) && mine.next < MAX_STEP
      modifies senders.myChain
      ensures ChainsAre(AfterNext(mine), peers)
      ensures step == mine.next && mk == MessageKey(mine.seed, mine.next)
    {
      var k, s := senders.NextSend();
      mk, step := k.value, s;
    }

    /** No key yet: the message waits, and the own seed is offered again. */
    method Park(msg: Message, ghost m: Member) returns (offers: seq<Outgoing>)
      requires Is(m)
      modifies pendingDecrypt, pendingDecrypt.buf
      ensures Is(m.(pending := Push(m.pending, msg))) && offers == Offer(m)
    {
      QueuePending(pendingDecrypt, msg);
      offers := PublishSenderKey(m.(pending := Push(m.pending, msg)));
    }

    method OnSealed(msg: Message, ghost m: Member) returns (shown: Shown, offers: seq<Outgoing>)
      requires Is(m) && Sealing(m, msg)
      requires msg.sender in m.peers ==> m.peers[msg.sender].next + MAX_SKIP < MAX_STEP
      modifies pendingDecrypt, pendingDecrypt.buf,
               if msg.sender in senders.chains then {senders.chains[msg.sender]} else {}
      ensures Is(ChatProtocol.OnMessage(m, msg))
      ensures shown == MessageShown(m, msg) && offers == MessageOffers(m, msg)
    {
      var mk := Ask(msg.sender, msg.step, m.mine, m.peers);
      if mk.None? {
        shown := Waiting(msg);
        offers := Park(msg, m);
        return;
      }
      var pt := Decrypt(mk.value, msg.content.ct);
      shown, offers := if pt.Some? then Opened(msg, pt.value) else Failed(msg), [];
    }

    /** CHAT or FILE_OFFER: opened, failed, or queued with a request for the sender's seed to come again. */
    method OnMessage(msg: Message, ghost m: Member) returns (shown: Shown, offers: seq<Outgoing>)
      requires Is(m)
      requires msg.sender in m.peers ==> m.peers[msg.sender].next + MAX_SKIP < MAX_STEP
      modifies pendingDecrypt, pendingDecrypt.buf,
               if msg.sender in senders.chains then {senders.chains[msg.sender]} else {}
      ensures Is(ChatProtocol.OnMessage(m, msg))
      ensures shown == MessageShown(m, msg) && offers == MessageOffers(m, msg)
    {
      if !msg.e2ee || msg.sender == nickname || msg.content.Text? {
        return Unchanged(msg), [];
      }
      shown, offers := OnSealed(msg, m);
    }

    /** One turn of the write loop. The disputes are looked at before the message is sealed. */
    method Write(o: Outgoing, nonce: nat, ghost m: Member) returns (packet: Option<Packet>)
      requires Is(m) && (o.TextOut? ==> m.mine.next < MAX_STEP)
      modifies senders.myChain
      ensures var blocked := old(identityStore.View()).mismatch != map[];
        Is(AfterWrite(m, o, blocked)) && packet == Written(m, o, blocked, nonce)
    {
      if (o.TextOut? && o.kind == Chat) || (o.OtherOut? && o.isPrivate) {
        var blocked := identityStore.HasMismatch();
        if blocked {
          return None;
        }
      }
      match o
      case SeedOut(seed) =>
        packet := Some(SeedPacket(nickname, seed));
      case OtherOut(_, body) =>
        packet := Some(OtherPacket(body));
      case TextOut(kind, text) =>
        packet := Seal(kind, text, nonce, m);
    }

    lemma WrittenText(m: Member, kind: Kind, text: string, nonce: nat)
      requires m.mine.next < MAX_STEP
      ensures Written(m, TextOut(kind, text), false, nonce) ==
        Some(TextPacket(Message(kind, m.nick, true, m.mine.next,
                                Encoded(Sealed(MessageKey(m.mine.seed, m.mine.next), nonce, text)))))
    {
    }

    method Seal(kind: Kind, text: string, nonce: nat, ghost m: Member) returns (packet: Option<Packet>)
      requires Is(m) && m.mine.next < MAX_STEP
      modifies senders.myChain
      ensures Is(m.(mine := AfterNext(m.mine)))
      ensures packet == Written(m, TextOut(kind, text), false, nonce)
    {
      WrittenText(m, kind, text, nonce);
      var mk, step := NextKey(m.mine, m.peers);
      packet := Some(TextPacket(Message(kind, nickname, true, step, Encoded(Sealed(mk, nonce, text)))));
    }
  }
}
