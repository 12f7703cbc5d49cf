/**
  Delivery from end to end: what is written after an epoch opens at whoever has the new seed, what
  comes before the seed waits for it, and what is held back stays at home.
 */
module Delivery {
  import opened Prelude
  import opened Ratchets
  import opened IdentityPins
  import opened ChatProtocol
  import opened Adoptions

  // One chat -----------------------------------------------------------------------------------------

  /**
    What becomes of one chat, in terms of how it was sealed: it is none of the chain's business, it
    waits and the own seed is offered, it opens, or it fails; in the last two cases it spends its step.
   */
  lemma ChatOutcome(m: Member, msg: Message)
    ensures var m', shown, offers := OnMessage(m, msg), MessageShown(m, msg), MessageOffers(m, msg);
      if !msg.e2ee || msg.sender == m.nick || msg.content.Text? then
        m' == m && shown == Unchanged(msg) && offers == []
      else if msg.sender !in m.peers || !Grants(m.peers[msg.sender], msg.step) then
        && shown == Waiting(msg) && (m.mine.seed.Length() > 0 ==> offers == [SeedOut(m.mine.seed)])
        && m' == m.(pending := m'.pending) && |m'.pending| > 0 && m'.pending[|m'.pending| - 1] == msg
      else
        && offers == [] && m'.pending == m.pending && m'.mine == m.mine
        && m'.peers == m.peers[msg.sender := Spend(m.peers[msg.sender], msg.step)]
        && shown == if SealedUnder(m.peers[msg.sender].seed, msg) then Opened(msg, msg.content.ct.text) else Failed(msg)
  {
  }

  // The queue ------------------------------------------------------------------------------------------

  function PushAll(pending: seq<Message>, msgs: seq<Message>): seq<Message>
    decreases |msgs|
  {
    if msgs == [] then pending else Push(PushAll(pending, msgs[..|msgs| - 1]), msgs[|msgs| - 1])
  }

  /** However many messages have to wait, the newest 65 do, in order of arrival. */
  lemma {:induction false} NewestWait(msgs: seq<Message>)
    ensures PushAll([], msgs) == if |msgs| <= 65 then msgs else msgs[|msgs| - 65..]
    decreases |msgs|
  {
    if msgs != [] {
      var before := msgs[..|msgs| - 1];
      NewestWait(before);
      assert msgs == before + [msgs[|msgs| - 1]];
      if |before| >= 65 {
        assert before[|before| - 65..][1..] + [msgs[|msgs| - 1]] == msgs[|msgs| - 65..];
      }
    }
  }

  lemma {:induction false} FromConcat(nick: string, a: seq<Message>, b: seq<Message>)
    ensures From(nick, a + b) == From(nick, a) + From(nick, b)
  {
    if a == [] {
      assert a + b == b;
    } else {
      assert (a + b)[0] == a[0] && (a + b)[1..] == a[1..] + b;
      FromConcat(nick, a[1..], b);
    }
  }

  lemma {:induction false} OthersConcat(nick: string, a: seq<Message>, b: seq<Message>)
    ensures Others(nick, a + b) == Others(nick, a) + Others(nick, b)
  {
    if a == [] {
      assert a + b == b;
    } else {
      assert (a + b)[0] == a[0] && (a + b)[1..] == a[1..] + b;
      OthersConcat(nick, a[1..], b);
    }
  }

  lemma {:induction false} FilterOther(p: string, q: string, s: seq<Message>)
    ensures From(q, Others(p, s)) == if p == q then [] else From(q, s)
  {
    if s != [] { FilterOther(p, q, s[1..]); }
  }

  /** A peer's seed takes that peer's messages out of the queue and leaves every other sender's, in order. */
  lemma SeedTakesItsOwn(m: Member, p: string, seed: Key, q: string)
    requires p != m.nick
    ensures From(q, AfterInput(m, Seed(p, seed)).pending) == if q == p then [] else From(q, m.pending)
  {
    FilterOther(p, q, m.pending);
  }

  // Waiting for a seed -----------------------------------------------------------------------------------

  /** The message waits, no other of its sender is ahead of it, and `room` more can come without pushing it out. */
  ghost predicate WaitsFirst(m: Member, msg: Message, room: int) {
    exists a, b :: FirstBetween(m, msg, a, b) && |b| + room <= PENDING_LIMIT
  }

  ghost predicate FirstBetween(m: Member, msg: Message, a: seq<Message>, b: seq<Message>) {
    m.pending == a + [msg] + b && From(msg.sender, a) == []
  }

  lemma {:induction false} NoneOfTail(p: string, s: seq<Message>)
    requires s != [] && From(p, s) == []
    ensures From(p, s[1..]) == []
  {
  }

  lemma PushKeepsWaiting(m: Member, msg: Message, x: Message, room: nat)
    requires room > 0 && WaitsFirst(m, msg, room)
    ensures WaitsFirst(m.(pending := Push(m.pending, x)), msg, room - 1)
  {
    var a, b :| FirstBetween(m, msg, a, b) && |b| + room <= PENDING_LIMIT;
    var m' := m.(pending := Push(m.pending, x));
    if |m.pending| > PENDING_LIMIT {
      NoneOfTail(msg.sender, a);
      assert m'.pending == a[1..] + [msg] + (b + [x]);
      assert FirstBetween(m', msg, a[1..], b + [x]);
    } else {
      assert m'.pending == a + [msg] + (b + [x]);
      assert FirstBetween(m', msg, a, b + [x]);
    }
  }

  lemma FlushKeepsWaiting(m: Member, q: string, msg: Message, room: int)
    requires q != msg.sender && WaitsFirst(m, msg, room)
    ensures WaitsFirst(Flush(m, q), msg, room)
  {
    var a, b :| FirstBetween(m, msg, a, b) && |b| + room <= PENDING_LIMIT;
    var a', b' := Others(q, a), Others(q, b);
    OthersConcat(q, a + [msg], b);
    OthersConcat(q, a, [msg]);
    FilterKeepsAll(q, b);
    FilterOther(q, msg.sender, a);
    assert Others(q, [msg]) == [msg];
    assert FirstBetween(Flush(m, q), msg, a', b');
  }

  /** How many chats there are among the inputs. */
  function Texts(inputs: seq<Input>): nat {
    if inputs == [] then 0 else (if inputs[0].Text? then 1 else 0) + Texts(inputs[1..])
  }

  function AfterAll(m: Member, inputs: seq<Input>): Member
    decreases |inputs|
  {
    if inputs == [] then m else AfterAll(AfterInput(m, inputs[0]), inputs[1..])
  }

  lemma InputKeepsWaiting(m: Member, i: Input, msg: Message, room: nat)
    requires WaitsFirst(m, msg, room) && !(i.Seed? && i.sender == msg.sender) && (i.Text? ==> room > 0)
    ensures WaitsFirst(AfterInput(m, i), msg, if i.Text? then room - 1 else room)
  {
    var a, b :| FirstBetween(m, msg, a, b) && |b| + room <= PENDING_LIMIT;
    match i
    case Text(x) =>
      PushKeepsWaiting(m, msg, x, room);
      if AfterInput(m, i).pending == m.pending {
        assert FirstBetween(AfterInput(m, i), msg, a, b);
      }
    case Seed(q, seed) =>
      if q != m.nick {
        assert FirstBetween(Adopt(m, q, seed), msg, a, b);
        FlushKeepsWaiting(Adopt(m, q, seed), q, msg, room);
      }
    case Epoch(_) => assert FirstBetween(AfterInput(m, i), msg, a, b);
    case Out(_, _) => assert FirstBetween(AfterInput(m, i), msg, a, b);
  }

  lemma {:induction false} KeepsWaiting(m: Member, inputs: seq<Input>, msg: Message, room: nat)
    requires WaitsFirst(m, msg, room) && Texts(inputs) <= room
    requires forall i <- inputs :: !(i.Seed? && i.sender == msg.sender)
    ensures WaitsFirst(AfterAll(m, inputs), msg, room - Texts(inputs)) && AfterAll(m, inputs).nick == m.nick
    decreases |inputs|
  {
    if inputs != [] {
      assert inputs[0] in inputs && forall i <- inputs[1..] :: i in inputs;
      InputKeepsWaiting(m, inputs[0], msg, room);
      KeepsWaiting(AfterInput(m, inputs[0]), inputs[1..], msg, if inputs[0].Text? then room - 1 else room);
    }
  }

  lemma {:induction false} OpenAllConcat(c: Chain, a: seq<Message>, b: seq<Message>)
    ensures OpenAll(c, a + b) == OpenAll(c, a) + OpenAll(ChainAfter(c, a), b)
    decreases |a|
  {
    if a == [] {
      assert a + b == b;
    } else {
      assert (a + b)[0] == a[0] && (a + b)[1..] == a[1..] + b;
      OpenAllConcat(if a[0].content.Encoded? then AfterGet(c, a[0].step) else c, a[1..], b);
    }
  }

  /** When the seed comes, the first message of its sender opens, before all others, if its step is in the window. */
  lemma FirstWaitingOpens(m: Member, seed: Key, msg: Message)
    requires WaitsFirst(m, msg, 0) && msg.sender != m.nick && SealedUnder(seed, msg)
    ensures var shown := ShownAt(m, Seed(msg.sender, seed));
      msg.step <= MAX_SKIP ==> |shown| > 0 && shown[0] == Opened(msg, msg.content.ct.text)
  {
    var a, b :| FirstBetween(m, msg, a, b) && |b| + 0 <= PENDING_LIMIT;
    var p, c := msg.sender, NewChain(seed);
    FromConcat(p, a + [msg], b);
    FromConcat(p, a, [msg]);
    assert From(p, [msg]) == [msg];
    assert From(p, m.pending) == [msg] + From(p, b);
    OpenAllConcat(c, [msg], From(p, b));
    assert OpenAll(c, [msg]) == if Grants(c, msg.step) then [Opened(msg, msg.content.ct.text)] else [];
  }

  /**
    A chat ahead of its sender's seed is not lost: it comes when the sender's chain does not grant it,
    no other of that sender waits, and up to 64 more chats, other peers' seeds, epochs and own writes
    later the seed it was sealed under comes. Then it opens, before all others, if its step is among
    the first 101.
   */
  lemma EarlyChatIsDelivered(m: Member, msg: Message, seed: Key, inputs: seq<Input>)
    requires Sealing(m, msg) && Answer(m, msg).None? && From(msg.sender, m.pending) == []
    requires SealedUnder(seed, msg) && msg.step <= MAX_SKIP
    requires Texts(inputs) <= PENDING_LIMIT && forall i <- inputs :: !(i.Seed? && i.sender == msg.sender)
    ensures var shown := ShownAt(AfterAll(OnMessage(m, msg), inputs), Seed(msg.sender, seed));
      |shown| > 0 && shown[0] == Opened(msg, msg.content.ct.text)
  {
    var m1 := OnMessage(m, msg);
    var a := m1.pending[..|m1.pending| - 1];
    assert m1.pending == a + [msg] + [];
    if |m.pending| > PENDING_LIMIT { NoneOfTail(msg.sender, m.pending); }
    assert a == if |m.pending| > PENDING_LIMIT then m.pending[1..] else m.pending;
    assert FirstBetween(m1, msg, a, []);
    KeepsWaiting(m1, inputs, msg, PENDING_LIMIT);
    var late := AfterAll(m1, inputs);
    var x, y :| FirstBetween(late, msg, x, y) && |y| + (PENDING_LIMIT - Texts(inputs)) <= PENDING_LIMIT;
    FirstWaitingOpens(late, seed, msg);
  }

  // A new epoch, from the seed to the screen -------------------------------------------------------------

  /** The chats that writing these texts, one after the other, puts on the wire. */
  function Chats(m: Member, outs: seq<Outgoing>, nonce: nat): seq<Input>
    decreases |outs|
  {
    if outs == [] then []
    else
      var p := Written(m, outs[0], false, nonce);
      (if p.Some? && p.value.TextPacket? then [Input.Text(p.value.msg)] else [])
      + Chats(AfterWrite(m, outs[0], false), outs[1..], nonce + 1)
  }

  /** Shown as opened: that text, as of that kind, from that nick. */
  predicate ShowsText(s: Shown, nick: string, o: Outgoing) {
    o.TextOut? && s.Opened? && s.text == o.text && s.msg.kind == o.kind && s.msg.sender == nick
  }

  ghost predicate ShowsTexts(shown: seq<Shown>, nick: string, outs: seq<Outgoing>) {
    |shown| == |outs| && forall i | 0 <= i < |outs| :: ShowsText(shown[i], nick, outs[i])
  }

  lemma OneTextOpens(m: Member, r: Member, o: Outgoing, nonce: nat)
    requires o.TextOut? && m.nick != r.nick && m.mine.Wf() && m.mine.next < TWO32
    requires m.nick in r.peers && r.peers[m.nick] == m.mine
    ensures var p := Written(m, o, false, nonce);
      && p.Some? && p.value.TextPacket? && ShowsText(MessageShown(r, p.value.msg), m.nick, o)
      && var r', m' := OnMessage(r, p.value.msg), AfterWrite(m, o, false);
         && r'.nick == r.nick && m'.nick == m.nick && m'.mine.Wf() && m'.mine.next == m.mine.next + 1
         && m.nick in r'.peers && r'.peers[m.nick] == m'.mine
  {
  }

  lemma ShowsTextsCons(s: Shown, shown: seq<Shown>, nick: string, o: Outgoing, outs: seq<Outgoing>)
    requires ShowsText(s, nick, o) && ShowsTexts(shown, nick, outs)
    ensures ShowsTexts([s] + shown, nick, [o] + outs)
  {
  }

  /** While receiver and sender stand at the same step, every text written opens as that text, in order. */
  lemma {:induction false} TextsOpenInOrder(m: Member, r: Member, outs: seq<Outgoing>, nonce: nat)
    requires m.nick != r.nick && m.mine.Wf() && m.mine.next + |outs| <= TWO32
    requires m.nick in r.peers && r.peers[m.nick] == m.mine
    requires forall o <- outs :: o.TextOut?
    ensures ShowsTexts(Shows(r, Chats(m, outs, nonce)), m.nick, outs)
    decreases |outs|
  {
    if outs != [] {
      var o := outs[0];
      assert o in outs && forall x <- outs[1..] :: x in outs;
      OneTextOpens(m, r, o, nonce);
      var msg := Written(m, o, false, nonce).value.msg;
      var m', r' := AfterWrite(m, o, false), OnMessage(r, msg);
      var rest := Chats(m', outs[1..], nonce + 1);
      TextsOpenInOrder(m', r', outs[1..], nonce + 1);
      assert Chats(m, outs, nonce) == [Input.Text(msg)] + rest;
      assert ([Input.Text(msg)] + rest)[1..] == rest;
      assert Shows(r, Chats(m, outs, nonce)) == [MessageShown(r, msg)] + Shows(r', rest);
      ShowsTextsCons(MessageShown(r, msg), Shows(r', rest), m.nick, o, outs[1..]);
      assert [o] + outs[1..] == outs;
    }
  }

  /**
    An epoch, from end to end: the one thing the member then offers goes out as its new seed under its
    own nick, and whoever gets it, with nothing of that member waiting, is shown every text the
    member writes from then on, in order.
   */
  lemma EpochThenTexts(m: Member, seed: Key, r: Member, blocked: bool, nonce: nat, outs: seq<Outgoing>)
    requires seed.Length() > 0 && m.nick != r.nick && From(m.nick, r.pending) == []
    requires |outs| <= TWO32 && forall o <- outs :: o.TextOut?
    ensures var m1 := OnEpoch(m, seed);
      && |Offer(m1)| == 1 && Written(m1, Offer(m1)[0], blocked, nonce) == Some(SeedPacket(m.nick, seed))
      && AfterWrite(m1, Offer(m1)[0], blocked) == m1
      && ShowsTexts(Shows(AfterInput(r, Seed(m.nick, seed)), Chats(m1, outs, nonce)), m.nick, outs)
  {
    TextsOpenInOrder(OnEpoch(m, seed), AfterInput(r, Seed(m.nick, seed)), outs, nonce);
  }

  // What a dispute holds back ------------------------------------------------------------------------------

  /**
    For every history of checks and trusts, a chat or private message is held back, and spends nothing,
    exactly while some peer's key is in dispute; file offers, seeds and everything else go out regardless.
   */
  lemma DisputeHoldsBack(file: map<string, string>, h: seq<IdentityPins.Event>, m: Member, o: Outgoing, nonce: nat)
    ensures var blocked := IdentityPins.Run(Pins(file, map[]), h).mismatch != map[];
      && (Written(m, o, blocked, nonce) == None
          <==> ((o.TextOut? && o.kind == Chat) || (o.OtherOut? && o.isPrivate))
               && exists nick :: Dispute(file, h, nick).Some?)
      && (Written(m, o, blocked, nonce) == None ==> AfterWrite(m, o, blocked) == m)
      && (o.OtherOut? && !o.isPrivate ==> Written(m, o, blocked, nonce) == Some(OtherPacket(o.body)))
  {
    BlockedIffDisputed(file, h);
  }
}
