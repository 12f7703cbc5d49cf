/**
  Per-sender chains of a group room (internal/crypto/sender.go), on the heap.

  `myChain` and the entry for the member's own nick are one object; every other entry is an
  object of its own.
 */
module SenderKeys {
  import opened Prelude
  import opened Ratchets

  type uint64 = x: nat | x < 0x1_0000_0000_0000_0000

  class SenderState {
    var chains: map<string, Ratchet>
    const myNick: string
    var myChain: Ratchet?
    var epoch: uint64

    /** Every ratchet is filed under the nick it was made for. */
    ghost predicate Valid()
      reads this, chains.Values, myChain
    {
      && (myChain != null ==> myChain.Valid() && myChain.owner == myNick)
      && (forall n <- chains :: chains[n].owner == n && chains[n].Valid())
    }

    /** The own nick's entry is `myChain` itself. */
    ghost predicate Aliased()
      reads this
    {
      myChain != null && myNick in chains && chains[myNick] == myChain
    }

    /** Hence no two nicks share a ratchet, and only the own nick's entry can be `myChain`. */
    lemma DistinctRatchets()
      requires Valid()
      ensures forall n, m | n in chains && m in chains && n != m :: chains[n] != chains[m]
      ensures forall n <- chains | chains[n] == myChain :: n == myNick
    {
    }

    constructor (nick: string, epoch: uint64, seed: Key)
      ensures Valid() && myNick == nick && this.epoch == epoch
      ensures fresh(chains.Values) && (myChain != null ==> fresh(myChain))
      ensures Aliased() <==> seed.Length() > 0
      ensures seed.Length() > 0 ==> chains.Keys == {nick} && myChain.chain == NewChain(seed)
      ensures seed.Length() == 0 ==> chains == map[] && myChain == null
    {
      myNick := nick;
      this.epoch := epoch;
      chains := map[];
      myChain := null;
      new;
      if seed.Length() > 0 {
        myChain := new Ratchet(seed, nick);
        chains := chains[nick := myChain];
      }
    }

    /** Drops every peer. An empty seed also takes the old own chain out of the table, but keeps it. */
    method ResetEpoch(epoch: uint64, mySeed: Key)
      requires Valid()
      modifies this
      ensures Valid() && this.epoch == epoch
      ensures Aliased() <==> mySeed.Length() > 0
      ensures mySeed.Length() > 0 ==> chains.Keys == {myNick} && fresh(myChain) && myChain.chain == NewChain(mySeed)
      ensures mySeed.Length() == 0 ==> chains == map[] && myChain == old(myChain)
    {
      this.epoch := epoch;
      chains := map[];
      if mySeed.Length() > 0 {
        myChain := new Ratchet(mySeed, myNick);
        chains := chains[myNick := myChain];
      }
    }

    /** Replaces one entry and moves no existing ratchet. Adopting under the own nick breaks the aliasing. */
    method AdoptPeer(nick: string, seed: Key)
      requires Valid()
      modifies this`chains
      ensures Valid() && nick in chains && fresh(chains[nick])
      ensures chains == old(chains)[nick := chains[nick]] && chains[nick].chain == NewChain(seed)
      ensures Aliased() <==> old(Aliased()) && nick != myNick
    {
      var r := new Ratchet(seed, nick);
      chains := chains[nick := r];
    }

    /** Always the seed of the current own chain, wherever that chain has moved since. */
    method ExportMySeed() returns (seed: Option<Key>)
      requires Valid()
      ensures seed == if myChain == null then None else Some(myChain.chain.seed)
    {
      if myChain == null {
        return None;
      }
      var k := myChain.GetInitialKey();
      seed := Some(k);
    }

    /** Moves the own chain and, by its frame, no other. */
    method NextSend() returns (key: Option<Key>, step: uint32)
      requires Valid()
      requires myChain != null ==> myChain.step < MAX_STEP
      modifies myChain
      ensures Valid()
      ensures key.None? <==> myChain == null
      ensures myChain != null ==> var c := old(myChain.chain);
        myChain.chain == AfterNext(c) && step == c.next && key == Some(MessageKey(c.seed, c.next))
    {
      if myChain == null {
        return None, 0;
      }
      var k, st := myChain.Next();
      key, step := Some(k), st;
    }

    /** Moves the named chain and, by its frame, no other; under the own nick that is the sending chain. */
    method Recv(nick: string, step: uint32) returns (mk: Option<Key>)
      requires Valid()
      requires nick in chains ==> chains[nick].step + MAX_SKIP < MAX_STEP
      modifies if nick in chains then {chains[nick]} else {}
      ensures Valid()
      ensures nick !in chains ==> mk == None
      ensures nick in chains ==> var c := old(chains[nick].chain);
        chains[nick].chain == AfterGet(c, step) && mk == KeyFor(c, step)
    {
      if nick !in chains {
        return None;
      }
      mk := chains[nick].GetMessageKey(step);
    }
  }
}
