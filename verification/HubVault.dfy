/** The vault across membership changes: the token that keys the files outlives every join, leave, kick and epoch. */
module HubVault {
  import opened Prelude
  import opened FileStream
  import opened FileTheorems
  import opened Vault
  import opened VaultTheorems
  import Hub
  import HubRuns

  /**
    A file uploaded under the token the hub has now is downloaded, byte for byte, under the token
    it has after any events, however the membership changed in between; after restarts too if the
    token was saved.
   */
  lemma VaultSurvivesMembership(h: Hub.State, events: seq<Hub.Event>, raw: string -> bytes, s: Suite, name: bytes,
                                nonces: nat -> bytes, data: bytes, files: map<bytes, bytes>,
                                earlier: seq<FileMsg>, traffic: seq<FileMsg>)
    requires h.acl.token != "" && (HubRuns.TokenSaved(h) || forall e <- events :: !e.Restarting?)
    requires s.Lawful() && Nonces(nonces) && Storable(name)
    requires data != [] && |data| <= MAX_UPLOAD
    requires OfName(name, traffic) == Upload(s, raw(h.acl.token), name, nonces, data)
    ensures var token := Hub.Run(h, events).acl.token;
      var got := Get(PutAll(files, earlier + traffic), name);
      got.Some? && Download(s, FileContentKey(s, raw(token), name), name, got.value) == (data, None)
  {
    HubRuns.TokenStable(h, events);
    VaultRoundTrip(s, raw(h.acl.token), name, nonces, data, files, earlier, traffic);
  }
}
