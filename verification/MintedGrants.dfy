/** Where minting meets the cache: a returned token is one the authentication system accepts, with the validity it assumes. */
module MintedGrants {
  import opened CacheTtl
  import AuthService
  import TokenMint

  /** The hand-over of a minted token to the coroutine that waits for it. */
  function Handover(c: nat, p: TokenMint.Phase): AuthService.Action
    requires p.Minted?
  {
    AuthService.MintDone(c, p.token, p.expiresAt, p.providerUntil)
  }

  ghost predicate Meets(mints: TokenMint.State, m: nat, auth: AuthService.State, c: nat) {
    && TokenMint.Reachable(mints) && m < |mints.phases| == |mints.requests| && mints.phases[m].Minted?
    && AuthService.Reachable(auth) && c < |auth.pcs| == |auth.requests| && auth.pcs[c].Minting?
  }

  /** Whatever a mint returns in any of its runs can be handed over, so a run continues to be one with it. */
  lemma MintIsAccepted(mints: TokenMint.State, m: nat, auth: AuthService.State, c: nat)
    requires Meets(mints, m, auth, c)
    ensures AuthService.Enabled(auth, Handover(c, mints.phases[m]))
    ensures AuthService.Reachable(AuthService.Apply(auth, Handover(c, mints.phases[m])))
  {
    TokenMint.ReturnedInTime(mints, m);
    AuthService.ReachableStep(auth, Handover(c, mints.phases[m]));
  }

  /**
   A Google token of the minimum lifetime is not only returned: its write begins with a positive TTL and can land at once,
   leaving an entry with the token that lives for that TTL.
   */
  lemma GoogleTokenIsWritten(mints: TokenMint.State, m: nat, auth: AuthService.State, c: nat, lifetime: int)
    requires Meets(mints, m, auth, c) && mints.requests[m].kind == TokenMint.GcpWif && auth.now == mints.phases[m].at
    requires lifetime >= GCP_MIN_LIFETIME_SECONDS && auth.cacheDuration >= 1 && auth.requests[c].raw != ""
    requires mints.phases[m].providerUntil >= mints.phases[m].startedAt + lifetime as real
    ensures AuthService.Enabled(auth, Handover(c, mints.phases[m]))
    ensures var t := AuthService.Apply(auth, Handover(c, mints.phases[m]));
            && AuthService.Enabled(t, AuthService.Land(c))
            && var landed := AuthService.Apply(t, AuthService.Land(c));
            var k := AuthService.KeyOf(auth, c);
            && AuthService.Live(landed, k) && landed.cache[k].grant.apiKey == mints.phases[m].token
            && landed.cache[k].until - landed.now >= Min(auth.cacheDuration, lifetime - 67) as real > 0.0
  {
    MintIsAccepted(mints, m, auth, c);
    TokenMint.GcpMintIsCached(mints, m, auth.cacheDuration, lifetime);
    hide EffectiveCacheTtl, TokenMint.Reachable, AuthService.Reachable, AuthService.KeyAt;
  }
}
