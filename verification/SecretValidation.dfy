/** Host restrictions of secrets. A parsed secret is a stored key or the description of a token to mint. */
module SecretValidation {
  import opened Text
  import CacheKey

  datatype Secret =
    | StoredKey(apiKey: string, storedHost: Option<string>)
    | MintSecret(mintHost: string, federationRoleArn: string)

  datatype ValidationError = TargetUnknown | HostMismatch
  datatype Validated = Ok(secret: Secret) | Rejected(error: ValidationError)

  /** The host restriction; an empty host is no restriction. */
  function Host(secret: Secret): string {
    match secret
    case StoredKey(_, host) => if host.None? then "" else host.value
    case MintSecret(host, _) => host
  }

  function ValidateSecret(secret: Secret, target: Option<string>): Validated {
    if Host(secret) != "" then
      if target.None? || target.value == "" then Rejected(TargetUnknown)
      else if target.value != Host(secret) then Rejected(HostMismatch)
      else Ok(secret)
    else Ok(secret)
  }

  /** The secret may be used for this target. */
  predicate HostAllows(secret: Secret, target: Option<string>) {
    Host(secret) == "" || Host(secret) == CacheKey.TargetText(target)
  }

  /**
   A secret passes exactly when it has no host, or an empty one, or its host is the target; then it passes unchanged.
   Otherwise the error says whether there was a target to compare with.
   */
  lemma ValidateExactly(secret: Secret, target: Option<string>)
    ensures var host := match secret case StoredKey(_, h) => h case MintSecret(h, _) => Some(h);
            var free := host == None || host == Some("");
            && (HostAllows(secret, target) <==> free || target == host)
            && ValidateSecret(secret, target) ==
               (if free || target == host then Ok(secret)
                else Rejected(if target == None || target == Some("") then TargetUnknown else HostMismatch))
  {
  }
}
