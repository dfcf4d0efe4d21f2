/** The tenant API-key guard (src/common/guards/api-key-auth.guard.ts):
    resolves the `x-api-key` header to the tenant attached to the request,
    running its checks in a fixed order where the first failure decides.
 */
module ApiKeyGuard {
  import opened Wrappers
  import opened JsValues
  import opened Store
  import ApiKeysService

  const MissingKey: string := "Missing x-api-key"
  const KeyNotFound: string := "API key not found"
  const KeyInactive: string := "API key inactive"
  const TenantSuspended: string := "Tenant suspended"

  /** `canActivate` on a request whose `x-api-key` header is `header`
      (`Undefined` when absent; Node joins a repeated header into one string
      such as "a, b", which then matches no key). On success the result is
      the tenant attached to the request. */
  function CanActivate(st: Store, header: Value): (r: Result<Tenant>)
    ensures !(header.Str? && header.s != "") ==> r == Err(Unauthorized(MissingKey))
    ensures r.Ok? ==> header.Str? && r.value in st.tenants && !r.value.isSuspended
    ensures r.Ok? ==> exists k :: k in st.apiKeys && k.keyHash == Hash(header.s) && k.isActive && k.tenantId == r.value.id
    ensures r.Err? ==> r.error.Unauthorized? || r.error.Forbidden? || r.error == Unhandled(MissingRelation)
  {
    if !Truthy(header) || TypeOf(header) != "string" then Err(Unauthorized(MissingKey))
    else
      match KeyByHash(st, Hash(header.s))
      case None => Err(Forbidden(KeyNotFound))
      case Some(k) =>
        match TenantById(st, k.tenantId)
        case None => Err(Unhandled(MissingRelation))
        case Some(t) =>
          if !k.isActive then Err(Forbidden(KeyInactive))
          else if t.isSuspended then Err(Forbidden(TenantSuspended))
          else Ok(t)
  }

  /** The decision order of the guard in a valid store, for a non-empty
      string header: no key, then an inactive key (even of a suspended
      tenant), then a suspended owner; otherwise the key's owner. */
  lemma CheckOrder(st: Store, raw: string)
    requires Valid(st)
    requires raw != ""
    ensures (forall k :: k in st.apiKeys ==> k.keyHash != Hash(raw)) ==> CanActivate(st, Str(raw)) == Err(Forbidden(KeyNotFound))
    ensures forall k :: k in st.apiKeys && k.keyHash == Hash(raw) ==>
      && (!k.isActive ==> CanActivate(st, Str(raw)) == Err(Forbidden(KeyInactive)))
      && (k.isActive ==> TenantById(st, k.tenantId).Some?)
      && (k.isActive && TenantById(st, k.tenantId).value.isSuspended ==> CanActivate(st, Str(raw)) == Err(Forbidden(TenantSuspended)))
      && (k.isActive && !TenantById(st, k.tenantId).value.isSuspended ==> CanActivate(st, Str(raw)) == Ok(TenantById(st, k.tenantId).value))
  {
    forall k | k in st.apiKeys && k.keyHash == Hash(raw)
      ensures KeyByHash(st, Hash(raw)) == Some(k) && TenantById(st, k.tenantId).Some?
    {
      ApiKeysService.ValidateApiKeyCharacterized(st, raw, k);
      var i :| 0 <= i < |st.apiKeys| && st.apiKeys[i] == k;
      assert KeyWithHash(k.keyHash)(st.apiKeys[i]);
      assert HasTenant(st, k.tenantId);
    }
  }

  /** The guard admits a non-empty header exactly when `validateApiKey`
      resolves it to a tenant that is not suspended, and attaches that tenant. */
  lemma AgreesWithValidateApiKey(st: Store, raw: string)
    requires Valid(st)
    requires raw != ""
    ensures CanActivate(st, Str(raw)).Ok? <==>
      ApiKeysService.ValidateApiKey(st, raw).Ok? && ApiKeysService.ValidateApiKey(st, raw).value.Some?
      && !ApiKeysService.ValidateApiKey(st, raw).value.value.isSuspended
    ensures CanActivate(st, Str(raw)).Ok? ==>
      ApiKeysService.ValidateApiKey(st, raw) == Ok(Some(CanActivate(st, Str(raw)).value))
  {
    match KeyByHash(st, Hash(raw))
    case None =>
    case Some(k) =>
      ApiKeysService.ValidateApiKeyCharacterized(st, raw, k);
  }
}
