/** Properties that span several services: the store invariant survives
    every insert, a freshly issued key opens the guard for its tenant, and
    suspending a tenant closes the guard on every key it held, even after
    the tenant is reactivated.
 */
module Lifecycle {
  import opened Wrappers
  import opened JsValues
  import opened Text
  import opened Store
  import Keys = ApiKeysService
  import Tenants = TenantsService
  import Users = UsersService
  import ApiKeyGuard

  /** Issuing a key keeps the store valid. */
  lemma GenerateKeepsValid(st: Store, tenantEmail: string, keyId: string, entropy: seq<Byte>)
    requires Valid(st)
    requires Keys.GenerateForTenant(st, tenantEmail, keyId, entropy).Ok?
    ensures Valid(Keys.GenerateForTenant(st, tenantEmail, keyId, entropy).value.0)
  {
    var t := TenantByEmail(st, tenantEmail).value;
    ValidAfterInsertApiKey(st, ApiKey(keyId, Hash(Keys.RawKey(entropy)), t.id, true, st.clock));
  }

  /** Creating a tenant, with or without its first key, keeps the store valid. */
  lemma CreateTenantKeepsValid(st: Store, dto: Tenants.CreateTenantInput, adminUserId: string,
                               tenantId: string, keyId: string, entropy: seq<Byte>)
    requires Valid(st)
    requires Tenants.CreateTenant(st, dto, adminUserId, tenantId, keyId, entropy).Ok?
    ensures Valid(Tenants.CreateTenant(st, dto, adminUserId, tenantId, keyId, entropy).value.0)
  {
    var tenant := Tenant(tenantId, dto.email, dto.plan, false, st.clock);
    ValidAfterInsertTenant(st, tenant);
    var st1 := InsertTenant(st, tenant).value;
    if dto.issueApiKey {
      GenerateKeepsValid(st1, dto.email, keyId, entropy);
    }
  }

  /** Registering a user keeps the store valid. */
  lemma CreateUserKeepsValid(st: Store, tenantId: string, externalId: string, userId: string)
    requires Valid(st)
    requires Users.CreateUser(st, tenantId, externalId, userId).Ok?
    ensures Valid(Users.CreateUser(st, tenantId, externalId, userId).value.0)
  {
    ValidAfterInsertUser(st, User(userId, tenantId, externalId, true, st.clock));
  }

  /** The raw key returned at issue time resolves to its tenant, and the
      guard admits it unless that tenant is suspended. */
  lemma IssuedKeyAdmitted(st: Store, tenantEmail: string, keyId: string, entropy: seq<Byte>)
    requires Valid(st)
    requires Keys.GenerateForTenant(st, tenantEmail, keyId, entropy).Ok?
    ensures var (st2, g) := Keys.GenerateForTenant(st, tenantEmail, keyId, entropy).value;
      var t := TenantByEmail(st, tenantEmail).value;
      && Keys.ValidateApiKey(st2, g.key) == Ok(Some(t))
      && ApiKeyGuard.CanActivate(st2, Str(g.key)) == (if t.isSuspended then Err(Forbidden(ApiKeyGuard.TenantSuspended)) else Ok(t))
  {
    var (st2, g) := Keys.GenerateForTenant(st, tenantEmail, keyId, entropy).value;
    var t := TenantByEmail(st, tenantEmail).value;
    GenerateKeepsValid(st, tenantEmail, keyId, entropy);
    var k := st2.apiKeys[|st.apiKeys|];
    assert k in st2.apiKeys && k.keyHash == Hash(g.key) && k.isActive && k.tenantId == t.id;
    Keys.ValidateApiKeyCharacterized(st2, g.key, k);
    TenantLookupsAgree(st2, t);
    assert g.key != "" by { assert |Keys.KeyPrefix| <= |g.key|; }
    ApiKeyGuard.CheckOrder(st2, g.key);
  }

  /** After a tenant is suspended, the guard refuses every key the tenant
      held as inactive; reactivating the tenant does not reopen them. */
  lemma SuspensionLocksKeys(st: Store, email: string, raw: string)
    requires Valid(st)
    requires TenantByEmail(st, email).Some? && raw != ""
    requires exists k :: k in st.apiKeys && k.keyHash == Hash(raw) && k.tenantId == TenantByEmail(st, email).value.id
    ensures var st2 := Tenants.UpdateTenantSuspension(st, email, true).value.0;
      && ApiKeyGuard.CanActivate(st2, Str(raw)) == Err(Forbidden(ApiKeyGuard.KeyInactive))
      && Tenants.UpdateTenantSuspension(st2, email, false).Ok?
      && ApiKeyGuard.CanActivate(Tenants.UpdateTenantSuspension(st2, email, false).value.0, Str(raw))
         == Err(Forbidden(ApiKeyGuard.KeyInactive))
  {
    var t := TenantByEmail(st, email).value;
    var k :| k in st.apiKeys && k.keyHash == Hash(raw) && k.tenantId == t.id;
    var i :| 0 <= i < |st.apiKeys| && st.apiKeys[i] == k;
    var st2 := Tenants.UpdateTenantSuspension(st, email, true).value.0;
    Tenants.SuspensionCascade(st, email);
    var k2 := st2.apiKeys[i];
    assert k2 in st2.apiKeys && k2.keyHash == Hash(raw) && !k2.isActive;
    ApiKeyGuard.CheckOrder(st2, raw);
    var j := Tenants.TenantIndex(st, email).value;
    assert st2.tenants[j].email == email && st2.tenants[j] in st2.tenants;
    assert TenantByEmail(st2, email).Some?;
    var st3 := Tenants.UpdateTenantSuspension(st2, email, false).value.0;
    Tenants.SuspensionCascade(st2, email);
    assert st3.apiKeys == st2.apiKeys;
    assert k2 in st3.apiKeys;
    ApiKeyGuard.CheckOrder(st3, raw);
  }
}
