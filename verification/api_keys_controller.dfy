/** The admin routes under `admin/tenants/:tenantEmail/api-keys`
    (src/admin/api_keys/api-keys.controller.ts).
 */
module ApiKeysController {
  import opened Wrappers
  import opened Text
  import opened Seqs
  import opened Store
  import Keys = ApiKeysService

  const NoKeysForTenant: string := "No API keys found for this tenant"

  /** The response of `POST`: the raw key is shown once, here. */
  datatype ApiKeyCreated = ApiKeyCreated(id: string, key: string, isActive: bool, createdAt: nat)

  /** `createApiKey`: the tenant is looked up first, so an unknown email fails
      before any key is generated. */
  function CreateApiKey(st: Store, tenantEmail: string, keyId: string, entropy: seq<Byte>): (r: Result<(Store, ApiKeyCreated)>)
    ensures TenantByEmail(st, tenantEmail).None? ==> r == Err(NotFound(Keys.TenantNotFound))
    ensures r.Ok? ==>
      var c := r.value.1;
      && TenantByEmail(st, tenantEmail).Some?
      && c == ApiKeyCreated(keyId, Keys.RawKey(entropy), true, st.clock)
      && Keys.KeyIssued(st, r.value.0, Keys.GeneratedKey(c.id, c.isActive, c.createdAt, c.key), TenantByEmail(st, tenantEmail).value.id)
    ensures TenantByEmail(st, tenantEmail).Some? && Keys.FreshKey(st, keyId, Hash(Keys.RawKey(entropy))) ==> r.Ok?
  {
    match TenantByEmail(st, tenantEmail)
    case None => Err(NotFound(Keys.TenantNotFound))
    case Some(t) =>
      var (st2, g) :- Keys.GenerateForTenant(st, t.email, keyId, entropy);
      Ok((st2, ApiKeyCreated(g.id, g.key, g.isActive, g.createdAt)))
  }

  /** `getTenantKeys`: an existing tenant without keys is reported like an
      unknown one, with its own message. */
  function GetTenantKeys(st: Store, tenantEmail: string): (r: Result<seq<Keys.KeyView>>)
    ensures TenantByEmail(st, tenantEmail).None? ==> r == Err(NotFound(Keys.TenantNotFound))
    ensures TenantByEmail(st, tenantEmail).Some? ==>
      (r.Ok? <==> exists k :: k in st.apiKeys && k.tenantId == TenantByEmail(st, tenantEmail).value.id)
    ensures TenantByEmail(st, tenantEmail).Some? && r.Err? ==> r.error == NotFound(NoKeysForTenant)
    ensures r.Ok? ==> |r.value| > 0 && SortedDesc(r.value, Keys.ViewCreatedAt)
  {
    var keys :- Keys.ListTenantKeys(st, tenantEmail);
    NoViewsMeansNoKeys(st, tenantEmail);
    if |keys| == 0 then Err(NotFound(NoKeysForTenant)) else Ok(keys)
  }

  /** The listing is empty exactly when the tenant owns no key. */
  lemma NoViewsMeansNoKeys(st: Store, tenantEmail: string)
    requires TenantByEmail(st, tenantEmail).Some?
    ensures |Keys.ListTenantKeys(st, tenantEmail).value| == 0 <==>
      forall k :: k in st.apiKeys ==> k.tenantId != TenantByEmail(st, tenantEmail).value.id
  {
    var t := TenantByEmail(st, tenantEmail).value;
    var listed := Keys.ListTenantKeys(st, tenantEmail).value;
    if k :| k in st.apiKeys && k.tenantId == t.id {
      Keys.ListTenantKeysContents(st, tenantEmail, Keys.View(k));
    }
    if |listed| > 0 {
      Keys.ListTenantKeysContents(st, tenantEmail, listed[0]);
    }
  }

  /** `PATCH :keyIdOrMode/deactivate`: every key it changes ends inactive. */
  function DeactivateKey(st: Store, tenantEmail: string, keyIdOrMode: string): (r: Result<(Store, Keys.KeyStatusReply)>)
    ensures r.Ok? ==> !r.value.1.activated
    ensures r.Ok? ==> TenantByEmail(st, tenantEmail).Some? && Keys.OnlyKeyActivityOf(st, r.value.0, TenantByEmail(st, tenantEmail).value.id)
    ensures r.Ok? ==> forall i :: 0 <= i < |st.apiKeys| && r.value.0.apiKeys[i] != st.apiKeys[i] ==> !r.value.0.apiKeys[i].isActive
    ensures r.Err? ==> r.error.NotFound?
  {
    Keys.UpdateKeyStatusByMode(st, tenantEmail, keyIdOrMode, false)
  }

  /** `PATCH :keyIdOrMode/reactivate`: every key it changes ends active. */
  function ReactivateKey(st: Store, tenantEmail: string, keyIdOrMode: string): (r: Result<(Store, Keys.KeyStatusReply)>)
    ensures r.Ok? ==> r.value.1.activated
    ensures r.Ok? ==> TenantByEmail(st, tenantEmail).Some? && Keys.OnlyKeyActivityOf(st, r.value.0, TenantByEmail(st, tenantEmail).value.id)
    ensures r.Ok? ==> forall i :: 0 <= i < |st.apiKeys| && r.value.0.apiKeys[i] != st.apiKeys[i] ==> r.value.0.apiKeys[i].isActive
    ensures r.Err? ==> r.error.NotFound?
  {
    Keys.UpdateKeyStatusByMode(st, tenantEmail, keyIdOrMode, true)
  }

  /** Deactivating and then reactivating the same key by id restores the
      store when the key was active. */
  lemma DeactivateThenReactivate(st: Store, tenantEmail: string, keyId: string)
    requires Valid(st)
    requires Keys.ParseMode(keyId).ById?
    requires DeactivateKey(st, tenantEmail, keyId).Ok?
    requires forall k :: k in st.apiKeys && k.id == keyId ==> k.isActive
    ensures ReactivateKey(DeactivateKey(st, tenantEmail, keyId).value.0, tenantEmail, keyId).Ok?
    ensures ReactivateKey(DeactivateKey(st, tenantEmail, keyId).value.0, tenantEmail, keyId).value.0 == st
  {
    var st2 := DeactivateKey(st, tenantEmail, keyId).value.0;
    var i := FindFirst(st.apiKeys, KeyWithId(keyId)).value;
    assert st2 == Keys.SetKeyAt(st, i, false);
    FindFirstSameMatches(st.apiKeys, st2.apiKeys, KeyWithId(keyId));
    assert st2.tenants == st.tenants;
    var st3 := ReactivateKey(st2, tenantEmail, keyId).value.0;
    assert st3 == Keys.SetKeyAt(st2, i, true);
    assert st.apiKeys[i].isActive;
    assert st3.apiKeys == st.apiKeys;
  }
}
