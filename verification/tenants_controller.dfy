/** The admin tenant routes that do more than delegate
    (src/admin/tenants/tenants.controller.ts): the id-or-email lookup and the
    validated listing.
 */
module TenantsController {
  import opened Wrappers
  import opened JsValues
  import opened Text
  import opened Store
  import opened TenantsQuery
  import opened TenantsService

  /** `idOrEmail.includes('@')` chooses the email lookup. */
  function TenantKeyOf(idOrEmail: string): (w: TenantKey)
    ensures w.WhereEmail? <==> '@' in idOrEmail
    ensures w.WhereEmail? ==> w.email == idOrEmail
    ensures w.WhereId? ==> w.id == idOrEmail
  {
    AtSignContained(idOrEmail);
    if Contains(idOrEmail, "@") then WhereEmail(idOrEmail) else WhereId(idOrEmail)
  }

  /** A one-character needle occurs exactly when the character does. */
  lemma AtSignContained(s: string)
    ensures Contains(s, "@") <==> '@' in s
  {
    if '@' in s {
      var i :| 0 <= i < |s| && s[i] == '@';
      assert s[i..i + 1] == "@";
      assert OccursAt(s, "@", i);
    }
    if Contains(s, "@") {
      var i :| 0 <= i <= |s| && OccursAt(s, "@", i);
      assert s[i..i + 1][0] == s[i];
    }
  }

  /** `GET :idOrEmail`. */
  function GetTenantRoute(st: Store, idOrEmail: string): (r: Result<Tenant>)
    ensures r.Ok? ==> r.value in st.tenants
    ensures r.Ok? && '@' in idOrEmail ==> r.value.email == idOrEmail
    ensures r.Ok? && '@' !in idOrEmail ==> r.value.id == idOrEmail
    ensures r.Err? <==> forall t :: t in st.tenants ==> !Identifies(TenantKeyOf(idOrEmail), t)
    ensures r.Err? ==> r.error == NotFound(TenantNotFoundCode)
  {
    GetTenant(st, TenantKeyOf(idOrEmail))
  }

  /** `GET /admin/tenants`: the query is validated, then listed. */
  function ListTenantsRoute(st: Store, raw: map<string, Value>): (r: Result<TenantList>)
    ensures r.Err? <==> !Admissible(raw)
    ensures r.Err? ==> r.error.BadRequest?
    ensures r.Ok? ==> r.value.meta.page >= 1 && r.value.meta.pageSize >= 1 && |r.value.data| <= r.value.meta.pageSize
    ensures r.Ok? && Nullish(Member(raw, "page")) ==> r.value.meta.page == DefaultPage
    ensures r.Ok? && Nullish(Member(raw, "pageSize")) ==> r.value.meta.pageSize == DefaultPageSize
  {
    var query :- ValidateTenantsQuery(raw);
    Ok(ListTenants(st, query))
  }
}
