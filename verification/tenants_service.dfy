/** Tenant administration (src/admin/tenants/tenants.service.ts): creation
    with an optional first API key, the filtered and paginated listing, the
    lookup by id or email, and the plan, email and suspension updates.
 */
module TenantsService {
  import opened Wrappers
  import opened Text
  import opened Seqs
  import opened Store
  import opened TenantsQuery
  import Keys = ApiKeysService

  const EmailEmpty: string := "Tenant email cannot be empty"
  const TenantExists: string := "Tenant already exists"
  /** The message of `getTenant`, and so of the plan and email updates. */
  const TenantNotFoundCode: string := "TenantNotFound"
  /** The message of the suspension update, which looks the tenant up itself. */
  const TenantNotFound: string := "Tenant not found"
  const PlanUnchanged: string := "Plan unchanged"
  const EmailUnchanged: string := "Email unchanged"
  const EmailInUse: string := "Email already in use"
  const SuspendedMessage: string := "Tenant suspended and API keys deactivated"
  const ReactivatedMessage: string := "Tenant reactivated (API keys remain inactive)"

  // createTenant

  /** The validated body of `POST /admin/tenants`. */
  datatype CreateTenantInput = CreateTenantInput(email: string, plan: Plan, issueApiKey: bool)

  /** `{ tenant, apiKey }`; `apiKey` is `null` unless one was requested. */
  datatype TenantCreated = TenantCreated(tenant: Tenant, apiKey: Option<Keys.GeneratedKey>)

  /** `st2` is `st` with the new tenant row `c.tenant` appended and, when a
      key was requested, one key row issued to it. */
  ghost predicate TenantAdded(st: Store, st2: Store, dto: CreateTenantInput, tenantId: string, c: TenantCreated) {
    var st1 := st.(tenants := st.tenants + [c.tenant], clock := st.clock + 1);
    && c.tenant == Tenant(tenantId, dto.email, dto.plan, false, st.clock)
    && (c.apiKey.Some? <==> dto.issueApiKey)
    && (c.apiKey.None? ==> st2 == st1)
    && (c.apiKey.Some? ==> Keys.KeyIssued(st1, st2, c.apiKey.value, tenantId))
  }

  /** `createTenant`. The database assigns `tenantId` (and `keyId`, with the
      key's `entropy`, when a key is issued); `adminUserId` is only logged. */
  function CreateTenant(st: Store, dto: CreateTenantInput, adminUserId: string,
                        tenantId: string, keyId: string, entropy: seq<Byte>): (r: Result<(Store, TenantCreated)>)
    ensures Blank(dto.email) ==> r == Err(BadRequest(EmailEmpty))
    ensures !Blank(dto.email) && TenantByEmail(st, dto.email).Some? ==> r == Err(BadRequest(TenantExists))
    ensures r.Ok? ==> !Blank(dto.email) && TenantByEmail(st, dto.email).None?
    ensures r.Ok? ==> TenantAdded(st, r.value.0, dto, tenantId, r.value.1)
    ensures (&& !Blank(dto.email) && TenantByEmail(st, dto.email).None? && TenantById(st, tenantId).None?
             && (dto.issueApiKey ==> Keys.FreshKey(st, keyId, Hash(Keys.RawKey(entropy))))) ==> r.Ok?
    ensures r.Err? ==> r.error.BadRequest? || r.error == Unhandled(UniqueViolation)
  {
    if Trim(dto.email) == "" then Err(BadRequest(EmailEmpty))
    else if TenantByEmail(st, dto.email).Some? then Err(BadRequest(TenantExists))
    else
      var tenant := Tenant(tenantId, dto.email, dto.plan, false, st.clock);
      var st1 :- InsertTenant(st, tenant);
      if !dto.issueApiKey then Ok((st1, TenantCreated(tenant, None)))
      else
        NewTenantFound(st, tenant);
        var (st2, key) :- Keys.GenerateForTenant(st1, dto.email, keyId, entropy);
        Ok((st2, TenantCreated(tenant, Some(key))))
  }

  /** After appending a tenant whose email was unused, looking that email up
      finds the new row. */
  lemma NewTenantFound(st: Store, t: Tenant)
    requires TenantByEmail(st, t.email).None?
    ensures TenantByEmail(st.(tenants := st.tenants + [t], clock := st.clock + 1), t.email) == Some(t)
  {
    var ts := st.tenants + [t];
    assert TenantWithEmail(t.email)(ts[|st.tenants|]);
    assert forall j :: 0 <= j < |st.tenants| ==> ts[j] == st.tenants[j];
  }

  // listTenants

  /** The `where` of the listing: the exact plan when one is given, and a
      case-insensitive substring of the email when `q` is non-empty. */
  predicate MatchesFilters(plan: Option<Plan>, q: Option<string>, t: Tenant) {
    && (plan.None? || t.plan == plan.value)
    && (q.None? || q.value == "" || ContainsInsensitive(t.email, q.value))
  }

  function Matches(plan: Option<Plan>, q: Option<string>): Tenant -> bool {
    (t: Tenant) => MatchesFilters(plan, q, t)
  }

  function TenantCreatedAt(t: Tenant): int {
    t.createdAt
  }

  /** The tenants matching the filters, newest first. */
  function Ordered(st: Store, plan: Option<Plan>, q: Option<string>): (r: seq<Tenant>)
    ensures |r| == |Filter(st.tenants, Matches(plan, q))|
  {
    SortDesc(Filter(st.tenants, Matches(plan, q)), TenantCreatedAt)
  }

  /** `skip: (page - 1) * pageSize`. */
  function Skip(query: TenantsQuery): (n: nat)
    requires query.page >= 1 && query.pageSize >= 1
  {
    (query.page - 1) * query.pageSize
  }

  datatype PageMeta = PageMeta(total: nat, page: int, pageSize: int, totalPages: nat)

  datatype TenantList = TenantList(data: seq<Tenant>, meta: PageMeta)

  /** `listTenants` on a validated query. The total counts every matching
      tenant, whatever the page. */
  function ListTenants(st: Store, query: TenantsQuery): (r: TenantList)
    requires query.page >= 1 && query.pageSize >= 1
    ensures r.meta.total == |Filter(st.tenants, Matches(query.plan, query.q))|
    ensures r.meta.page == query.page && r.meta.pageSize == query.pageSize
    ensures |r.data| <= query.pageSize
  {
    var all := Ordered(st, query.plan, query.q);
    TenantList(
      Paginate(all, Skip(query), query.pageSize),
      PageMeta(|all|, query.page, query.pageSize, CeilDiv(|all|, query.pageSize)))
  }

  /** `totalPages` is `Math.ceil(total / pageSize)`: the fewest pages of
      `pageSize` rows that hold `total` rows. */
  lemma ListTenantsPageCount(st: Store, query: TenantsQuery)
    requires query.page >= 1 && query.pageSize >= 1
    ensures var m := ListTenants(st, query).meta;
      && m.totalPages * query.pageSize >= m.total
      && (m.totalPages == 0 || (m.totalPages - 1) * query.pageSize < m.total)
  {
  }

  /** The page is the slice of the newest-first order that starts at
      `(page - 1) * pageSize`, as long as the rows last. */
  lemma ListTenantsSlice(st: Store, query: TenantsQuery)
    requires query.page >= 1 && query.pageSize >= 1
    ensures var r := ListTenants(st, query);
      var all := Ordered(st, query.plan, query.q);
      && (forall i :: 0 <= i < |r.data| ==> Skip(query) + i < |all| && r.data[i] == all[Skip(query) + i])
      && (Skip(query) < r.meta.total ==>
           |r.data| == if r.meta.total - Skip(query) < query.pageSize then r.meta.total - Skip(query) else query.pageSize)
      && (Skip(query) >= r.meta.total ==> r.data == [])
  {
  }

  /** Every listed tenant is a stored tenant matching the filters. */
  lemma ListTenantsSound(st: Store, query: TenantsQuery)
    requires query.page >= 1 && query.pageSize >= 1
    ensures forall t :: t in ListTenants(st, query).data ==> t in st.tenants && MatchesFilters(query.plan, query.q, t)
  {
    var data := ListTenants(st, query).data;
    var all := Ordered(st, query.plan, query.q);
    ListTenantsSlice(st, query);
    forall t | t in data
      ensures t in st.tenants && MatchesFilters(query.plan, query.q, t)
    {
      var i :| 0 <= i < |data| && data[i] == t;
      assert all[Skip(query) + i] == t;
      OrderedMember(st, query.plan, query.q, t);
    }
  }

  lemma OrderedMember(st: Store, plan: Option<Plan>, q: Option<string>, t: Tenant)
    requires t in Ordered(st, plan, q)
    ensures t in st.tenants && MatchesFilters(plan, q, t)
  {
    var matching := Filter(st.tenants, Matches(plan, q));
    assert multiset(Ordered(st, plan, q)) == multiset(matching);
    assert t in multiset(Ordered(st, plan, q));
    FilterMultiset(st.tenants, Matches(plan, q), t);
  }

  /** Each page is ordered newest first. */
  lemma ListTenantsNewestFirst(st: Store, query: TenantsQuery)
    requires query.page >= 1 && query.pageSize >= 1
    ensures SortedDesc(ListTenants(st, query).data, TenantCreatedAt)
  {
    var data := ListTenants(st, query).data;
    var all := Ordered(st, query.plan, query.q);
    ListTenantsSlice(st, query);
    assert SortedDesc(all, TenantCreatedAt);
    forall i, j | 0 <= i < j < |data|
      ensures TenantCreatedAt(data[i]) >= TenantCreatedAt(data[j])
    {
      assert data[i] == all[Skip(query) + i] && data[j] == all[Skip(query) + j];
    }
  }

  /** Pages 1 .. n of the listing, one after the other. */
  function PagesOf(st: Store, query: TenantsQuery, n: nat): seq<Tenant>
    requires query.pageSize >= 1
  {
    if n == 0 then [] else PagesOf(st, query, n - 1) + ListTenants(st, query.(page := n)).data
  }

  lemma {:induction false} PagesOfArePages(st: Store, query: TenantsQuery, n: nat)
    requires query.pageSize >= 1
    ensures PagesOf(st, query, n) == Pages(Ordered(st, query.plan, query.q), query.pageSize, n)
  {
    if n > 0 {
      PagesOfArePages(st, query, n - 1);
      assert Skip(query.(page := n)) == (n - 1) * query.pageSize;
    }
  }

  /** Walking pages 1 .. totalPages lists every matching tenant exactly as
      often as it is stored, newest first, and the total does not depend on
      the page asked for. */
  lemma ListTenantsCoversMatches(st: Store, query: TenantsQuery, other: int)
    requires query.page >= 1 && query.pageSize >= 1 && other >= 1
    ensures ListTenants(st, query.(page := other)).meta.total == ListTenants(st, query).meta.total
    ensures var all := PagesOf(st, query, ListTenants(st, query).meta.totalPages);
      && multiset(all) == multiset(Filter(st.tenants, Matches(query.plan, query.q)))
      && SortedDesc(all, TenantCreatedAt)
  {
    var n := ListTenants(st, query).meta.totalPages;
    PagesOfArePages(st, query, n);
    PagesCoverAll(Ordered(st, query.plan, query.q), query.pageSize);
  }

  /** With pairwise distinct creation times among the matching tenants,
      newest first is a single order: any ordering of them by
      `created_at desc`, such as the one each page query sees, is this one. */
  lemma OrderedUniqueWhenTimesDistinct(st: Store, plan: Option<Plan>, q: Option<string>, other: seq<Tenant>)
    requires KeysDistinct(Filter(st.tenants, Matches(plan, q)), TenantCreatedAt)
    requires multiset(other) == multiset(Filter(st.tenants, Matches(plan, q)))
    requires SortedDesc(other, TenantCreatedAt)
    ensures other == Ordered(st, plan, q)
  {
    var matching := Filter(st.tenants, Matches(plan, q));
    var ord := Ordered(st, plan, q);
    assert forall x :: x in ord <==> x in matching by {
      forall x
        ensures x in ord <==> x in matching
      {
        assert x in ord <==> x in multiset(ord);
        assert x in matching <==> x in multiset(matching);
      }
    }
    SortedDescUnique(ord, other, TenantCreatedAt);
  }

  // getTenant

  /** `Prisma.tenantWhereUniqueInput`: by id or by email. */
  datatype TenantKey = WhereId(id: string) | WhereEmail(email: string)

  predicate Identifies(w: TenantKey, t: Tenant) {
    match w
    case WhereId(id) => t.id == id
    case WhereEmail(email) => t.email == email
  }

  function GetTenant(st: Store, w: TenantKey): (r: Result<Tenant>)
    ensures r.Ok? ==> r.value in st.tenants && Identifies(w, r.value)
    ensures r.Err? <==> forall t :: t in st.tenants ==> !Identifies(w, t)
    ensures r.Err? ==> r.error == NotFound(TenantNotFoundCode)
  {
    var found := match w
      case WhereId(id) => TenantById(st, id)
      case WhereEmail(email) => TenantByEmail(st, email);
    match found
    case None => Err(NotFound(TenantNotFoundCode))
    case Some(t) => Ok(t)
  }

  // The updates address the tenant row found by email.

  /** Position of the row `update({ where: { email } })` rewrites. */
  function TenantIndex(st: Store, email: string): (r: Option<nat>)
    ensures r.None? <==> TenantByEmail(st, email).None?
    ensures r.Some? ==> r.value < |st.tenants| && st.tenants[r.value] == TenantByEmail(st, email).value
  {
    FindFirst(st.tenants, TenantWithEmail(email))
  }

  /** `st2` is `st` with the row at `i` replaced by `t2`, and nothing else. */
  ghost predicate OnlyTenantRow(st: Store, st2: Store, i: nat, t2: Tenant) {
    i < |st.tenants| && st2 == st.(tenants := st.tenants[i := t2])
  }

  /** `updateTenantPlan`: the updated row. */
  function UpdateTenantPlan(st: Store, email: string, plan: Plan): (r: Result<(Store, Tenant)>)
    ensures TenantByEmail(st, email).None? ==> r == Err(NotFound(TenantNotFoundCode))
    ensures TenantByEmail(st, email).Some? && TenantByEmail(st, email).value.plan == plan ==> r == Err(Conflict(PlanUnchanged))
    ensures TenantByEmail(st, email).Some? && TenantByEmail(st, email).value.plan != plan ==> r.Ok?
    ensures r.Ok? ==> r.value.1 == TenantByEmail(st, email).value.(plan := plan)
    ensures r.Ok? ==> OnlyTenantRow(st, r.value.0, TenantIndex(st, email).value, r.value.1)
  {
    var t :- GetTenant(st, WhereEmail(email));
    if t.plan == plan then Err(Conflict(PlanUnchanged))
    else
      var i := TenantIndex(st, email).value;
      var t2 := st.tenants[i].(plan := plan);
      Ok((st.(tenants := st.tenants[i := t2]), t2))
  }

  /** `updateTenantEmail`: the updated row. */
  function UpdateTenantEmail(st: Store, email: string, newEmail: string): (r: Result<(Store, Tenant)>)
    ensures TenantByEmail(st, email).None? ==> r == Err(NotFound(TenantNotFoundCode))
    ensures TenantByEmail(st, email).Some? && newEmail == email ==> r == Err(Conflict(EmailUnchanged))
    ensures TenantByEmail(st, email).Some? && newEmail != email && TenantByEmail(st, newEmail).Some? ==> r == Err(Conflict(EmailInUse))
    ensures r.Ok? <==> TenantByEmail(st, email).Some? && newEmail != email && TenantByEmail(st, newEmail).None?
    ensures r.Ok? ==> r.value.1 == TenantByEmail(st, email).value.(email := newEmail)
    ensures r.Ok? ==> OnlyTenantRow(st, r.value.0, TenantIndex(st, email).value, r.value.1)
  {
    var t :- GetTenant(st, WhereEmail(email));
    if t.email == newEmail then Err(Conflict(EmailUnchanged))
    else if TenantByEmail(st, newEmail).Some? then Err(Conflict(EmailInUse))
    else
      var i := TenantIndex(st, email).value;
      var t2 := st.tenants[i].(email := newEmail);
      Ok((st.(tenants := st.tenants[i := t2]), t2))
  }

  /** The plan and email updates keep the store valid; in particular no two
      tenants ever share an email. */
  lemma TenantUpdatesPreserveValid(st: Store, email: string, plan: Plan, newEmail: string)
    requires Valid(st)
    ensures UpdateTenantPlan(st, email, plan).Ok? ==> Valid(UpdateTenantPlan(st, email, plan).value.0)
    ensures UpdateTenantEmail(st, email, newEmail).Ok? ==> Valid(UpdateTenantEmail(st, email, newEmail).value.0)
  {
    if TenantByEmail(st, email).Some? {
      var i := TenantIndex(st, email).value;
      var t := st.tenants[i];
      if t.plan != plan {
        ValidAfterTenantEdit(st, i, t.(plan := plan));
      }
      if UpdateTenantEmail(st, email, newEmail).Ok? {
        assert forall j :: 0 <= j < |st.tenants| ==> st.tenants[j] in st.tenants;
        ValidAfterTenantEdit(st, i, t.(email := newEmail));
      }
    }
  }

  // updateTenantSuspension

  /** `{ message, tenant: { email, isSuspended, plan } }`. */
  datatype SuspensionReply = SuspensionReply(message: string, email: string, isSuspended: bool, plan: Plan)

  function UpdateTenantSuspension(st: Store, email: string, isSuspended: bool): (r: Result<(Store, SuspensionReply)>)
    ensures r.Err? <==> TenantByEmail(st, email).None?
    ensures r.Err? ==> r.error == NotFound(TenantNotFound)
    ensures r.Ok? ==>
      var t := TenantByEmail(st, email).value;
      var st2 := r.value.0;
      && st2.tenants == st.tenants[TenantIndex(st, email).value := t.(isSuspended := isSuspended)]
      && st2 == st.(tenants := st2.tenants, apiKeys := st2.apiKeys)
      && (isSuspended ==> Keys.OnlyKeyActivityOf(st, st2.(tenants := st.tenants), t.id))
      && (isSuspended ==> forall k :: k in st2.apiKeys && k.tenantId == t.id ==> !k.isActive)
      && (!isSuspended ==> st2.apiKeys == st.apiKeys)
      && r.value.1 == SuspensionReply(if isSuspended then SuspendedMessage else ReactivatedMessage, t.email, isSuspended, t.plan)
  {
    match TenantIndex(st, email)
    case None => Err(NotFound(TenantNotFound))
    case Some(i) =>
      var t := st.tenants[i];
      var t2 := t.(isSuspended := isSuspended);
      var keys := if isSuspended then Keys.SetTenantKeys(st.apiKeys, t.id, false) else st.apiKeys;
      var st2 := st.(tenants := st.tenants[i := t2], apiKeys := keys);
      assert isSuspended ==> forall k :: k in keys && k.tenantId == t.id ==> !k.isActive by {
        if isSuspended {
          forall k | k in keys && k.tenantId == t.id
            ensures !k.isActive
          {
            var j :| 0 <= j < |keys| && keys[j] == k;
          }
        }
      }
      Ok((st2, SuspensionReply(if isSuspended then SuspendedMessage else ReactivatedMessage, t2.email, t2.isSuspended, t2.plan)))
  }

  /** Suspending deactivates exactly the tenant's active keys (the bulk
      update's count) and leaves every other tenant's keys alone; the store
      stays valid either way. */
  lemma SuspensionCascade(st: Store, email: string)
    requires Valid(st)
    requires TenantByEmail(st, email).Some?
    ensures var t := TenantByEmail(st, email).value;
      var st2 := UpdateTenantSuspension(st, email, true).value.0;
      && |Filter(st2.apiKeys, KeyOfIn(t.id, true))| == 0
      && |Filter(st2.apiKeys, KeyOfIn(t.id, false))|
         == |Filter(st.apiKeys, KeyOfIn(t.id, false))| + |Filter(st.apiKeys, KeyOfIn(t.id, true))|
      && Valid(st2)
    ensures Valid(UpdateTenantSuspension(st, email, false).value.0)
  {
    var t := TenantByEmail(st, email).value;
    var i := TenantIndex(st, email).value;
    Keys.SetTenantKeysCount(st.apiKeys, t.id, false);
    var keys := Keys.SetTenantKeys(st.apiKeys, t.id, false);
    ValidAfterKeyFlags(st, keys);
    ValidAfterTenantEdit(st.(apiKeys := keys), i, t.(isSuspended := true));
    assert forall j :: 0 <= j < |st.tenants| ==> st.tenants[j] in st.tenants;
    ValidAfterTenantEdit(st, i, t.(isSuspended := false));
  }
}
