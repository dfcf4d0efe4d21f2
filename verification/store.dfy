/** The relational store behind the services, as immutable tables.

    Each table is a sequence in insertion order. `findUnique` and `findFirst`
    without ordering return the first matching row; inserts enforce the
    unique indexes and foreign keys the services rely on and fail the way the
    database does. Creation timestamps come from a clock that every insert
    advances, standing in for `new Date()` and the column default `now()`.
 */
module Store {
  import opened Wrappers
  import opened JsValues
  import opened Seqs

  /** The `plan` enum (FREE, PRO, ULTRA). */
  datatype Plan = FREE | PRO | ULTRA

  /** SHA-256 digest of an API key. The model keeps the digest injective by
      construction: two texts have the same digest only if they are equal. */
  datatype Digest = Sha256(preimage: string)

  function Hash(raw: string): Digest {
    Sha256(raw)
  }

  datatype Tenant = Tenant(id: string, email: string, plan: Plan, isSuspended: bool, createdAt: nat)

  /** `keyHash` is the `key` column: only the digest of the raw key is stored. */
  datatype ApiKey = ApiKey(id: string, keyHash: Digest, tenantId: string, isActive: bool, createdAt: nat)

  datatype User = User(id: string, tenantId: string, externalId: string, isActive: bool, createdAt: nat)

  datatype Subscription = Subscription(id: string, userId: string)

  /** The notification statuses the services name; every other status is `OtherStatus`. */
  datatype NotificationStatus = QUEUED | SENDING | CANCELED | OtherStatus(name: string)

  datatype Notification = Notification(id: string, userId: string, status: NotificationStatus)

  /** The `Channel` enum of the channel-config payload. */
  datatype Channel = EMAIL | EXPO_PUSH

  datatype ChannelConfig = ChannelConfig(
    id: string,
    tenantId: string,
    channel: Channel,
    configJson: Value,
    allowOverrides: bool,
    createdAt: nat)

  datatype Store = Store(
    tenants: seq<Tenant>,
    apiKeys: seq<ApiKey>,
    users: seq<User>,
    subscriptions: seq<Subscription>,
    notifications: seq<Notification>,
    channelConfigs: seq<ChannelConfig>,
    clock: nat)

  // Row predicates of the `where` clauses the services use.

  function TenantWithEmail(email: string): Tenant -> bool {
    (t: Tenant) => t.email == email
  }

  function TenantWithId(id: string): Tenant -> bool {
    (t: Tenant) => t.id == id
  }

  function KeyWithHash(h: Digest): ApiKey -> bool {
    (k: ApiKey) => k.keyHash == h
  }

  function KeyWithId(id: string): ApiKey -> bool {
    (k: ApiKey) => k.id == id
  }

  function KeyOf(tenantId: string): ApiKey -> bool {
    (k: ApiKey) => k.tenantId == tenantId
  }

  /** `{ tenant_id: tenantId, is_active: active }`. */
  function KeyOfIn(tenantId: string, active: bool): ApiKey -> bool {
    (k: ApiKey) => k.tenantId == tenantId && k.isActive == active
  }

  /** The unique key `uk_user_tenant_external`. */
  function UserWithExternal(tenantId: string, externalId: string): User -> bool {
    (u: User) => u.tenantId == tenantId && u.externalId == externalId
  }

  // Lookups.

  /** `tenant.findUnique({ where: { email } })`. */
  function TenantByEmail(st: Store, email: string): (r: Option<Tenant>)
    ensures r.Some? ==> r.value in st.tenants && r.value.email == email
    ensures r.None? <==> forall t :: t in st.tenants ==> t.email != email
  {
    match FindFirst(st.tenants, TenantWithEmail(email))
    case None => None
    case Some(i) => Some(st.tenants[i])
  }

  /** `tenant.findUnique({ where: { id } })`. */
  function TenantById(st: Store, id: string): (r: Option<Tenant>)
    ensures r.Some? ==> r.value in st.tenants && r.value.id == id
    ensures r.None? <==> forall t :: t in st.tenants ==> t.id != id
  {
    match FindFirst(st.tenants, TenantWithId(id))
    case None => None
    case Some(i) => Some(st.tenants[i])
  }

  /** `api_key.findUnique({ where: { key: h } })`. */
  function KeyByHash(st: Store, h: Digest): (r: Option<ApiKey>)
    ensures r.Some? ==> r.value in st.apiKeys && r.value.keyHash == h
    ensures r.None? <==> forall k :: k in st.apiKeys ==> k.keyHash != h
  {
    match FindFirst(st.apiKeys, KeyWithHash(h))
    case None => None
    case Some(i) => Some(st.apiKeys[i])
  }

  // Inserts: the unique indexes and foreign keys of the schema.

  /** A row with this id, or this email, already exists. */
  predicate TenantClash(st: Store, t: Tenant) {
    exists u :: u in st.tenants && (u.id == t.id || u.email == t.email)
  }

  function InsertTenant(st: Store, t: Tenant): (r: Result<Store>)
    ensures r.Ok? <==> !TenantClash(st, t)
    ensures r.Ok? ==> r.value == st.(tenants := st.tenants + [t], clock := st.clock + 1)
    ensures r.Err? ==> r.error == Unhandled(UniqueViolation)
  {
    if TenantClash(st, t) then Err(Unhandled(UniqueViolation))
    else Ok(st.(tenants := st.tenants + [t], clock := st.clock + 1))
  }

  predicate KeyClash(st: Store, k: ApiKey) {
    exists u :: u in st.apiKeys && (u.id == k.id || u.keyHash == k.keyHash)
  }

  predicate HasTenant(st: Store, tenantId: string) {
    exists t :: t in st.tenants && t.id == tenantId
  }

  function InsertApiKey(st: Store, k: ApiKey): (r: Result<Store>)
    ensures r.Ok? <==> !KeyClash(st, k) && HasTenant(st, k.tenantId)
    ensures r.Ok? ==> r.value == st.(apiKeys := st.apiKeys + [k], clock := st.clock + 1)
    ensures r.Err? ==> r.error.Unhandled?
  {
    if KeyClash(st, k) then Err(Unhandled(UniqueViolation))
    else if !HasTenant(st, k.tenantId) then Err(Unhandled(ForeignKeyViolation))
    else Ok(st.(apiKeys := st.apiKeys + [k], clock := st.clock + 1))
  }

  predicate UserClash(st: Store, u: User) {
    exists v :: v in st.users && (v.id == u.id || (v.tenantId == u.tenantId && v.externalId == u.externalId))
  }

  function InsertUser(st: Store, u: User): (r: Result<Store>)
    ensures r.Ok? <==> !UserClash(st, u) && HasTenant(st, u.tenantId)
    ensures r.Ok? ==> r.value == st.(users := st.users + [u], clock := st.clock + 1)
    ensures r.Err? ==> r.error.Unhandled?
  {
    if UserClash(st, u) then Err(Unhandled(UniqueViolation))
    else if !HasTenant(st, u.tenantId) then Err(Unhandled(ForeignKeyViolation))
    else Ok(st.(users := st.users + [u], clock := st.clock + 1))
  }

  /** The channel-config table's unique index is not part of this model's
      schema; `sameSlot(a, b)` says two rows collide on it. */
  predicate ConfigClash(st: Store, c: ChannelConfig, sameSlot: (ChannelConfig, ChannelConfig) -> bool) {
    exists d :: d in st.channelConfigs && (d.id == c.id || sameSlot(d, c))
  }

  function InsertChannelConfig(st: Store, c: ChannelConfig, sameSlot: (ChannelConfig, ChannelConfig) -> bool): (r: Result<Store>)
    ensures r.Ok? <==> !ConfigClash(st, c, sameSlot) && HasTenant(st, c.tenantId)
    ensures r.Ok? ==> r.value == st.(channelConfigs := st.channelConfigs + [c], clock := st.clock + 1)
    ensures r.Err? ==> (r.error == Unhandled(UniqueViolation) <==> ConfigClash(st, c, sameSlot))
  {
    if ConfigClash(st, c, sameSlot) then Err(Unhandled(UniqueViolation))
    else if !HasTenant(st, c.tenantId) then Err(Unhandled(ForeignKeyViolation))
    else Ok(st.(channelConfigs := st.channelConfigs + [c], clock := st.clock + 1))
  }

  // The constraints the schema maintains.

  ghost predicate TenantsUnique(ts: seq<Tenant>) {
    forall i, j :: 0 <= i < j < |ts| ==> ts[i].id != ts[j].id && ts[i].email != ts[j].email
  }

  ghost predicate KeysUnique(ks: seq<ApiKey>) {
    forall i, j :: 0 <= i < j < |ks| ==> ks[i].id != ks[j].id && ks[i].keyHash != ks[j].keyHash
  }

  ghost predicate UsersUnique(us: seq<User>) {
    forall i, j :: 0 <= i < j < |us| ==>
      us[i].id != us[j].id && (us[i].tenantId != us[j].tenantId || us[i].externalId != us[j].externalId)
  }

  ghost predicate ConfigsUnique(cs: seq<ChannelConfig>) {
    forall i, j :: 0 <= i < j < |cs| ==> cs[i].id != cs[j].id
  }

  ghost predicate HasUser(st: Store, userId: string) {
    exists u :: u in st.users && u.id == userId
  }

  /** Every foreign key points at an existing row. */
  ghost predicate ReferencesResolve(st: Store) {
    && (forall k :: k in st.apiKeys ==> HasTenant(st, k.tenantId))
    && (forall u :: u in st.users ==> HasTenant(st, u.tenantId))
    && (forall c :: c in st.channelConfigs ==> HasTenant(st, c.tenantId))
    && (forall s :: s in st.subscriptions ==> HasUser(st, s.userId))
    && (forall n :: n in st.notifications ==> HasUser(st, n.userId))
  }

  /** The store invariant: unique indexes hold and every reference resolves. */
  ghost predicate Valid(st: Store) {
    && TenantsUnique(st.tenants)
    && KeysUnique(st.apiKeys)
    && UsersUnique(st.users)
    && ConfigsUnique(st.channelConfigs)
    && ReferencesResolve(st)
  }

  /** In a valid store the tenant found by email is the only one with that
      email, and looking its id up finds it again. */
  lemma TenantLookupsAgree(st: Store, t: Tenant)
    requires Valid(st)
    requires t in st.tenants
    ensures TenantByEmail(st, t.email) == Some(t)
    ensures TenantById(st, t.id) == Some(t)
  {
    var i :| 0 <= i < |st.tenants| && st.tenants[i] == t;
    var e := FindFirst(st.tenants, TenantWithEmail(t.email));
    var d := FindFirst(st.tenants, TenantWithId(t.id));
    assert TenantWithEmail(t.email)(st.tenants[i]);
    assert TenantWithId(t.id)(st.tenants[i]);
    assert e.Some? && d.Some?;
    assert e.value <= i && d.value <= i;
  }

  /** Rewriting one tenant row keeps the store valid when the id stays and
      the new email is not another tenant's. */
  lemma ValidAfterTenantEdit(st: Store, i: nat, t2: Tenant)
    requires Valid(st)
    requires i < |st.tenants|
    requires t2.id == st.tenants[i].id
    requires forall j :: 0 <= j < |st.tenants| && j != i ==> st.tenants[j].email != t2.email
    ensures Valid(st.(tenants := st.tenants[i := t2]))
  {
    var st2 := st.(tenants := st.tenants[i := t2]);
    forall id | HasTenant(st, id)
      ensures HasTenant(st2, id)
    {
      var t :| t in st.tenants && t.id == id;
      var j :| 0 <= j < |st.tenants| && st.tenants[j] == t;
      assert st2.tenants[j].id == id;
    }
  }

  /** Changing only the `is_active` flags of key rows keeps the store valid. */
  lemma ValidAfterKeyFlags(st: Store, keys2: seq<ApiKey>)
    requires Valid(st)
    requires |keys2| == |st.apiKeys|
    requires forall i :: 0 <= i < |keys2| ==> keys2[i] == st.apiKeys[i].(isActive := keys2[i].isActive)
    ensures Valid(st.(apiKeys := keys2))
  {
    var st2 := st.(apiKeys := keys2);
    forall k | k in keys2
      ensures HasTenant(st2, k.tenantId)
    {
      var i :| 0 <= i < |keys2| && keys2[i] == k;
      assert st.apiKeys[i] in st.apiKeys;
    }
  }
  /** An accepted tenant insert keeps the store valid. */
  lemma ValidAfterInsertTenant(st: Store, t: Tenant)
    requires Valid(st)
    requires InsertTenant(st, t).Ok?
    ensures Valid(InsertTenant(st, t).value)
  {
    var st2 := InsertTenant(st, t).value;
    assert forall j :: 0 <= j < |st.tenants| ==> st.tenants[j] in st.tenants;
    assert forall id :: HasTenant(st, id) ==> HasTenant(st2, id);
  }

  /** An accepted key insert keeps the store valid: the owner exists and
      neither the id nor the digest was taken. */
  lemma ValidAfterInsertApiKey(st: Store, k: ApiKey)
    requires Valid(st)
    requires InsertApiKey(st, k).Ok?
    ensures Valid(InsertApiKey(st, k).value)
  {
    assert forall j :: 0 <= j < |st.apiKeys| ==> st.apiKeys[j] in st.apiKeys;
  }

  /** An accepted user insert keeps the store valid. */
  lemma ValidAfterInsertUser(st: Store, u: User)
    requires Valid(st)
    requires InsertUser(st, u).Ok?
    ensures Valid(InsertUser(st, u).value)
  {
    var st2 := InsertUser(st, u).value;
    assert forall j :: 0 <= j < |st.users| ==> st.users[j] in st.users;
    assert forall id :: HasUser(st, id) ==> HasUser(st2, id);
  }
}
