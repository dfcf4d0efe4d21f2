/** API-key issuance, validation, activation by mode and listing
    (src/admin/api_keys/api-keys.service.ts).

    The random bytes of a new key and the id the database assigns it are
    parameters; the digest is `Store.Hash`.
 */
module ApiKeysService {
  import opened Wrappers
  import opened Text
  import opened Seqs
  import opened Store

  /** Every raw key starts with this tag. */
  const KeyPrefix: string := "key_"

  /** `randomBytes(32)`: the amount of entropy behind a key, which makes a
      raw key 68 characters long. */
  const EntropyBytes: nat := 32

  const TenantNotFound: string := "Tenant not found"
  const KeyNotFoundForTenant: string := "API key not found for this tenant"

  /** `key_${randomBytes(32).toString('hex')}`: the prefix, then the entropy
      in hex, from which the entropy can be read back. */
  function RawKey(entropy: seq<Byte>): (raw: string)
    ensures |raw| == |KeyPrefix| + 2 * |entropy|
    ensures |entropy| == EntropyBytes ==> |raw| == 68
    ensures raw[..|KeyPrefix|] == KeyPrefix
    ensures Unhex(raw[|KeyPrefix|..]) == Some(entropy)
  {
    UnhexHex(entropy);
    assert (KeyPrefix + Hex(entropy))[|KeyPrefix|..] == Hex(entropy);
    KeyPrefix + Hex(entropy)
  }

  /** Distinct entropy gives distinct raw keys, hence distinct digests. */
  lemma RawKeyInjective(e1: seq<Byte>, e2: seq<Byte>)
    requires RawKey(e1) == RawKey(e2)
    ensures e1 == e2
  {
    assert Unhex(RawKey(e1)[|KeyPrefix|..]) == Some(e1);
  }

  /** What `generateForTenant` returns: the stored row's id, state and
      creation time, and the raw key, which is never stored. */
  datatype GeneratedKey = GeneratedKey(id: string, isActive: bool, createdAt: nat, key: string)

  /** `st2` is `st` with exactly one new key row: the digest of `g.key`,
      owned by `ownerId`, active, created now. */
  ghost predicate KeyIssued(st: Store, st2: Store, g: GeneratedKey, ownerId: string) {
    && st2 == st.(apiKeys := st.apiKeys + [ApiKey(g.id, Hash(g.key), ownerId, true, st.clock)], clock := st.clock + 1)
    && g.isActive
    && g.createdAt == st.clock
    && |KeyPrefix| <= |g.key| && g.key[..|KeyPrefix|] == KeyPrefix
  }

  /** No key row has this id or this digest yet. */
  ghost predicate FreshKey(st: Store, keyId: string, h: Digest) {
    forall k :: k in st.apiKeys ==> k.id != keyId && k.keyHash != h
  }

  function GenerateForTenant(st: Store, tenantEmail: string, keyId: string, entropy: seq<Byte>): (r: Result<(Store, GeneratedKey)>)
    ensures TenantByEmail(st, tenantEmail).None? ==> r == Err(NotFound(TenantNotFound))
    ensures r.Ok? ==> TenantByEmail(st, tenantEmail).Some?
    ensures r.Ok? ==> KeyIssued(st, r.value.0, r.value.1, TenantByEmail(st, tenantEmail).value.id)
    ensures r.Ok? ==> r.value.1.id == keyId && r.value.1.key == RawKey(entropy)
    ensures TenantByEmail(st, tenantEmail).Some? && FreshKey(st, keyId, Hash(RawKey(entropy))) ==> r.Ok?
    ensures r.Err? ==> r.error == NotFound(TenantNotFound) || r.error == Unhandled(UniqueViolation)
  {
    match TenantByEmail(st, tenantEmail)
    case None => Err(NotFound(TenantNotFound))
    case Some(t) =>
      var raw := RawKey(entropy);
      var row := ApiKey(keyId, Hash(raw), t.id, true, st.clock);
      var st2 :- InsertApiKey(st, row);
      Ok((st2, GeneratedKey(keyId, true, row.createdAt, raw)))
  }

  /** `validateApiKey`: the owning tenant of the active key whose digest
      matches, otherwise `None`. It reads the store only; an absent owner is
      the store error Prisma raises for a required relation. */
  function ValidateApiKey(st: Store, providedKey: string): (r: Result<Option<Tenant>>)
    ensures (forall k :: k in st.apiKeys ==> k.keyHash != Hash(providedKey)) ==> r == Ok(None)
    ensures r.Ok? && r.value.Some? ==>
      r.value.value in st.tenants &&
      exists k :: k in st.apiKeys && k.keyHash == Hash(providedKey) && k.isActive && k.tenantId == r.value.value.id
    ensures r.Err? ==> r.error == Unhandled(MissingRelation)
  {
    match KeyByHash(st, Hash(providedKey))
    case None => Ok(None)
    case Some(k) =>
      match TenantById(st, k.tenantId)
      case None => Err(Unhandled(MissingRelation))
      case Some(t) => if !k.isActive then Ok(None) else Ok(Some(t))
  }

  /** In a valid store `validateApiKey` never fails, and it returns a tenant
      exactly when an active key has the digest; the tenant is that key's
      owner, whatever its suspension flag. */
  lemma ValidateApiKeyCharacterized(st: Store, providedKey: string, k: ApiKey)
    requires Valid(st)
    requires k in st.apiKeys && k.keyHash == Hash(providedKey)
    ensures ValidateApiKey(st, providedKey).Ok?
    ensures k.isActive ==> ValidateApiKey(st, providedKey) == Ok(TenantById(st, k.tenantId))
    ensures k.isActive ==> TenantById(st, k.tenantId).Some?
    ensures !k.isActive ==> ValidateApiKey(st, providedKey) == Ok(None)
  {
    var i :| 0 <= i < |st.apiKeys| && st.apiKeys[i] == k;
    var f := FindFirst(st.apiKeys, KeyWithHash(k.keyHash));
    assert KeyWithHash(k.keyHash)(st.apiKeys[i]);
    assert f.Some? && f.value <= i;
    assert KeyByHash(st, Hash(providedKey)) == Some(k);
    assert HasTenant(st, k.tenantId);
  }

  /** The path argument of the activation routes: `all`, `latest`,
      `oldest`, or a literal key id. */
  datatype Mode = All | Latest | Oldest | ById(id: string)

  function ParseMode(keyIdOrMode: string): (m: Mode)
    ensures m == All <==> keyIdOrMode == "all"
    ensures m == Latest <==> keyIdOrMode == "latest"
    ensures m == Oldest <==> keyIdOrMode == "oldest"
    ensures m.ById? <==> keyIdOrMode != "all" && keyIdOrMode != "latest" && keyIdOrMode != "oldest"
    ensures m.ById? ==> m.id == keyIdOrMode
  {
    if keyIdOrMode == "all" then All
    else if keyIdOrMode == "latest" then Latest
    else if keyIdOrMode == "oldest" then Oldest
    else ById(keyIdOrMode)
  }

  /** The result of an activation change; `activated` is the action word
      ("activated" or "deactivated") of the message. */
  datatype KeyStatusReply =
    | AllKeysUpdated(count: nat, activated: bool)
    | KeyUpdated(activated: bool, keyId: string)

  /** `st2` differs from `st` only in the `is_active` flag of keys, and only
      in keys owned by `tenantId`. */
  ghost predicate OnlyKeyActivityOf(st: Store, st2: Store, tenantId: string) {
    && st2 == st.(apiKeys := st2.apiKeys)
    && |st2.apiKeys| == |st.apiKeys|
    && (forall i :: 0 <= i < |st.apiKeys| ==> st2.apiKeys[i] == st.apiKeys[i].(isActive := st2.apiKeys[i].isActive))
    && (forall i :: 0 <= i < |st.apiKeys| && st.apiKeys[i].tenantId != tenantId ==> st2.apiKeys[i] == st.apiKeys[i])
  }

  /** `api_key.updateMany({ where: { tenant_id, is_active: !target }, data: { is_active: target } })`:
      every key of the tenant ends in the target state, nothing else changes. */
  function SetTenantKeys(keys: seq<ApiKey>, tenantId: string, target: bool): (r: seq<ApiKey>)
    ensures |r| == |keys|
    ensures forall i :: 0 <= i < |keys| ==> r[i] == keys[i].(isActive := r[i].isActive)
    ensures forall i :: 0 <= i < |keys| && keys[i].tenantId == tenantId ==> r[i].isActive == target
    ensures forall i :: 0 <= i < |keys| && keys[i].tenantId != tenantId ==> r[i] == keys[i]
  {
    if |keys| == 0 then []
    else
      var k := keys[0];
      [if k.tenantId == tenantId && k.isActive == !target then k.(isActive := target) else k]
        + SetTenantKeys(keys[1..], tenantId, target)
  }

  /** The bulk update moves exactly the keys that were in the opposite state:
      afterwards none is left there, and the target state gained them all. */
  lemma {:induction false} SetTenantKeysCount(keys: seq<ApiKey>, tenantId: string, target: bool)
    ensures |Filter(SetTenantKeys(keys, tenantId, target), KeyOfIn(tenantId, !target))| == 0
    ensures |Filter(SetTenantKeys(keys, tenantId, target), KeyOfIn(tenantId, target))|
         == |Filter(keys, KeyOfIn(tenantId, target))| + |Filter(keys, KeyOfIn(tenantId, !target))|
  {
    if |keys| > 0 {
      SetTenantKeysCount(keys[1..], tenantId, target);
      var r := SetTenantKeys(keys, tenantId, target);
      assert r[1..] == SetTenantKeys(keys[1..], tenantId, target);
    }
  }

  /** Flip the `is_active` flag of the key at index `i`. */
  function SetKeyAt(st: Store, i: nat, active: bool): (st2: Store)
    requires i < |st.apiKeys|
    ensures OnlyKeyActivityOf(st, st2, st.apiKeys[i].tenantId)
    ensures st2.apiKeys[i].isActive == active
    ensures forall j :: 0 <= j < |st.apiKeys| && j != i ==> st2.apiKeys[j] == st.apiKeys[j]
  {
    st.(apiKeys := st.apiKeys[i := st.apiKeys[i].(isActive := active)])
  }

  function CreatedAt(k: ApiKey): int {
    k.createdAt
  }

  /** Ordering key for `orderBy: { created_at: 'asc' }` as a maximum. */
  function Age(k: ApiKey): int {
    -(k.createdAt as int)
  }

  /** The message of the NotFound raised when `latest`/`oldest` finds no key
      in the state it searches (`!isActive`), naming that state. */
  function NoKeysMessage(isActive: bool): string {
    if isActive then "No inactive keys found" else "No active keys found"
  }

  /** The message as the source spells it: `!isActive ? 'inactive' : 'active'`. */
  function NoKeysMessageAsWritten(isActive: bool): string {
    if !isActive then "No inactive keys found" else "No active keys found"
  }

  /** The source's message names the state opposite to the one searched:
      deactivating `latest` when the tenant has only inactive keys reports
      that no inactive keys exist. */
  lemma NoKeysMessageAsWrittenIsInverted(isActive: bool)
    ensures NoKeysMessageAsWritten(isActive) == NoKeysMessage(!isActive)
    ensures NoKeysMessageAsWritten(isActive) != NoKeysMessage(isActive)
    ensures NoKeysMessageAsWritten(false) == "No inactive keys found"
  {
  }

  /** Flip the key chosen by `latest`/`oldest`, or fail NotFound with
      `noKeys` when no key of the tenant is in the searched state. */
  function FlipChosen(st: Store, chosen: Option<nat>, isActive: bool, noKeys: string): (r: Result<(Store, KeyStatusReply)>)
    requires chosen.Some? ==> chosen.value < |st.apiKeys|
    ensures chosen.None? <==> r.Err?
    ensures r.Err? ==> r.error == NotFound(noKeys)
    ensures r.Ok? ==> r.value == (SetKeyAt(st, chosen.value, isActive), KeyUpdated(isActive, st.apiKeys[chosen.value].id))
  {
    match chosen
    case None => Err(NotFound(noKeys))
    case Some(i) => Ok((SetKeyAt(st, i, isActive), KeyUpdated(isActive, st.apiKeys[i].id)))
  }

  /** The logic of `updateKeyStatusByMode`, with the message of the NotFound
      that `latest`/`oldest` raise when no key is in the searched state as a
      parameter: it changes only the activity of the named tenant's keys, and
      fails only with NotFound. */
  function KeyStatusByMode(st: Store, tenantEmail: string, keyIdOrMode: string, isActive: bool, noKeys: string): (r: Result<(Store, KeyStatusReply)>)
    ensures TenantByEmail(st, tenantEmail).None? ==> r == Err(NotFound(TenantNotFound))
    ensures r.Ok? ==> TenantByEmail(st, tenantEmail).Some?
    ensures r.Ok? ==> OnlyKeyActivityOf(st, r.value.0, TenantByEmail(st, tenantEmail).value.id)
    ensures r.Ok? ==> r.value.1.activated == isActive
    ensures r.Ok? ==> forall i :: 0 <= i < |st.apiKeys| && r.value.0.apiKeys[i] != st.apiKeys[i] ==> r.value.0.apiKeys[i].isActive == isActive
    ensures r.Err? ==> r.error.NotFound?
  {
    match TenantByEmail(st, tenantEmail)
    case None => Err(NotFound(TenantNotFound))
    case Some(t) =>
      match ParseMode(keyIdOrMode)
      case All =>
        var count := |Filter(st.apiKeys, KeyOfIn(t.id, !isActive))|;
        Ok((st.(apiKeys := SetTenantKeys(st.apiKeys, t.id, isActive)), AllKeysUpdated(count, isActive)))
      case Latest =>
        FlipChosen(st, IndexOfMax(st.apiKeys, KeyOfIn(t.id, !isActive), CreatedAt), isActive, noKeys)
      case Oldest =>
        FlipChosen(st, IndexOfMax(st.apiKeys, KeyOfIn(t.id, !isActive), Age), isActive, noKeys)
      case ById(id) =>
        match FindFirst(st.apiKeys, KeyWithId(id))
        case None => Err(NotFound(KeyNotFoundForTenant))
        case Some(i) =>
          if st.apiKeys[i].tenantId != t.id then Err(NotFound(KeyNotFoundForTenant))
          else Ok((SetKeyAt(st, i, isActive), KeyUpdated(isActive, id)))
  }

  /** `updateKeyStatusByMode` with the message naming the state searched;
      the routes use this one. */
  function UpdateKeyStatusByMode(st: Store, tenantEmail: string, keyIdOrMode: string, isActive: bool): (r: Result<(Store, KeyStatusReply)>)
  {
    KeyStatusByMode(st, tenantEmail, keyIdOrMode, isActive, NoKeysMessage(isActive))
  }

  /** `updateKeyStatusByMode` as the source writes it: the same outcome as
      `UpdateKeyStatusByMode` on every input, except that the NotFound of an
      empty `latest`/`oldest` names the state the key would be moved to. */
  function UpdateKeyStatusByModeAsWritten(st: Store, tenantEmail: string, keyIdOrMode: string, isActive: bool): (r: Result<(Store, KeyStatusReply)>)
    ensures var c := UpdateKeyStatusByMode(st, tenantEmail, keyIdOrMode, isActive);
      && (r.Ok? <==> c.Ok?)
      && (c.Ok? ==> r == c)
      && (c.Err? && c.error != NotFound(NoKeysMessage(isActive)) ==> r == c)
      && (c == Err(NotFound(NoKeysMessage(isActive))) ==> r == Err(NotFound(NoKeysMessageAsWritten(isActive))))
  {
    KeyStatusByMode(st, tenantEmail, keyIdOrMode, isActive, NoKeysMessageAsWritten(isActive))
  }

  /** Deactivating (or reactivating) `latest` for a tenant with no key in the
      searched state: the source reports that no key is in the other state. */
  lemma LatestNoKeysAsWritten(st: Store, tenantEmail: string, isActive: bool)
    requires TenantByEmail(st, tenantEmail).Some?
    requires forall k :: k in st.apiKeys && k.tenantId == TenantByEmail(st, tenantEmail).value.id ==> k.isActive == isActive
    ensures UpdateKeyStatusByMode(st, tenantEmail, "latest", isActive) == Err(NotFound(NoKeysMessage(isActive)))
    ensures UpdateKeyStatusByModeAsWritten(st, tenantEmail, "latest", isActive) == Err(NotFound(NoKeysMessage(!isActive)))
    ensures UpdateKeyStatusByModeAsWritten(st, tenantEmail, "latest", isActive) != UpdateKeyStatusByMode(st, tenantEmail, "latest", isActive)
  {
    LatestModeSpec(st, tenantEmail, isActive);
  }

  /** Mode `all`: every key of the tenant ends in the requested state, and the
      reported count is the number of keys that were in the opposite state. */
  lemma AllModeSpec(st: Store, tenantEmail: string, isActive: bool)
    requires TenantByEmail(st, tenantEmail).Some?
    ensures var t := TenantByEmail(st, tenantEmail).value;
      var r := UpdateKeyStatusByMode(st, tenantEmail, "all", isActive);
      && r.Ok?
      && r.value.1 == AllKeysUpdated(|Filter(st.apiKeys, KeyOfIn(t.id, !isActive))|, isActive)
      && (forall i :: 0 <= i < |st.apiKeys| && st.apiKeys[i].tenantId == t.id ==> r.value.0.apiKeys[i].isActive == isActive)
      && |Filter(r.value.0.apiKeys, KeyOfIn(t.id, isActive))|
         == |Filter(st.apiKeys, KeyOfIn(t.id, isActive))| + r.value.1.count
  {
    var t := TenantByEmail(st, tenantEmail).value;
    SetTenantKeysCount(st.apiKeys, t.id, isActive);
  }

  /** Mode `latest`: fails NotFound exactly when the tenant has no key in the
      opposite state; otherwise flips one such key with the newest creation time. */
  lemma LatestModeSpec(st: Store, tenantEmail: string, isActive: bool)
    requires TenantByEmail(st, tenantEmail).Some?
    ensures var t := TenantByEmail(st, tenantEmail).value;
      var r := UpdateKeyStatusByMode(st, tenantEmail, "latest", isActive);
      && (r.Err? <==> forall k :: k in st.apiKeys ==> !(k.tenantId == t.id && k.isActive == !isActive))
      && (r.Err? ==> r.error == NotFound(NoKeysMessage(isActive)))
      && (r.Ok? ==> exists i :: 0 <= i < |st.apiKeys| && ChosenKey(st, r.value, i, t.id, isActive)
                     && forall j :: 0 <= j < |st.apiKeys| && KeyOfIn(t.id, !isActive)(st.apiKeys[j]) ==> st.apiKeys[j].createdAt <= st.apiKeys[i].createdAt)
  {
    var t := TenantByEmail(st, tenantEmail).value;
    var m := IndexOfMax(st.apiKeys, KeyOfIn(t.id, !isActive), CreatedAt);
    if m.Some? {
      assert ChosenKey(st, UpdateKeyStatusByMode(st, tenantEmail, "latest", isActive).value, m.value, t.id, isActive);
    } else {
      forall k | k in st.apiKeys
        ensures !(k.tenantId == t.id && k.isActive == !isActive)
      {
        var j :| 0 <= j < |st.apiKeys| && st.apiKeys[j] == k;
        assert !KeyOfIn(t.id, !isActive)(st.apiKeys[j]);
      }
    }
  }

  /** Mode `oldest`: as `latest`, choosing a key with the oldest creation time. */
  lemma OldestModeSpec(st: Store, tenantEmail: string, isActive: bool)
    requires TenantByEmail(st, tenantEmail).Some?
    ensures var t := TenantByEmail(st, tenantEmail).value;
      var r := UpdateKeyStatusByMode(st, tenantEmail, "oldest", isActive);
      && (r.Err? <==> forall k :: k in st.apiKeys ==> !(k.tenantId == t.id && k.isActive == !isActive))
      && (r.Err? ==> r.error == NotFound(NoKeysMessage(isActive)))
      && (r.Ok? ==> exists i :: 0 <= i < |st.apiKeys| && ChosenKey(st, r.value, i, t.id, isActive)
                     && forall j :: 0 <= j < |st.apiKeys| && KeyOfIn(t.id, !isActive)(st.apiKeys[j]) ==> st.apiKeys[i].createdAt <= st.apiKeys[j].createdAt)
  {
    var t := TenantByEmail(st, tenantEmail).value;
    var m := IndexOfMax(st.apiKeys, KeyOfIn(t.id, !isActive), Age);
    if m.Some? {
      assert ChosenKey(st, UpdateKeyStatusByMode(st, tenantEmail, "oldest", isActive).value, m.value, t.id, isActive);
      forall j | 0 <= j < |st.apiKeys| && KeyOfIn(t.id, !isActive)(st.apiKeys[j])
        ensures st.apiKeys[m.value].createdAt <= st.apiKeys[j].createdAt
      {
        assert Age(st.apiKeys[j]) <= Age(st.apiKeys[m.value]);
      }
    } else {
      forall k | k in st.apiKeys
        ensures !(k.tenantId == t.id && k.isActive == !isActive)
      {
        var j :| 0 <= j < |st.apiKeys| && st.apiKeys[j] == k;
        assert !KeyOfIn(t.id, !isActive)(st.apiKeys[j]);
      }
    }
  }

  /** The reply flips key `i`, a key of the tenant that was in the opposite state, and nothing else. */
  ghost predicate ChosenKey(st: Store, reply: (Store, KeyStatusReply), i: int, tenantId: string, isActive: bool)
    requires 0 <= i < |st.apiKeys|
  {
    && st.apiKeys[i].tenantId == tenantId
    && st.apiKeys[i].isActive == !isActive
    && reply.0 == st.(apiKeys := st.apiKeys[i := st.apiKeys[i].(isActive := isActive)])
    && reply.1 == KeyUpdated(isActive, st.apiKeys[i].id)
  }

  /** A literal key id: NotFound unless a key with that id belongs to the
      tenant; otherwise that key is set to the requested state whatever its
      current state. */
  lemma ByIdModeSpec(st: Store, tenantEmail: string, keyId: string, isActive: bool)
    requires Valid(st)
    requires TenantByEmail(st, tenantEmail).Some?
    requires ParseMode(keyId).ById?
    ensures var t := TenantByEmail(st, tenantEmail).value;
      var r := UpdateKeyStatusByMode(st, tenantEmail, keyId, isActive);
      && (r.Err? <==> forall k :: k in st.apiKeys ==> !(k.id == keyId && k.tenantId == t.id))
      && (r.Err? ==> r.error == NotFound(KeyNotFoundForTenant))
      && (r.Ok? ==> exists i :: 0 <= i < |st.apiKeys| && st.apiKeys[i].id == keyId && st.apiKeys[i].tenantId == t.id
                     && r.value == (st.(apiKeys := st.apiKeys[i := st.apiKeys[i].(isActive := isActive)]), KeyUpdated(isActive, keyId)))
  {
    var t := TenantByEmail(st, tenantEmail).value;
    var f := FindFirst(st.apiKeys, KeyWithId(keyId));
    if f.None? {
      forall k | k in st.apiKeys
        ensures k.id != keyId
      {
        var j :| 0 <= j < |st.apiKeys| && st.apiKeys[j] == k;
        assert !KeyWithId(keyId)(st.apiKeys[j]);
      }
    } else {
      forall k | k in st.apiKeys && k.id == keyId
        ensures k == st.apiKeys[f.value]
      {
        var j :| 0 <= j < |st.apiKeys| && st.apiKeys[j] == k;
        assert KeyWithId(keyId)(st.apiKeys[j]);
      }
    }
  }

  /** Repeating an activation change by literal id changes nothing more. */
  lemma ByIdIdempotent(st: Store, tenantEmail: string, keyId: string, isActive: bool)
    requires ParseMode(keyId).ById?
    requires UpdateKeyStatusByMode(st, tenantEmail, keyId, isActive).Ok?
    ensures var (st2, reply) := UpdateKeyStatusByMode(st, tenantEmail, keyId, isActive).value;
      UpdateKeyStatusByMode(st2, tenantEmail, keyId, isActive) == Ok((st2, reply))
  {
    var (st2, reply) := UpdateKeyStatusByMode(st, tenantEmail, keyId, isActive).value;
    assert st2.tenants == st.tenants;
    var f := FindFirst(st.apiKeys, KeyWithId(keyId));
    var f2 := FindFirst(st2.apiKeys, KeyWithId(keyId));
    assert f2 == f by {
      forall j | 0 <= j < |st.apiKeys|
        ensures KeyWithId(keyId)(st2.apiKeys[j]) == KeyWithId(keyId)(st.apiKeys[j])
      {
      }
      FindFirstSameMatches(st.apiKeys, st2.apiKeys, KeyWithId(keyId));
    }
    assert st2.apiKeys[f.value := st2.apiKeys[f.value].(isActive := isActive)] == st2.apiKeys;
  }

  /** Mode `all` is idempotent: a second identical call reports zero keys
      and leaves the store as the first call left it. */
  lemma AllModeIdempotent(st: Store, tenantEmail: string, isActive: bool)
    requires TenantByEmail(st, tenantEmail).Some?
    ensures var (st2, _) := UpdateKeyStatusByMode(st, tenantEmail, "all", isActive).value;
      UpdateKeyStatusByMode(st2, tenantEmail, "all", isActive) == Ok((st2, AllKeysUpdated(0, isActive)))
  {
    var t := TenantByEmail(st, tenantEmail).value;
    var (st2, _) := UpdateKeyStatusByMode(st, tenantEmail, "all", isActive).value;
    assert st2.tenants == st.tenants;
    SetTenantKeysCount(st.apiKeys, t.id, isActive);
    var again := SetTenantKeys(st2.apiKeys, t.id, isActive);
    assert again == st2.apiKeys;
  }

  /** What `listTenantKeys` exposes of a key: never its digest. */
  datatype KeyView = KeyView(id: string, createdAt: nat, isActive: bool)

  function View(k: ApiKey): KeyView {
    KeyView(k.id, k.createdAt, k.isActive)
  }

  function Views(ks: seq<ApiKey>): (r: seq<KeyView>)
    ensures |r| == |ks|
    ensures forall i :: 0 <= i < |ks| ==> r[i] == View(ks[i])
  {
    seq(|ks|, i requires 0 <= i < |ks| => View(ks[i]))
  }

  function ViewCreatedAt(v: KeyView): int {
    v.createdAt
  }

  /** `listTenantKeys`: the tenant's keys as views, newest first; NotFound
      for an unknown tenant. */
  function ListTenantKeys(st: Store, tenantEmail: string): (r: Result<seq<KeyView>>)
    ensures r.Err? <==> TenantByEmail(st, tenantEmail).None?
    ensures r.Err? ==> r.error == NotFound(TenantNotFound)
    ensures r.Ok? ==> SortedDesc(r.value, ViewCreatedAt)
    ensures r.Ok? ==> |r.value| == |Filter(st.apiKeys, KeyOf(TenantByEmail(st, tenantEmail).value.id))|
  {
    match TenantByEmail(st, tenantEmail)
    case None => Err(NotFound(TenantNotFound))
    case Some(t) => Ok(SortDesc(Views(Filter(st.apiKeys, KeyOf(t.id))), ViewCreatedAt))
  }

  /** The listing holds a view of every key of the tenant and of nothing else. */
  lemma ListTenantKeysContents(st: Store, tenantEmail: string, v: KeyView)
    requires TenantByEmail(st, tenantEmail).Some?
    ensures var t := TenantByEmail(st, tenantEmail).value;
      v in ListTenantKeys(st, tenantEmail).value <==>
      exists k :: k in st.apiKeys && k.tenantId == t.id && View(k) == v
  {
    var t := TenantByEmail(st, tenantEmail).value;
    var owned := Filter(st.apiKeys, KeyOf(t.id));
    var views := Views(owned);
    var listed := ListTenantKeys(st, tenantEmail).value;
    assert multiset(listed) == multiset(views);
    assert v in listed <==> v in multiset(listed);
    assert v in views <==> v in multiset(views);
    if v in views {
      var i :| 0 <= i < |views| && views[i] == v;
      FilterMultiset(st.apiKeys, KeyOf(t.id), owned[i]);
      assert owned[i] in multiset(owned);
      assert owned[i] in multiset(st.apiKeys);
      assert KeyOf(t.id)(owned[i]);
    }
    if k :| k in st.apiKeys && k.tenantId == t.id && View(k) == v {
      FilterMultiset(st.apiKeys, KeyOf(t.id), k);
      assert k in multiset(st.apiKeys);
      assert k in multiset(owned);
      var i :| 0 <= i < |owned| && owned[i] == k;
      assert views[i] == v;
    }
  }
}
