/** End users of a tenant (src/public/users/users.service.ts): creation,
    activation with the cancellation of pending notifications, and hard
    deletion with everything that references the user.
 */
module UsersService {
  import opened Wrappers
  import opened Seqs
  import opened Store

  const ExternalIdRequired: string := "externalId is required"
  const DuplicateUser: string := "DuplicateUser: externalId already exists"

  /** The columns `createUser` selects from the new row. */
  datatype CreatedUser = CreatedUser(id: string, externalId: string, createdAt: nat)

  /** `user.findUnique({ where: { uk_user_tenant_external } })`: the position
      of the tenant's user with this external id. */
  function UserIndex(st: Store, tenantId: string, externalId: string): (r: Option<nat>)
    ensures r.Some? ==> r.value < |st.users| && st.users[r.value].tenantId == tenantId && st.users[r.value].externalId == externalId
    ensures r.None? <==> forall u :: u in st.users ==> !(u.tenantId == tenantId && u.externalId == externalId)
  {
    var r := FindFirst(st.users, UserWithExternal(tenantId, externalId));
    assert r.None? ==> forall u :: u in st.users ==> !UserWithExternal(tenantId, externalId)(u);
    r
  }

  /** `createUser`; the database assigns `userId`. */
  function CreateUser(st: Store, tenantId: string, externalId: string, userId: string): (r: Result<(Store, CreatedUser)>)
    ensures externalId == "" ==> r == Err(BadRequest(ExternalIdRequired))
    ensures externalId != "" && UserIndex(st, tenantId, externalId).Some? ==> r == Err(Conflict(DuplicateUser))
    ensures r.Ok? ==>
      && UserIndex(st, tenantId, externalId).None?
      && r.value.0 == st.(users := st.users + [User(userId, tenantId, externalId, true, st.clock)], clock := st.clock + 1)
      && r.value.1 == CreatedUser(userId, externalId, st.clock)
    ensures (&& externalId != "" && UserIndex(st, tenantId, externalId).None?
             && (forall u :: u in st.users ==> u.id != userId) && HasTenant(st, tenantId)) ==> r.Ok?
    ensures r.Err? ==> r.error.BadRequest? || r.error.Conflict? || r.error.Unhandled?
  {
    if externalId == "" then Err(BadRequest(ExternalIdRequired))
    else if UserIndex(st, tenantId, externalId).Some? then Err(Conflict(DuplicateUser))
    else
      var user := User(userId, tenantId, externalId, true, st.clock);
      var st2 :- InsertUser(st, user);
      Ok((st2, CreatedUser(user.id, user.externalId, user.createdAt)))
  }

  /** The external id is unique per tenant only: once a user exists under one
      tenant, creating the same external id under another tenant is not a
      duplicate. */
  lemma ExternalIdScopedToTenant(st: Store, t1: string, t2: string, externalId: string, id1: string, id2: string)
    requires t1 != t2
    requires CreateUser(st, t1, externalId, id1).Ok?
    requires UserIndex(st, t2, externalId).None?
    ensures var st2 := CreateUser(st, t1, externalId, id1).value.0;
      CreateUser(st2, t2, externalId, id2) != Err(Conflict(DuplicateUser))
  {
    var st2 := CreateUser(st, t1, externalId, id1).value.0;
    assert UserIndex(st2, t2, externalId).None? by {
      forall u | u in st2.users
        ensures !(u.tenantId == t2 && u.externalId == externalId)
      {
        if u !in st.users {
          assert u == st2.users[|st.users|];
        }
      }
    }
  }

  // setActiveState

  predicate Pending(s: NotificationStatus) {
    s == QUEUED || s == SENDING
  }

  /** `notification.updateMany({ where: { user_id, status in [QUEUED, SENDING] },
      data: { status: CANCELED } })`. */
  function CancelPending(ns: seq<Notification>, userId: string): (r: seq<Notification>)
    ensures |r| == |ns|
    ensures forall i :: 0 <= i < |ns| ==> r[i] == ns[i].(status := r[i].status)
    ensures forall i :: 0 <= i < |ns| && ns[i].userId == userId && Pending(ns[i].status) ==> r[i].status == CANCELED
    ensures forall i :: 0 <= i < |ns| && !(ns[i].userId == userId && Pending(ns[i].status)) ==> r[i] == ns[i]
  {
    if |ns| == 0 then []
    else
      var n := ns[0];
      [if n.userId == userId && Pending(n.status) then n.(status := CANCELED) else n] + CancelPending(ns[1..], userId)
  }

  /** `setActiveState`: `None` (the source's `null`) when the tenant has no
      such user, otherwise the updated store. */
  function SetActiveState(st: Store, externalId: string, tenantId: string, isActive: bool): (r: Option<Store>)
    ensures r.None? <==> UserIndex(st, tenantId, externalId).None?
    ensures r.Some? ==>
      var i := UserIndex(st, tenantId, externalId).value;
      var u := st.users[i];
      && r.value == st.(users := st.users[i := u.(isActive := isActive)], notifications := r.value.notifications)
      && (isActive ==> r.value.notifications == st.notifications)
      && (!isActive ==> r.value.notifications == CancelPending(st.notifications, u.id))
  {
    match UserIndex(st, tenantId, externalId)
    case None => None
    case Some(i) =>
      var u := st.users[i];
      var st2 := st.(users := st.users[i := u.(isActive := isActive)]);
      Some(if isActive then st2 else st2.(notifications := CancelPending(st.notifications, u.id)))
  }

  /** Deactivation cancels exactly the user's queued and sending
      notifications: nothing of that user is left pending, every other
      notification keeps its status, and the store stays valid. */
  lemma DeactivationCascade(st: Store, externalId: string, tenantId: string)
    requires Valid(st)
    requires UserIndex(st, tenantId, externalId).Some?
    ensures var u := st.users[UserIndex(st, tenantId, externalId).value];
      var st2 := SetActiveState(st, externalId, tenantId, false).value;
      && (forall n :: n in st2.notifications && n.userId == u.id ==> !Pending(n.status))
      && (forall i :: 0 <= i < |st.notifications| && st.notifications[i].userId != u.id ==> st2.notifications[i] == st.notifications[i])
      && (forall i :: 0 <= i < |st.notifications| && !Pending(st.notifications[i].status) ==> st2.notifications[i] == st.notifications[i])
      && st2.subscriptions == st.subscriptions
      && Valid(st2)
  {
    var i := UserIndex(st, tenantId, externalId).value;
    var u := st.users[i];
    var st2 := SetActiveState(st, externalId, tenantId, false).value;
    forall n | n in st2.notifications && n.userId == u.id
      ensures !Pending(n.status)
    {
      var j :| 0 <= j < |st2.notifications| && st2.notifications[j] == n;
    }
    ValidAfterUserEdit(st, i, u.(isActive := false), st2.notifications);
  }

  /** Reactivation touches nothing but the flag, and the store stays valid. */
  lemma ReactivationOnlyFlag(st: Store, externalId: string, tenantId: string)
    requires Valid(st)
    requires UserIndex(st, tenantId, externalId).Some?
    ensures var i := UserIndex(st, tenantId, externalId).value;
      var st2 := SetActiveState(st, externalId, tenantId, true).value;
      && st2.notifications == st.notifications
      && st2.users == st.users[i := st.users[i].(isActive := true)]
      && Valid(st2)
  {
    var i := UserIndex(st, tenantId, externalId).value;
    ValidAfterUserEdit(st, i, st.users[i].(isActive := true), st.notifications);
  }

  /** Rewriting a user's flag and notification statuses keeps the store valid. */
  lemma ValidAfterUserEdit(st: Store, i: nat, u2: User, ns: seq<Notification>)
    requires Valid(st)
    requires i < |st.users|
    requires u2 == st.users[i].(isActive := u2.isActive)
    requires |ns| == |st.notifications|
    requires forall j :: 0 <= j < |ns| ==> ns[j] == st.notifications[j].(status := ns[j].status)
    ensures Valid(st.(users := st.users[i := u2], notifications := ns))
  {
    var st2 := st.(users := st.users[i := u2], notifications := ns);
    forall id | HasUser(st, id)
      ensures HasUser(st2, id)
    {
      var v :| v in st.users && v.id == id;
      var j :| 0 <= j < |st.users| && st.users[j] == v;
      assert st2.users[j].id == id;
    }
    forall n | n in ns
      ensures HasUser(st2, n.userId)
    {
      var j :| 0 <= j < |ns| && ns[j] == n;
      assert st.notifications[j] in st.notifications;
    }
    forall v | v in st2.users
      ensures HasTenant(st2, v.tenantId)
    {
      var j :| 0 <= j < |st2.users| && st2.users[j] == v;
      assert st.users[j] in st.users;
    }
  }

  // hardDeleteUser

  function NotSubscriptionOf(userId: string): Subscription -> bool {
    (s: Subscription) => s.userId != userId
  }

  function NotNotificationOf(userId: string): Notification -> bool {
    (n: Notification) => n.userId != userId
  }

  function NotUser(id: string): User -> bool {
    (u: User) => u.id != id
  }

  /** `hardDeleteUser`: `None` when the tenant has no such user; otherwise
      the user's subscriptions, notifications and row are gone. */
  function HardDeleteUser(st: Store, externalId: string, tenantId: string): (r: Option<Store>)
    ensures r.None? <==> UserIndex(st, tenantId, externalId).None?
    ensures r.Some? ==>
      var u := st.users[UserIndex(st, tenantId, externalId).value];
      && (forall s :: s in r.value.subscriptions ==> s in st.subscriptions && s.userId != u.id)
      && (forall n :: n in r.value.notifications ==> n in st.notifications && n.userId != u.id)
      && (forall v :: v in r.value.users ==> v in st.users && v.id != u.id)
      && r.value == st.(users := r.value.users, subscriptions := r.value.subscriptions, notifications := r.value.notifications)
  {
    match UserIndex(st, tenantId, externalId)
    case None => None
    case Some(i) =>
      var id := st.users[i].id;
      FilterSubset(st.subscriptions, NotSubscriptionOf(id));
      FilterSubset(st.notifications, NotNotificationOf(id));
      FilterSubset(st.users, NotUser(id));
      Some(st.(
        subscriptions := Filter(st.subscriptions, NotSubscriptionOf(id)),
        notifications := Filter(st.notifications, NotNotificationOf(id)),
        users := Filter(st.users, NotUser(id))))
  }

  lemma FilterSubset<T>(s: seq<T>, p: T -> bool)
    ensures forall x :: x in Filter(s, p) ==> x in s && p(x)
  {
    forall x | x in Filter(s, p)
      ensures x in s && p(x)
    {
      assert x in multiset(Filter(s, p));
      FilterMultiset(s, p, x);
    }
  }

  /** Hard deletion keeps every row not tied to the user, as often as it was
      stored, and the store stays valid: nothing is left pointing at the
      deleted user. */
  lemma HardDeleteKeepsOthers(st: Store, externalId: string, tenantId: string)
    requires Valid(st)
    requires UserIndex(st, tenantId, externalId).Some?
    ensures var u := st.users[UserIndex(st, tenantId, externalId).value];
      var st2 := HardDeleteUser(st, externalId, tenantId).value;
      && (forall s :: s in st.subscriptions && s.userId != u.id ==> multiset(st2.subscriptions)[s] == multiset(st.subscriptions)[s])
      && (forall n :: n in st.notifications && n.userId != u.id ==> multiset(st2.notifications)[n] == multiset(st.notifications)[n])
      && (forall v :: v in st.users && v.id != u.id ==> v in st2.users)
      && !HasUser(st2, u.id)
      && Valid(st2)
  {
    var u := st.users[UserIndex(st, tenantId, externalId).value];
    var st2 := HardDeleteUser(st, externalId, tenantId).value;
    forall s | s in st.subscriptions && s.userId != u.id
      ensures multiset(st2.subscriptions)[s] == multiset(st.subscriptions)[s]
    {
      FilterMultiset(st.subscriptions, NotSubscriptionOf(u.id), s);
    }
    forall n | n in st.notifications && n.userId != u.id
      ensures multiset(st2.notifications)[n] == multiset(st.notifications)[n]
    {
      FilterMultiset(st.notifications, NotNotificationOf(u.id), n);
    }
    forall v | v in st.users && v.id != u.id
      ensures v in st2.users
    {
      FilterMultiset(st.users, NotUser(u.id), v);
      assert v in multiset(st.users);
    }
    HardDeleteStaysValid(st, st2, u.id);
  }

  lemma HardDeleteStaysValid(st: Store, st2: Store, id: string)
    requires Valid(st)
    requires st2 == st.(
        subscriptions := Filter(st.subscriptions, NotSubscriptionOf(id)),
        notifications := Filter(st.notifications, NotNotificationOf(id)),
        users := Filter(st.users, NotUser(id)))
    requires forall v :: v in st.users && v.id != id ==> v in st2.users
    ensures Valid(st2)
  {
    FilterSubset(st.subscriptions, NotSubscriptionOf(id));
    FilterSubset(st.notifications, NotNotificationOf(id));
    FilterSubset(st.users, NotUser(id));
    FilterUsersUnique(st.users, NotUser(id));
    forall s | s in st2.subscriptions
      ensures HasUser(st2, s.userId)
    {
      var v :| v in st.users && v.id == s.userId;
    }
    forall n | n in st2.notifications
      ensures HasUser(st2, n.userId)
    {
      var v :| v in st.users && v.id == n.userId;
    }
  }

  /** Two users that may both be stored: different ids, and not the same
      external id in the same tenant. */
  predicate UsersApart(u: User, v: User) {
    u.id != v.id && (u.tenantId != v.tenantId || u.externalId != v.externalId)
  }

  lemma UsersUniqueTail(us: seq<User>)
    requires UsersUnique(us) && |us| > 0
    ensures UsersUnique(us[1..])
    ensures forall v :: v in us[1..] ==> UsersApart(us[0], v)
  {
    forall i, j | 0 <= i < j < |us[1..]|
      ensures UsersApart(us[1..][i], us[1..][j])
    {
      assert us[1..][i] == us[i + 1] && us[1..][j] == us[j + 1];
    }
    forall v | v in us[1..]
      ensures UsersApart(us[0], v)
    {
      var b :| 0 <= b < |us[1..]| && us[1..][b] == v;
      assert us[b + 1] == v;
    }
  }

  /** Every user kept from the tail was in the tail. */
  lemma FilterKeepsMembers(us: seq<User>, p: User -> bool)
    ensures forall v :: v in Filter(us, p) ==> v in us
  {
    forall v | v in Filter(us, p)
      ensures v in us
    {
      assert v in multiset(Filter(us, p));
      FilterMultiset(us, p, v);
      assert v in multiset(us);
    }
  }

  /** Dropping users keeps the remaining ones unique. */
  lemma {:induction false} FilterUsersUnique(us: seq<User>, p: User -> bool)
    requires UsersUnique(us)
    ensures UsersUnique(Filter(us, p))
  {
    if |us| > 0 {
      var rest := Filter(us[1..], p);
      UsersUniqueTail(us);
      FilterUsersUnique(us[1..], p);
      if p(us[0]) {
        FilterKeepsMembers(us[1..], p);
        var f := [us[0]] + rest;
        assert f == Filter(us, p);
        forall i, j | 0 <= i < j < |f|
          ensures UsersApart(f[i], f[j])
        {
          assert f[j] == rest[j - 1] && rest[j - 1] in rest;
          if i > 0 {
            assert f[i] == rest[i - 1];
          }
        }
      } else {
        assert rest == Filter(us, p);
      }
    }
  }
}
