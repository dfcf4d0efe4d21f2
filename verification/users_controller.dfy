/** The tenant-facing user routes (src/public/users/users.controller.ts).
    The guard has already attached `tenant` to the request.
 */
module UsersController {
  import opened Wrappers
  import opened JsValues
  import opened Seqs
  import opened Store
  import opened UsersService

  const IsActiveRequired: string := "isActive (boolean) is required"
  const UserNotFound: string := "User not found"

  datatype ActiveReply = ActiveReply(success: bool, externalId: string, isActive: bool)

  datatype DeleteReply = DeleteReply(success: bool, deleted: bool)

  /** `PATCH :externalId/active`. The body field is not transformed, so
      anything but a JSON boolean is refused before the store is read. */
  function SetActiveStateRoute(st: Store, tenant: Tenant, externalId: string, isActive: Value): (r: Result<(Store, ActiveReply)>)
    ensures !isActive.Bool? ==> r == Err(BadRequest(IsActiveRequired))
    ensures isActive.Bool? ==> (r.Err? <==> UserIndex(st, tenant.id, externalId).None?)
    ensures isActive.Bool? && r.Err? ==> r.error == NotFound(UserNotFound)
    ensures r.Ok? ==> isActive.Bool? && r.value.1 == ActiveReply(true, externalId, isActive.b)
    ensures r.Ok? ==> UserIndex(st, tenant.id, externalId).Some? && |r.value.0.users| == |st.users|
    ensures r.Ok? ==> r.value.0.users[UserIndex(st, tenant.id, externalId).value].isActive == isActive.b
  {
    if TypeOf(isActive) != "boolean" then Err(BadRequest(IsActiveRequired))
    else
      match SetActiveState(st, externalId, tenant.id, isActive.b)
      case None => Err(NotFound(UserNotFound))
      case Some(st2) => Ok((st2, ActiveReply(true, externalId, isActive.b)))
  }

  /** The `force` query value that selects a hard delete: exactly the string
      `"true"`; a repeated parameter arrives as an array and does not. */
  predicate IsForceDelete(force: Value) {
    force == Str("true")
  }

  /** `DELETE :externalId`: a hard delete under `force=true`, otherwise a
      soft delete that deactivates the user. */
  function DeleteUserRoute(st: Store, tenant: Tenant, externalId: string, force: Value): (r: Result<(Store, DeleteReply)>)
    ensures r.Err? <==> UserIndex(st, tenant.id, externalId).None?
    ensures r.Err? ==> r.error == NotFound(UserNotFound)
    ensures r.Ok? ==> r.value.1 == DeleteReply(true, IsForceDelete(force))
    ensures r.Ok? && IsForceDelete(force) ==> r.value.0 == HardDeleteUser(st, externalId, tenant.id).value
    ensures r.Ok? && !IsForceDelete(force) ==> r.value.0 == SetActiveState(st, externalId, tenant.id, false).value
  {
    if IsForceDelete(force) then
      match HardDeleteUser(st, externalId, tenant.id)
      case None => Err(NotFound(UserNotFound))
      case Some(st2) => Ok((st2, DeleteReply(true, true)))
    else
      match SetActiveState(st, externalId, tenant.id, false)
      case None => Err(NotFound(UserNotFound))
      case Some(st2) => Ok((st2, DeleteReply(true, false)))
  }

  /** After a hard delete the user is gone: deleting or (de)activating it
      again fails NotFound. */
  lemma HardDeleteIsFinal(st: Store, tenant: Tenant, externalId: string, force: Value, isActive: bool)
    requires Valid(st)
    requires DeleteUserRoute(st, tenant, externalId, Str("true")).Ok?
    ensures var st2 := DeleteUserRoute(st, tenant, externalId, Str("true")).value.0;
      && DeleteUserRoute(st2, tenant, externalId, force) == Err(NotFound(UserNotFound))
      && SetActiveStateRoute(st2, tenant, externalId, Bool(isActive)) == Err(NotFound(UserNotFound))
  {
    var i := UserIndex(st, tenant.id, externalId).value;
    var u := st.users[i];
    var st2 := DeleteUserRoute(st, tenant, externalId, Str("true")).value.0;
    HardDeleteKeepsOthers(st, externalId, tenant.id);
    forall v | v in st2.users
      ensures !(v.tenantId == tenant.id && v.externalId == externalId)
    {
      assert v in st.users && v.id != u.id;
      var a :| 0 <= a < |st.users| && st.users[a] == v;
      assert a != i;
    }
  }

  /** A soft delete keeps the user, inactive, and repeating it changes nothing. */
  lemma SoftDeleteIdempotent(st: Store, tenant: Tenant, externalId: string, force: Value)
    requires !IsForceDelete(force)
    requires DeleteUserRoute(st, tenant, externalId, force).Ok?
    ensures var st2 := DeleteUserRoute(st, tenant, externalId, force).value.0;
      && UserIndex(st2, tenant.id, externalId) == UserIndex(st, tenant.id, externalId)
      && !st2.users[UserIndex(st, tenant.id, externalId).value].isActive
      && DeleteUserRoute(st2, tenant, externalId, force) == Ok((st2, DeleteReply(true, false)))
  {
    var i := UserIndex(st, tenant.id, externalId).value;
    var st2 := DeleteUserRoute(st, tenant, externalId, force).value.0;
    FindFirstSameMatches(st.users, st2.users, UserWithExternal(tenant.id, externalId));
    var st3 := SetActiveState(st2, externalId, tenant.id, false).value;
    assert st3.users == st2.users;
    assert st3.notifications == st2.notifications by {
      forall j | 0 <= j < |st2.notifications|
        ensures st3.notifications[j] == st2.notifications[j]
      {
      }
    }
  }
}
