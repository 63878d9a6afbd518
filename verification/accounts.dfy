/** The account handlers of userControllers.js over the stored user records: profile
    updates with the unique phone number, self-service deletion and demotion behind the
    last-admin guard, and the admin operations on other users. */
module Accounts {
  import opened Wrappers
  import opened Constants
  import opened Users
  import Http

  type Directory = map<UserId, UserRecord>

  /** `User.findOne({ _id, isDeleted: false })`. */
  predicate Live(users: Directory, id: UserId) {
    id in users && !users[id].isDeleted
  }

  /** The admins whose accounts are not deleted. */
  function LiveAdmins(users: Directory): (r: set<UserId>)
    ensures forall u :: u in r <==> u in users && users[u].role == Admin && !users[u].isDeleted
  {
    set u | u in users && users[u].role == Admin && !users[u].isDeleted
  }

  /** `User.countDocuments({ role: admin, isDeleted: false, _id: { $ne: caller } })` is not
      zero. */
  predicate HasOtherAdmin(users: Directory, caller: UserId) {
    exists u :: u in users && u != caller && users[u].role == Admin && !users[u].isDeleted
  }

  /** `{ isDeleted: true, deletedBy, deletedAt }`. */
  function SoftDeleted(u: UserRecord, actor: UserId, now: int): (r: UserRecord)
    ensures r.isDeleted && r.deletedBy == Some(actor) && r.deletedAt == Some(now)
    ensures r.(isDeleted := u.isDeleted, deletedBy := u.deletedBy, deletedAt := u.deletedAt) == u
  {
    u.(isDeleted := true, deletedBy := Some(actor), deletedAt := Some(now))
  }

  /** `{ role, roleLastUpdatedBy, roleUpdatedAt }`. */
  function WithRole(u: UserRecord, role: Role, actor: UserId, now: int): (r: UserRecord)
    ensures r.role == role && r.roleLastUpdatedBy == Some(actor) && r.roleUpdatedAt == Some(now)
    ensures r.(role := u.role, roleLastUpdatedBy := u.roleLastUpdatedBy, roleUpdatedAt := u.roleUpdatedAt) == u
  {
    u.(role := role, roleLastUpdatedBy := Some(actor), roleUpdatedAt := Some(now))
  }

  /** Taking one account out of the admins (deleting it or making it a user) leaves an admin
      whenever another live admin existed before. */
  lemma OtherAdminSurvives(users: Directory, caller: UserId, u: UserRecord)
    requires caller in users && HasOtherAdmin(users, caller)
    ensures |LiveAdmins(users[caller := u])| >= 1
  {
    var a :| a in users && a != caller && users[a].role == Admin && !users[a].isDeleted;
    assert a in LiveAdmins(users[caller := u]);
  }

  /** A change to a record that was not a live admin, and does not make it one, leaves the
      admins as they were. */
  lemma NonAdminChangeKeepsAdmins(users: Directory, id: UserId, u: UserRecord)
    requires id in users && !(users[id].role == Admin && !users[id].isDeleted)
    requires !(u.role == Admin && !u.isDeleted)
    ensures LiveAdmins(users[id := u]) == LiveAdmins(users)
  {
  }

  /** `updateUserRole` has no last-admin guard: an admin can make the only admin (themself
      included) a user, leaving no admin at all. */
  lemma UpdateUserRoleCanRemoveLastAdmin(u: UserRecord, now: int)
    requires u.role == Admin && !u.isDeleted
    ensures |LiveAdmins(map["a" := u])| == 1
    ensures |LiveAdmins(map["a" := u]["a" := WithRole(u, User, "a", now)])| == 0
  {
    var before := map["a" := u];
    assert LiveAdmins(before) == {"a"};
    assert LiveAdmins(before["a" := WithRole(u, User, "a", now)]) == {};
  }

  /** The fields `updateProfile` takes: names, phone and an optional password. */
  datatype ProfileUpdate = ProfileUpdate(firstname: string, lastname: Option<string>, phone: string, password: Option<string>)

  /** The update `findByIdAndUpdate` applies: the names and phone are replaced, a last name
      only when one was sent, and the password only when it is not empty. */
  function ApplyProfile(u: UserRecord, upd: ProfileUpdate): (r: UserRecord)
    ensures r.firstname == upd.firstname && r.phone == upd.phone
    ensures r.lastname == if upd.lastname.Some? then upd.lastname else u.lastname
    ensures r.password == if upd.password.Some? && upd.password.value != "" then upd.password.value else u.password
    ensures r.email == u.email && r.role == u.role && r.isDeleted == u.isDeleted
    ensures r.(firstname := u.firstname, lastname := u.lastname, phone := u.phone, password := u.password) == u
  {
    var withNames := u.(firstname := upd.firstname, phone := upd.phone);
    var withLast := if upd.lastname.Some? then withNames.(lastname := upd.lastname) else withNames;
    if upd.password.Some? && upd.password.value != "" then withLast.(password := upd.password.value) else withLast
  }

  /** `User.findOne({ phone, _id: { $ne: caller } })` finds someone; deleted accounts count. */
  predicate PhoneTakenByOther(users: Directory, phone: string, caller: UserId) {
    exists u :: u in users && u != caller && users[u].phone == phone
  }

  predicate UniquePhones(users: Directory) {
    forall a, b :: a in users && b in users && a != b ==> users[a].phone != users[b].phone
  }

  /** `getUserById`: 404 for a missing or deleted user. */
  function GetUserById(users: Directory, id: UserId): (r: Result<UserRecord, int>)
    ensures r.Ok? <==> Live(users, id)
    ensures r.Ok? ==> r.value == users[id]
    ensures r.Err? ==> r.error == Http.NotFound
  {
    if Live(users, id) then Ok(users[id]) else Err(Http.NotFound)
  }

  /** The stored users. */
  class UserDirectory {
    var users: Directory

    ghost predicate Valid()
      reads this
    {
      UniquePhones(users)
    }

    constructor (users: Directory)
      requires UniquePhones(users)
      ensures this.users == users && Valid()
    {
      this.users := users;
    }

    /** `updateProfile`: 409 when another account has the phone number; otherwise the
        caller's record is updated and the phone numbers stay unique. The email address is
        never changed. */
    method UpdateProfile(caller: UserId, upd: ProfileUpdate) returns (r: Result<UserRecord, int>)
      requires Valid() && caller in users
      modifies this
      ensures Valid()
      ensures PhoneTakenByOther(old(users), upd.phone, caller) ==> r == Err(Http.Conflict) && users == old(users)
      ensures !PhoneTakenByOther(old(users), upd.phone, caller) ==>
        r == Ok(ApplyProfile(old(users)[caller], upd)) && users == old(users)[caller := r.value]
      ensures caller in users && users[caller].email == old(users)[caller].email
    {
      var anotherUser := exists u :: u in users && u != caller && users[u].phone == upd.phone;
      if anotherUser {
        return Err(Http.Conflict);
      }
      var updated := ApplyProfile(users[caller], upd);
      users := users[caller := updated];
      return Ok(updated);
    }

    /** `deleteAccount`: an admin with no other live admin is refused with 409; anyone else
        soft-deletes their own account. */
    method DeleteAccount(caller: UserId, now: int) returns (r: Result<(), int>)
      requires Valid() && caller in users
      modifies this
      ensures Valid()
      ensures old(users)[caller].role == Admin && !HasOtherAdmin(old(users), caller) ==>
        r == Err(Http.Conflict) && users == old(users)
      ensures old(users)[caller].role != Admin || HasOtherAdmin(old(users), caller) ==>
        r == Ok(()) && users == old(users)[caller := SoftDeleted(old(users)[caller], caller, now)]
      ensures |LiveAdmins(old(users))| >= 1 ==> |LiveAdmins(users)| >= 1
    {
      if users[caller].role == Admin {
        var adminCount := |LiveAdmins(users) - {caller}|;
        assert adminCount == 0 <==> !HasOtherAdmin(users, caller) by {
          if HasOtherAdmin(users, caller) {
            var a :| a in users && a != caller && users[a].role == Admin && !users[a].isDeleted;
            assert a in LiveAdmins(users) - {caller};
          }
        }
        if adminCount == 0 {
          return Err(Http.Conflict);
        }
        OtherAdminSurvives(users, caller, SoftDeleted(users[caller], caller, now));
      } else {
        NonAdminChangeKeepsAdmins(users, caller, SoftDeleted(users[caller], caller, now));
      }
      users := users[caller := SoftDeleted(users[caller], caller, now)];
      return Ok(());
    }

    /** `adminSelfDemote`: 409 when no other live admin exists; otherwise the caller's role
        becomes user. */
    method AdminSelfDemote(caller: UserId, now: int) returns (r: Result<UserRecord, int>)
      requires Valid() && caller in users
      modifies this
      ensures Valid()
      ensures !HasOtherAdmin(old(users), caller) ==> r == Err(Http.Conflict) && users == old(users)
      ensures HasOtherAdmin(old(users), caller) ==>
        r == Ok(WithRole(old(users)[caller], User, caller, now)) && users == old(users)[caller := r.value]
      ensures |LiveAdmins(old(users))| >= 1 ==> |LiveAdmins(users)| >= 1
    {
      if !HasOtherAdmin(users, caller) {
        return Err(Http.Conflict);
      }
      var demoted := WithRole(users[caller], User, caller, now);
      OtherAdminSurvives(users, caller, demoted);
      users := users[caller := demoted];
      return Ok(demoted);
    }

    /** `adminSelfDelete`: the same guard; otherwise the caller's account is soft-deleted. */
    method AdminSelfDelete(caller: UserId, now: int) returns (r: Result<(), int>)
      requires Valid() && caller in users
      modifies this
      ensures Valid()
      ensures !HasOtherAdmin(old(users), caller) ==> r == Err(Http.Conflict) && users == old(users)
      ensures HasOtherAdmin(old(users), caller) ==>
        r == Ok(()) && users == old(users)[caller := SoftDeleted(old(users)[caller], caller, now)]
      ensures |LiveAdmins(old(users))| >= 1 ==> |LiveAdmins(users)| >= 1
    {
      if !HasOtherAdmin(users, caller) {
        return Err(Http.Conflict);
      }
      OtherAdminSurvives(users, caller, SoftDeleted(users[caller], caller, now));
      users := users[caller := SoftDeleted(users[caller], caller, now)];
      return Ok(());
    }

    /** `updateUserRole`: 404 for a missing or deleted user; otherwise the role is set,
        with no last-admin guard. */
    method UpdateUserRole(admin: UserId, target: UserId, role: Role, now: int) returns (r: Result<UserRecord, int>)
      requires Valid()
      modifies this
      ensures Valid()
      ensures !Live(old(users), target) ==> r == Err(Http.NotFound) && users == old(users)
      ensures Live(old(users), target) ==>
        r == Ok(WithRole(old(users)[target], role, admin, now)) && users == old(users)[target := r.value]
    {
      if !Live(users, target) {
        return Err(Http.NotFound);
      }
      var updated := WithRole(users[target], role, admin, now);
      users := users[target := updated];
      return Ok(updated);
    }

    /** `deleteUser`: 404 for a missing or deleted user; otherwise it is soft-deleted by the
        admin. */
    method DeleteUser(admin: UserId, target: UserId, now: int) returns (r: Result<UserId, int>)
      requires Valid()
      modifies this
      ensures Valid()
      ensures !Live(old(users), target) ==> r == Err(Http.NotFound) && users == old(users)
      ensures Live(old(users), target) ==>
        r == Ok(target) && users == old(users)[target := SoftDeleted(old(users)[target], admin, now)]
    {
      if !Live(users, target) {
        return Err(Http.NotFound);
      }
      users := users[target := SoftDeleted(users[target], admin, now)];
      return Ok(target);
    }
  }
}
