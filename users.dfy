/**
 * The user table: replace by id (`handleEditUser`, `handleUpdateUserProfile`
 * and the single-user restore, App.tsx:112, 122, 175), delete by id
 * (App.tsx:128), password change (App.tsx:131-135) and lookup by id
 * (App.tsx:168).
 */
module UserTable {

  import opened Wrappers
  import opened Types
  import opened Seqs

  function IdOf(u: User): string { u.id }

  /** No two users share an id. */
  ghost predicate IdsUnique(us: seq<User>)
  {
    DistinctBy(us, IdOf)
  }

  /** The ids of the table, position by position. */
  function IdsOf(us: seq<User>): (ids: seq<string>)
    ensures |ids| == |us|
    ensures forall i :: 0 <= i < |us| ==> ids[i] == us[i].id
  {
    Map(us, IdOf)
  }

  /** Every user with the id of `updated` becomes `updated`. */
  function ReplaceById(us: seq<User>, updated: User): (out: seq<User>)
    ensures |out| == |us|
    ensures forall i :: 0 <= i < |us| && us[i].id == updated.id ==> out[i] == updated
    ensures forall i :: 0 <= i < |us| && us[i].id != updated.id ==> out[i] == us[i]
  {
    Map(us, (u: User) => if u.id == updated.id then updated else u)
  }

  /** Every user with id `userId` is removed. */
  function DeleteById(us: seq<User>, userId: string): (out: seq<User>)
    ensures |out| <= |us|
    ensures forall i :: 0 <= i < |out| ==> out[i].id != userId && out[i] in us
  {
    Filter(us, (u: User) => u.id != userId)
  }

  /** `u` and `v` agree on every field except `password` and `isProvisionalPassword`. */
  predicate SameButCredentials(u: User, v: User)
  {
    && u.id == v.id && u.username == v.username && u.name == v.name
    && u.role == v.role && u.currency == v.currency && u.language == v.language
    && u.country == v.country && u.hourlyRate == v.hourlyRate && u.nif == v.nif
    && u.email == v.email && u.phone == v.phone && u.isActive == v.isActive
    && u.subscriptionDate == v.subscriptionDate && u.socialSecurity == v.socialSecurity
    && u.irs == v.irs && u.profilePicture == v.profilePicture && u.avatarConfig == v.avatarConfig
  }

  /** `u` with a new password that is no longer provisional. */
  function WithNewPassword(u: User, newPass: string): (v: User)
    ensures v.password == Some(newPass) && v.isProvisionalPassword == Some(false)
    ensures SameButCredentials(v, u)
  {
    u.(password := Some(newPass), isProvisionalPassword := Some(false))
  }

  /** Every user with id `userId` gets the new password; everybody else is unchanged. */
  function ChangePassword(us: seq<User>, userId: string, newPass: string): (out: seq<User>)
    ensures |out| == |us|
    ensures forall i :: 0 <= i < |us| && us[i].id == userId ==>
      out[i].password == Some(newPass) && out[i].isProvisionalPassword == Some(false) &&
      SameButCredentials(out[i], us[i])
    ensures forall i :: 0 <= i < |us| && us[i].id != userId ==> out[i] == us[i]
  {
    Map(us, (u: User) => if u.id == userId then WithNewPassword(u, newPass) else u)
  }

  /** The first user with the given id, if any. */
  function FindById(us: seq<User>, id: string): (r: Option<User>)
    ensures r.Some? ==> r.value in us && r.value.id == id
    ensures r.None? <==> forall i :: 0 <= i < |us| ==> us[i].id != id
  {
    Find(us, (u: User) => u.id == id)
  }

  /** Replacing by id keeps every id at its position. */
  lemma ReplaceKeepsIds(us: seq<User>, updated: User)
    ensures IdsOf(ReplaceById(us, updated)) == IdsOf(us)
  {
    var out := ReplaceById(us, updated);
    assert forall i :: 0 <= i < |us| ==> IdsOf(out)[i] == IdsOf(us)[i];
  }

  /** Replacing by id keeps ids unique. */
  lemma ReplaceKeepsIdsUnique(us: seq<User>, updated: User)
    requires IdsUnique(us)
    ensures IdsUnique(ReplaceById(us, updated))
  {
    var out := ReplaceById(us, updated);
    forall i, j | 0 <= i < j < |out| ensures IdOf(out[i]) != IdOf(out[j]) {
      assert IdOf(out[i]) == IdOf(us[i]) && IdOf(out[j]) == IdOf(us[j]);
    }
  }

  /** Replacing by an id that is not in the table changes nothing. */
  lemma ReplaceAbsentIsNoop(us: seq<User>, updated: User)
    requires forall i :: 0 <= i < |us| ==> us[i].id != updated.id
    ensures ReplaceById(us, updated) == us
  {
  }

  /** Applying the same edit twice is applying it once. */
  lemma ReplaceIdempotent(us: seq<User>, updated: User)
    ensures ReplaceById(ReplaceById(us, updated), updated) == ReplaceById(us, updated)
  {
  }

  /** After replacing a present id, looking that id up finds the new user. */
  lemma FindAfterReplace(us: seq<User>, updated: User)
    requires exists i :: 0 <= i < |us| && us[i].id == updated.id
    ensures FindById(ReplaceById(us, updated), updated.id) == Some(updated)
  {
  }

  /** With unique ids, looking up a stored user's id finds that user. */
  lemma FindStored(us: seq<User>, u: User)
    requires IdsUnique(us) && u in us
    ensures FindById(us, u.id) == Some(u)
  {
    var k :| 0 <= k < |us| && us[k] == u;
    forall j | 0 <= j < k ensures us[j].id != u.id {
      assert IdOf(us[j]) != IdOf(us[k]);
    }
    FindFirst(us, (v: User) => v.id == u.id, k);
  }

  /** Deleting keeps every other user, in order and multiplicity; the deleted id is gone. */
  lemma DeleteKeepsOthers(us: seq<User>, userId: string)
    ensures IsSubsequence(DeleteById(us, userId), us)
    ensures forall x: User :: multiset(DeleteById(us, userId))[x] == if x.id == userId then 0 else multiset(us)[x]
  {
    var keep := (u: User) => u.id != userId;
    FilterIsSubsequence(us, keep);
    forall x: User ensures multiset(DeleteById(us, userId))[x] == if x.id == userId then 0 else multiset(us)[x] {
      FilterCount(us, keep, x);
    }
  }

  /** Deleting an id that is not in the table changes nothing. */
  lemma DeleteAbsentIsNoop(us: seq<User>, userId: string)
    requires forall i :: 0 <= i < |us| ==> us[i].id != userId
    ensures DeleteById(us, userId) == us
  {
    FilterKeepsAll(us, (u: User) => u.id != userId);
  }

  /** Deleting keeps ids unique, and the deleted id can no longer be found. */
  lemma DeleteKeepsIdsUnique(us: seq<User>, userId: string)
    requires IdsUnique(us)
    ensures IdsUnique(DeleteById(us, userId))
    ensures FindById(DeleteById(us, userId), userId) == None
  {
    FilterKeepsDistinct(us, (u: User) => u.id != userId, IdOf);
  }

  /** A password change keeps every id at its position, and so keeps ids unique. */
  lemma ChangePasswordKeepsIds(us: seq<User>, userId: string, newPass: string)
    ensures IdsOf(ChangePassword(us, userId, newPass)) == IdsOf(us)
    ensures IdsUnique(us) ==> IdsUnique(ChangePassword(us, userId, newPass))
  {
    var out := ChangePassword(us, userId, newPass);
    assert forall i :: 0 <= i < |us| ==> IdsOf(out)[i] == IdsOf(us)[i];
    if IdsUnique(us) {
      forall i, j | 0 <= i < j < |out| ensures IdOf(out[i]) != IdOf(out[j]) {
        assert IdOf(out[i]) == IdOf(us[i]) && IdOf(out[j]) == IdOf(us[j]);
      }
    }
  }

  /** After a password change for a present id, that user is found with the new, non-provisional password. */
  lemma FindAfterPasswordChange(us: seq<User>, userId: string, newPass: string)
    requires exists i :: 0 <= i < |us| && us[i].id == userId
    ensures var found := FindById(ChangePassword(us, userId, newPass), userId);
      found.Some? && found.value.password == Some(newPass) &&
      found.value.isProvisionalPassword == Some(false)
  {
  }
}
