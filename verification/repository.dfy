/**
 * API/Repositories/InMemoryUserRepository.cs: a list of users and the counter
 * that hands out their ids.
 *
 * The model works on values. The C# list holds references: `CreateUserAsync`
 * stores the caller's own object, `GetAllUsersAsync` returns a live view of the
 * list, and the service edits the stored object before it asks for the update.
 * Here the stored users are values owned by the repository, and each operation
 * states the list it leaves behind.
 */
module Repositories {
  import opened Wrappers
  import opened Models

  /** Position of the first user with `id`: the element `FirstOrDefault(u => u.Id == id)` finds. */
  function IndexOfId(users: seq<User>, id: int): (r: Option<nat>)
    ensures r.Some? ==> r.value < |users| && users[r.value].id == id
    ensures r.Some? ==> forall j :: 0 <= j < r.value ==> users[j].id != id
    ensures r.None? <==> !HasId(users, id)
  {
    if users == [] then None
    else if users[0].id == id then Some(0)
    else match IndexOfId(users[1..], id)
      case None => None
      case Some(k) => Some(k + 1)
  }

  predicate HasId(users: seq<User>, id: int) {
    exists i :: 0 <= i < |users| && users[i].id == id
  }

  /** The user `FirstOrDefault` returns, or none. */
  function FindById(users: seq<User>, id: int): (r: Option<User>)
    ensures r.None? <==> !HasId(users, id)
    ensures r.Some? ==> r.value in users && r.value.id == id
    ensures r.Some? ==> exists i :: 0 <= i < |users| && r.value == users[i] &&
                                    forall j :: 0 <= j < i ==> users[j].id != id
  {
    match IndexOfId(users, id)
    case None => None
    case Some(i) => Some(users[i])
  }

  /** Ids grow strictly along the list: each create appends the largest id so far. */
  predicate IdsIncreasing(users: seq<User>) {
    forall i, j :: 0 <= i < j < |users| ==> users[i].id < users[j].id
  }

  predicate IdsUnique(users: seq<User>) {
    forall i, j :: 0 <= i < |users| && 0 <= j < |users| && i != j ==> users[i].id != users[j].id
  }

  /** Every stored id was handed out by the counter, which starts at 1. */
  predicate IdsBelow(users: seq<User>, bound: int) {
    forall i :: 0 <= i < |users| ==> 1 <= users[i].id < bound
  }

  lemma IncreasingIdsAreUnique(users: seq<User>)
    requires IdsIncreasing(users)
    ensures IdsUnique(users)
  {
  }

  /** `List.Remove` of the element at position `i`. */
  function RemoveAt(users: seq<User>, i: nat): (r: seq<User>)
    requires i < |users|
    ensures |r| == |users| - 1
    ensures forall k :: 0 <= k < i ==> r[k] == users[k]
    ensures forall k :: i <= k < |r| ==> r[k] == users[k + 1]
  {
    users[..i] + users[i + 1..]
  }

  /** Removing one user keeps the others in order, so ids still grow and stay below the counter. */
  lemma RemoveAtKeepsIds(users: seq<User>, i: nat, bound: int)
    requires i < |users|
    requires IdsIncreasing(users) && IdsBelow(users, bound)
    ensures IdsIncreasing(RemoveAt(users, i)) && IdsBelow(RemoveAt(users, i), bound)
  {
  }

  /** With unique ids, removing the user with a given id leaves no user with that id. */
  lemma RemoveAtDropsId(users: seq<User>, i: nat)
    requires i < |users|
    requires IdsUnique(users)
    ensures !HasId(RemoveAt(users, i), users[i].id)
  {
  }

  /** A user appended with an id no stored user has is found by that id. */
  lemma {:induction false} FindAfterAppend(users: seq<User>, u: User)
    requires !HasId(users, u.id)
    ensures FindById(users + [u], u.id) == Some(u)
  {
    var all := users + [u];
    assert all[|users|] == u;
    var i := IndexOfId(all, u.id);
    assert i.Some?;
  }

  /** The five fields `UpdateUserAsync` copies, all equal. */
  predicate SameEditableFields(a: User, b: User) {
    && a.username == b.username && a.email == b.email
    && a.firstName == b.firstName && a.lastName == b.lastName
    && a.isActive == b.isActive
  }

  /** The fields no update touches, all equal. */
  predicate SameIdentity(a: User, b: User) {
    a.id == b.id && a.createdAt == b.createdAt && a.dateOfBirth == b.dateOfBirth
  }

  /** The stored user after `UpdateUserAsync` copied the five fields of `userUpdate` onto it. */
  function Overwrite(existing: User, userUpdate: User): (r: User)
    ensures SameIdentity(r, existing) && SameEditableFields(r, userUpdate)
  {
    existing.(username := userUpdate.username, email := userUpdate.email,
              firstName := userUpdate.firstName, lastName := userUpdate.lastName,
              isActive := userUpdate.isActive)
  }

  /** The overwrite is determined by the two properties stated on it: no other user has both. */
  lemma OverwriteIsUnique(existing: User, userUpdate: User, r: User)
    requires SameIdentity(r, existing) && SameEditableFields(r, userUpdate)
    ensures r == Overwrite(existing, userUpdate)
  {
  }

  class InMemoryUserRepository {
    /** `_users`, in insertion order. */
    var users: seq<User>
    /** `_nextId`: the id the next create hands out. */
    var nextId: int
    /** Every id handed out so far, including those of users deleted since. */
    ghost var issued: set<int>

    ghost predicate Valid()
      reads this
    {
      && 1 <= nextId
      && IdsIncreasing(users)
      && IdsBelow(users, nextId)
      && (forall i :: 0 <= i < |users| ==> users[i].id in issued)
      && (forall x :: x in issued ==> x < nextId)
    }

    constructor ()
      ensures Valid()
      ensures users == [] && nextId == 1 && issued == {}
    {
      users := [];
      nextId := 1;
      issued := {};
    }

    /**
     * `CreateUserAsync`: the user gets the counter's value as id and the clock
     * reading `now` as creation time, and is appended.
     */
    method CreateUser(user: User, now: DateTime) returns (created: User)
      requires Valid()
      modifies this
      ensures Valid()
      ensures created == user.(id := old(nextId), createdAt := now)
      ensures nextId == old(nextId) + 1
      ensures users == old(users) + [created]
      ensures created.id !in old(issued) && issued == old(issued) + {created.id}
      ensures forall i :: 0 <= i < |old(users)| ==> old(users)[i].id < created.id
    {
      created := user.(id := nextId, createdAt := now);
      nextId := nextId + 1;
      users := users + [created];
      issued := issued + {created.id};
    }

    /** The linear search behind every `FirstOrDefault(u => u.Id == id)` of the class. */
    method FindIndex(id: int) returns (r: Option<nat>)
      ensures r == IndexOfId(users, id)
    {
      var i := 0;
      while i < |users|
        invariant 0 <= i <= |users|
        invariant forall j :: 0 <= j < i ==> users[j].id != id
      {
        if users[i].id == id {
          return Some(i);
        }
        i := i + 1;
      }
      return None;
    }

    /** `GetAllUsersAsync`: the stored users in insertion order. */
    method GetAllUsers() returns (all: seq<User>)
      ensures all == users
    {
      all := users;
    }

    /** `GetUserByIdAsync`. */
    method GetUserById(id: int) returns (r: Option<User>)
      ensures r == FindById(users, id)
      ensures r.None? <==> !HasId(users, id)
    {
      var i := FindIndex(id);
      r := if i.Some? then Some(users[i.value]) else None;
    }

    /**
     * `UpdateUserAsync`: an unknown id changes nothing and yields none; otherwise
     * the five editable fields of the stored user take the values of `userUpdate`.
     */
    method UpdateUser(id: int, userUpdate: User) returns (r: Option<User>)
      requires Valid()
      modifies this
      ensures Valid()
      ensures nextId == old(nextId) && issued == old(issued)
      ensures match IndexOfId(old(users), id)
        case None => r == None && users == old(users)
        case Some(i) =>
          && r == Some(Overwrite(old(users)[i], userUpdate))
          && users == old(users)[i := r.value]
    {
      var i := FindIndex(id);
      if i.None? {
        return None;
      }
      var updated := Overwrite(users[i.value], userUpdate);
      users := users[i.value := updated];
      r := Some(updated);
    }

    /**
     * `DeleteUserAsync`: reports whether a user had the id and removes that user,
     * keeping the others in order. The counter is untouched, so the id is never
     * handed out again.
     */
    method DeleteUser(id: int) returns (removed: bool)
      requires Valid()
      modifies this
      ensures Valid()
      ensures nextId == old(nextId) && issued == old(issued)
      ensures removed == HasId(old(users), id)
      ensures match IndexOfId(old(users), id)
        case None => users == old(users)
        case Some(i) => users == RemoveAt(old(users), i)
      ensures !HasId(users, id)
    {
      var i := FindIndex(id);
      if i.None? {
        return false;
      }
      RemoveAtKeepsIds(users, i.value, nextId);
      IncreasingIdsAreUnique(users);
      RemoveAtDropsId(users, i.value);
      users := RemoveAt(users, i.value);
      removed := true;
    }
  }
}
