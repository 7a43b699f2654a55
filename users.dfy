/**
 * The in-memory user store of the backend (`UsersService`): an ordered list of
 * users seeded with five entries, with list, get, create, update and remove.
 */
module Users {
  import opened Wrappers
  import Ids

  /** A user; nothing keeps `username` or `email` unique. */
  datatype User = User(id: int, name: string, username: string, email: string)

  /** What a caller supplies to `create`: every field but the id. */
  datatype UserDraft = UserDraft(name: string, username: string, email: string)

  /** What a caller supplies to `update`: any subset of the fields other than the id. */
  datatype UserPatch = UserPatch(name: Option<string>, username: Option<string>, email: Option<string>)

  const UserNotFound: Error := NotFound("User not found")

  /** The ids of a list of users, in the same order. */
  function IdsOf(us: seq<User>): seq<int> {
    seq(|us|, i requires 0 <= i < |us| => us[i].id)
  }

  /** The five users the store starts with (ids 1 to 5). */
  function Seed(): seq<User> {
    [ User(1, "User 1", "user1", "user1@example.com"),
      User(2, "User 2", "user2", "user2@example.com"),
      User(3, "User 3", "user3", "user3@example.com"),
      User(4, "User 4", "user4", "user4@example.com"),
      User(5, "User 5", "user5", "user5@example.com") ]
  }

  /** The seeded ids are 1 to 5, so the first `create` hands out 6. */
  lemma SeedIds()
    ensures IdsOf(Seed()) == [1, 2, 3, 4, 5]
    ensures Ids.NextId(IdsOf(Seed())) == 6
  {
  }

  /**
   * The shallow merge `{ ...user, ...patch }`: every field the patch supplies
   * overwrites, every field it leaves out keeps its old value, and the id stays.
   */
  function Merge(u: User, patch: UserPatch): (r: User)
    ensures r.id == u.id
    ensures r.name == (if patch.name.Some? then patch.name.value else u.name)
    ensures r.username == (if patch.username.Some? then patch.username.value else u.username)
    ensures r.email == (if patch.email.Some? then patch.email.value else u.email)
  {
    u.(name := patch.name.GetOr(u.name),
       username := patch.username.GetOr(u.username),
       email := patch.email.GetOr(u.email))
  }

  /** A patch that supplies nothing leaves a user as it is, and applying a patch twice is applying it once. */
  lemma MergeStable(u: User, patch: UserPatch)
    ensures Merge(u, UserPatch(None, None, None)) == u
    ensures Merge(Merge(u, patch), patch) == Merge(u, patch)
  {
  }

  lemma IdsOfAppend(us: seq<User>, u: User)
    ensures IdsOf(us + [u]) == IdsOf(us) + [u.id]
  {
  }

  /** Deleting the record at one index keeps the remaining ids unique, and its id no longer occurs. */
  lemma RemoveAtKeepsUnique(us: seq<User>, k: int)
    requires 0 <= k < |us|
    requires Ids.Unique(IdsOf(us))
    ensures Ids.Unique(IdsOf(us[..k] + us[k + 1..]))
    ensures us[k].id !in IdsOf(us[..k] + us[k + 1..])
  {
    var s := us[..k] + us[k + 1..];
    assert forall i :: 0 <= i < |s| ==> s[i] == us[if i < k then i else i + 1];
    assert IdsOf(s) == IdsOf(us)[..k] + IdsOf(us)[k + 1..];
    Ids.RemoveAtKeepsUnique(IdsOf(us), k);
  }

  class UsersService {
    /** The store, in insertion order. */
    var users: seq<User>

    /** Ids are unique: the seed has distinct ids and no operation duplicates one. */
    ghost predicate Valid()
      reads this
    {
      Ids.Unique(IdsOf(users))
    }

    constructor ()
      ensures Valid()
      ensures users == Seed()
    {
      users := Seed();
    }

    /** `findAll`: the whole store, in insertion order. */
    method FindAll() returns (r: seq<User>)
      ensures r == users
    {
      r := users;
    }

    /** `findOne`: the first user with that id, or "User not found". */
    method FindOne(id: int) returns (r: Result<User, Error>)
      ensures r.Err? <==> id !in IdsOf(users)
      ensures r.Err? ==> r.error == UserNotFound
      ensures r.Ok? ==> r.value == users[Ids.FirstIndex(IdsOf(users), id)]
      ensures r.Ok? ==> r.value in users && r.value.id == id
    {
      var k := Ids.FindIndex(IdsOf(users), id);
      if k == -1 {
        r := Err(UserNotFound);
      } else {
        r := Ok(users[k]);
      }
    }

    /** `create`: appends the draft under the next id and returns the new user. */
    method Create(draft: UserDraft) returns (u: User)
      requires Valid()
      modifies this
      ensures Valid()
      ensures u.id == Ids.NextId(old(IdsOf(users)))
      ensures forall v :: v in old(users) ==> v.id < u.id
      ensures u.name == draft.name && u.username == draft.username && u.email == draft.email
      ensures users == old(users) + [u]
    {
      var id := Ids.ComputeNextId(IdsOf(users));
      forall v | v in users
        ensures v.id < id
      {
        var i :| 0 <= i < |users| && users[i] == v;
        assert IdsOf(users)[i] == v.id;
      }
      u := User(id, draft.name, draft.username, draft.email);
      IdsOfAppend(users, u);
      Ids.AppendFreshKeepsUnique(IdsOf(users), id);
      users := users + [u];
    }

    /**
     * `update`: merges the patch into the first user with that id and returns the
     * result; an unknown id fails with "User not found" and changes nothing.
     */
    method Update(id: int, patch: UserPatch) returns (r: Result<User, Error>)
      requires Valid()
      modifies this
      ensures Valid()
      ensures IdsOf(users) == old(IdsOf(users))
      ensures r.Err? <==> id !in old(IdsOf(users))
      ensures r.Err? ==> r.error == UserNotFound && users == old(users)
      ensures r.Ok? ==>
        var k := Ids.FirstIndex(old(IdsOf(users)), id);
        users == old(users)[k := Merge(old(users)[k], patch)] && r.value == users[k]
    {
      var k := Ids.FindIndex(IdsOf(users), id);
      if k == -1 {
        return Err(UserNotFound);
      }
      var merged := Merge(users[k], patch);
      assert IdsOf(users[k := merged]) == IdsOf(users);
      users := users[k := merged];
      r := Ok(users[k]);
    }

    /**
     * `remove`: deletes the first user with that id, keeping the others in order;
     * an unknown id fails with "User not found" and changes nothing.
     */
    method Remove(id: int) returns (r: Outcome<Error>)
      requires Valid()
      modifies this
      ensures Valid()
      ensures r.Fail? <==> id !in old(IdsOf(users))
      ensures r.Fail? ==> r.error == UserNotFound && users == old(users)
      ensures r.Pass? ==>
        var k := Ids.FirstIndex(old(IdsOf(users)), id);
        users == old(users)[..k] + old(users)[k + 1..]
      ensures r.Pass? ==> |users| == |old(users)| - 1 && id !in IdsOf(users)
    {
      var k := Ids.FindIndex(IdsOf(users), id);
      if k == -1 {
        return Fail(UserNotFound);
      }
      RemoveAtKeepsUnique(users, k);
      users := users[..k] + users[k + 1..];
      r := Pass;
    }
  }

  /**
   * On the seeded store: `create` hands out id 6; two listings with nothing in
   * between are equal; after `remove(6)` the user is gone and `findOne(6)` fails.
   */
  method SeededScenario() returns (created: User, first: seq<User>, second: seq<User>, lookup: Result<User, Error>)
    ensures created == User(6, "N", "n", "n@example.com")
    ensures first == second && |first| == 6
    ensures lookup == Err(UserNotFound)
  {
    var store := new UsersService();
    SeedIds();
    created := store.Create(UserDraft("N", "n", "n@example.com"));
    first := store.FindAll();
    second := store.FindAll();
    var removed := store.Remove(6);
    lookup := store.FindOne(6);
  }

  /** `findOne(create(draft).id)` returns the new user: the draft's fields under the assigned id. */
  method CreateThenFindOne(store: UsersService, draft: UserDraft) returns (u: User, found: Result<User, Error>)
    requires store.Valid()
    modifies store
    ensures store.Valid()
    ensures found == Ok(User(u.id, draft.name, draft.username, draft.email))
  {
    ghost var before := IdsOf(store.users);
    u := store.Create(draft);
    IdsOfAppend(old(store.users), u);
    Ids.FirstIndexOfAppended(before, u.id);
    found := store.FindOne(u.id);
  }

  /** After a successful `remove(id)`, `findOne(id)` fails with "User not found". */
  method RemoveThenFindOne(store: UsersService, id: int) returns (removed: Outcome<Error>, found: Result<User, Error>)
    requires store.Valid()
    modifies store
    ensures store.Valid()
    ensures removed.Pass? ==> |store.users| == |old(store.users)| - 1
    ensures found == Err(UserNotFound)
  {
    removed := store.Remove(id);
    found := store.FindOne(id);
  }
}
