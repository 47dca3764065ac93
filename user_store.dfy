/** The user table of the store: `save`, `findAll` and the derived query `findByEmail`. */
module UserStore {
  import opened Common
  import Tables

  /** A `User` entity's fields as a value; a `None` is a Java `null`. */
  datatype User = User(id: Option<int>, username: Option<string>, email: Option<string>, password: Option<string>)

  /** The keys of the users whose email equals `email` (a `null` email matches a `null`
      email, as a derived query compares with `IS NULL`). */
  ghost function EmailKeys(users: map<int, User>, email: Option<string>): set<int> {
    set k | k in users && users[k].email == email
  }

  class UserTable {
    var users: map<int, User>
    var nextId: int

    /** Every user is stored under its own id, below the next id to hand out. */
    ghost predicate Valid()
      reads this
    {
      && 1 <= nextId
      && Tables.KeysBelow(users, nextId)
      && forall k :: k in users ==> users[k].id == Some(k)
    }

    constructor ()
      ensures Valid() && users == map[]
    {
      users, nextId := map[], 1;
    }

    /** `findAll`: each stored user exactly once, in ascending id order. */
    method FindAll() returns (r: seq<User>)
      requires Valid()
      ensures forall i :: 0 <= i < |r| ==> r[i].id.Some? && r[i].id.value in users && users[r[i].id.value] == r[i]
      ensures forall k :: k in users ==> users[k] in r
      ensures forall i, j :: 0 <= i < j < |r| ==> r[i].id.value < r[j].id.value
    {
      var keys;
      keys, r := Tables.ListValues(users, nextId);
      forall k | k in users ensures users[k] in r {
        var n :| 0 <= n < |keys| && keys[n] == k;
        assert r[n] == users[k];
      }
    }

    /** `save`: a user carrying the id of a stored user replaces it; any other is inserted
        under a new id. The saved user is returned. */
    method Save(u: User) returns (saved: User)
      requires Valid()
      modifies this
      ensures Valid()
      ensures saved.username == u.username && saved.email == u.email && saved.password == u.password
      ensures u.id.Some? && u.id.value in old(users) ==> saved == u && nextId == old(nextId)
      ensures !(u.id.Some? && u.id.value in old(users)) ==>
                saved.id.Some? && saved.id.value !in old(users) && nextId == old(nextId) + 1
      ensures saved.id.Some? && users == old(users)[saved.id.value := saved]
    {
      if u.id.Some? && u.id.value in users {
        saved := u;
      } else {
        saved := u.(id := Some(nextId));
        nextId := nextId + 1;
      }
      users := users[saved.id.value := saved];
    }

    /** `findByEmail`: the one user with that email, empty when there is none, and a
        failure when several users share it. */
    method FindByEmail(email: Option<string>) returns (r: Result<Option<User>>)
      requires Valid()
      ensures r == Ok(None) <==> EmailKeys(users, email) == {}
      ensures r == Err(NonUniqueResult) <==> |EmailKeys(users, email)| > 1
      ensures r.Err? ==> r == Err(NonUniqueResult)
      ensures r.Ok? && r.value.Some? ==>
                && r.value.value.id.Some? && EmailKeys(users, email) == {r.value.value.id.value}
                && users[r.value.value.id.value] == r.value.value
    {
      ghost var found: set<int> := {};
      var count := 0;
      var hit: Option<User> := None;
      var i := 1;
      while i < nextId
        invariant 1 <= i <= nextId
        invariant found == set k | k in users && k < i && users[k].email == email
        invariant count == |found|
        invariant count == 0 ==> hit.None?
        invariant count == 1 ==> hit.Some? && hit.value.id.Some? && found == {hit.value.id.value}
                                 && users[hit.value.id.value] == hit.value
      {
        if i in users && users[i].email == email {
          assert i !in found;
          found := found + {i};
          count := count + 1;
          hit := Some(users[i]);
        }
        i := i + 1;
      }
      assert found == EmailKeys(users, email);
      if count > 1 {
        r := Err(NonUniqueResult);
      } else {
        r := Ok(hit);
      }
    }
  }
}
