/** The issue table of the store: Spring Data's `save`, `findById`, `existsById`,
    `deleteById`, `findAll` and the derived query `findByCategoryId`, together with the
    JPA lifecycle that `save` drives (identity generation, `@PrePersist`, dirty checking,
    `@PreUpdate`, Bean Validation, the `category_id` NOT NULL column). */
module IssueStore {
  import opened Common
  import opened IssueModel
  import Tables

  /** `s` carries the id of a stored row, so `save` merges it rather than inserting it. */
  predicate Stored(rows: map<int, IssueState>, s: IssueState) {
    s.id.Some? && s.id.value in rows
  }

  /** The fault a save of the invalid state `s` raises: Bean Validation runs before the
      statement reaches the database, so its violations win over the NOT NULL column. */
  function Rejection(s: IssueState): (f: Failure)
    requires !IsValid(s)
    ensures f == NullCategory <==> MeetsConstraints(s)
    ensures f != NullCategory ==> f == ConstraintViolation(Violations(s)) && f.messages != {}
  {
    if Violations(s) != {} then ConstraintViolation(Violations(s)) else NullCategory
  }

  /** What `save(s)` writes and returns, given the table `rows` and the id `nextId` the
      identity column hands out next. A state whose id is stored is merged: when it equals
      the stored row nothing is flushed, otherwise `@PreUpdate` refreshes `updatedAt`.
      Any other state is inserted under a new id, stamped by `@PrePersist`. */
  function Persist(rows: map<int, IssueState>, nextId: int, s: IssueState, now: Time): (r: Result<IssueState>)
    ensures Stored(rows, s) && rows[s.id.value] == s ==> r == Ok(s)
    ensures r.Err? <==> !IsValid(s) && !(Stored(rows, s) && rows[s.id.value] == s)
    ensures r.Err? ==> r.failure == Rejection(s)
    ensures r.Ok? && Stored(rows, s) && rows[s.id.value] != s ==>
              SameContent(r.value, s) && r.value.createdAt == s.createdAt && r.value.updatedAt == Some(now)
    ensures r.Ok? && !Stored(rows, s) ==>
              SameContent(r.value, s.(id := Some(nextId)))
              && r.value.createdAt == Some(now) && r.value.updatedAt == Some(now)
  {
    if Stored(rows, s) then
      if rows[s.id.value] == s then Ok(s)
      else if IsValid(s) then Ok(Touched(s, now))
      else Err(Rejection(s))
    else if IsValid(s) then Ok(Created(s.(id := Some(nextId)), now))
    else Err(Rejection(s))
  }

  /** The table after a save that returned `r`: a saved row is written under its own id. */
  function Committed(rows: map<int, IssueState>, r: Result<IssueState>): map<int, IssueState>
    requires r.Ok? ==> r.value.id.Some?
  {
    if r.Ok? then rows[r.value.id.value := r.value] else rows
  }

  /** Every issue of `s` has an id, and the ids strictly increase: each row once, in
      ascending id order. */
  predicate AscendingIds(s: seq<IssueState>) {
    && (forall i :: 0 <= i < |s| ==> s[i].id.Some?)
    && (forall i, j :: 0 <= i < j < |s| ==> s[i].id.value < s[j].id.value)
  }

  /** The issues of `s` whose category has id `c`, in the order of `s`. */
  function FilterByCategory(s: seq<IssueState>, c: CategoryId): (r: seq<IssueState>)
    ensures |r| <= |s|
    ensures forall x :: x in r <==> x in s && x.category == Some(c)
    ensures AscendingIds(s) ==> AscendingIds(r)
  {
    if s == [] then []
    else
      var rest := FilterByCategory(s[1..], c);
      assert forall x :: x in s <==> x == s[0] || x in s[1..];
      if s[0].category == Some(c) then
        assert AscendingIds(s) ==> AscendingIds([s[0]] + rest) by {
          if AscendingIds(s) {
            assert AscendingIds(s[1..]);
            forall j | 0 <= j < |rest| ensures s[0].id.value < rest[j].id.value {
              assert rest[j] in s[1..];
              var n :| 0 <= n < |s[1..]| && s[1..][n] == rest[j];
              assert s[n + 1] == rest[j];
            }
          }
        }
        [s[0]] + rest
      else
        assert AscendingIds(s) ==> AscendingIds(s[1..]);
        rest
  }

  /** Saving again the state a save returned is a clean merge: nothing is flushed, so the
      row and both timestamps stay as they are. */
  lemma SaveIsIdempotent(rows: map<int, IssueState>, nextId: int, s: IssueState, now: Time, nextIdAfter: int, later: Time)
    requires Persist(rows, nextId, s, now).Ok?
    ensures var saved := Persist(rows, nextId, s, now);
            Persist(Committed(rows, saved), nextIdAfter, saved.value, later) == saved
  {
  }

  class IssueTable {
    var rows: map<int, IssueState>
    var nextId: int

    /** Every row is stored under its own id, below the next id to hand out, satisfies the
        entity's constraints and carries an `updatedAt`. */
    ghost predicate Valid()
      reads this
    {
      && 1 <= nextId
      && Tables.KeysBelow(rows, nextId)
      && forall k :: k in rows ==> rows[k].id == Some(k) && IsValid(rows[k]) && rows[k].updatedAt.Some?
    }

    constructor ()
      ensures Valid() && rows == map[]
    {
      rows, nextId := map[], 1;
    }

    /** `findAll`: each stored issue exactly once, in ascending id order. */
    method FindAll() returns (r: seq<IssueState>)
      requires Valid()
      ensures forall i :: 0 <= i < |r| ==> r[i].id.Some? && r[i].id.value in rows && rows[r[i].id.value] == r[i]
      ensures forall k :: k in rows ==> rows[k] in r
      ensures forall i, j :: 0 <= i < j < |r| ==> r[i].id.value < r[j].id.value
    {
      var keys;
      keys, r := Tables.ListValues(rows, nextId);
      forall k | k in rows ensures rows[k] in r {
        var n :| 0 <= n < |keys| && keys[n] == k;
        assert r[n] == rows[k];
      }
    }

    /** `findById`: the stored row materialised as a new managed entity, or empty. */
    method FindById(id: int) returns (r: Option<Issue>)
      ensures r.Some? <==> id in rows
      ensures r.Some? ==> fresh(r.value) && r.value.State() == rows[id]
    {
      if id in rows {
        var e := new Issue.Load(rows[id]);
        r := Some(e);
      } else {
        r := None;
      }
    }

    /** `existsById`: whether a row is stored under `id`; in a valid table such an id is
        one the identity column has already handed out, and the row carries it. */
    predicate ExistsById(id: int): (b: bool)
      reads this
      ensures b <==> id in rows
      ensures b && Valid() ==> 1 <= id < nextId && rows[id].id == Some(id)
    {
      id in rows
    }

    /** `save`: persists the state of `e` as `Persist` describes; on a failure nothing is
        written. The caller's instance is left as it was. */
    method Save(e: Issue, now: Time) returns (r: Result<IssueState>)
      requires Valid()
      modifies this
      ensures Valid()
      ensures r == Persist(old(rows), old(nextId), e.State(), now)
      ensures r.Ok? ==> r.value.id.Some?
      ensures r.Ok? && !Stored(old(rows), e.State()) ==> r.value.id.value !in old(rows)
      ensures rows == Committed(old(rows), r)
      ensures nextId == if r.Ok? && !Stored(old(rows), e.State()) then old(nextId) + 1 else old(nextId)
    {
      var s := e.State();
      var managed := new Issue.Load(s);
      if s.id.Some? && s.id.value in rows {
        var k := s.id.value;
        if rows[k] != s {
          managed.OnUpdate(now);
          if !IsValid(managed.State()) {
            return Err(Rejection(s));
          }
          rows := rows[k := managed.State()];
        }
        r := Ok(managed.State());
      } else {
        managed.SetId(Some(nextId));
        managed.OnCreate(now);
        if !IsValid(managed.State()) {
          return Err(Rejection(s));
        }
        rows := rows[nextId := managed.State()];
        nextId := nextId + 1;
        r := Ok(managed.State());
      }
    }

    /** `deleteById`: removes the row if there is one. */
    method DeleteById(id: int)
      requires Valid()
      modifies this
      ensures Valid()
      ensures rows == old(rows) - {id} && nextId == old(nextId)
    {
      rows := rows - {id};
    }

    /** `findByCategoryId`: exactly the stored issues whose category has id `c`. */
    method FindByCategoryId(c: CategoryId) returns (r: seq<IssueState>)
      requires Valid()
      ensures forall x :: x in r ==>
                x.category == Some(c) && x.id.Some? && x.id.value in rows && rows[x.id.value] == x
      ensures forall k :: k in rows && rows[k].category == Some(c) ==> rows[k] in r
      ensures AscendingIds(r)
    {
      var all := FindAll();
      r := FilterByCategory(all, c);
    }
  }
}
