/** The `Issue` entity: its persistent state, its validation constraints, its
    constructors, setters and lifecycle callbacks. */
module IssueModel {
  import opened Common

  /** The enum `IssueStatus`; the values the core itself names. */
  datatype IssueStatus = PENDING | OPEN | CLOSED

  /** A category is referred to by its id; the `Category` entity is not part of this model. */
  type CategoryId = int

  /** The persistent fields of an `Issue`, as a value. A `None` is a Java `null`. */
  datatype IssueState = IssueState(
    id: Option<int>,
    title: Option<string>,
    description: Option<string>,
    status: Option<IssueStatus>,
    createdAt: Option<Time>,
    updatedAt: Option<Time>,
    category: Option<CategoryId>)

  /** An issue with every field `null`, as the no-argument constructor leaves it. */
  const BLANK := IssueState(None, None, None, None, None, None, None)

  const TITLE_NULL := "The title cannot be null"
  const TITLE_SIZE := "The title must be between 5 and 255 characters"
  const DESCRIPTION_SIZE := "The description cannot exceed 1000 characters"
  const STATUS_NULL := "The status cannot be null"

  /** The Bean Validation constraints on the fields: `@NotNull` and `@Size(min = 5, max = 255)`
      on the title, `@Size(max = 1000)` on the description, `@NotNull` on the status.
      `@Size` accepts `null`. */
  predicate MeetsConstraints(s: IssueState) {
    && s.title.Some? && 5 <= |s.title.value| <= 255
    && (s.description.Some? ==> |s.description.value| <= 1000)
    && s.status.Some?
  }

  /** A state the store accepts: the constraints hold and the `category_id` join
      column, declared `nullable = false`, is set. */
  predicate IsValid(s: IssueState): (b: bool)
    ensures b <==> Violations(s) == {} && s.category.Some?
  {
    MeetsConstraints(s) && s.category.Some?
  }

  /** The messages Bean Validation reports for `s`, one per violated constraint. */
  function Violations(s: IssueState): (v: set<string>)
    ensures v == {} <==> MeetsConstraints(s)
    ensures TITLE_NULL in v <==> s.title.None?
    ensures STATUS_NULL in v <==> s.status.None?
    ensures TITLE_SIZE in v <==> s.title.Some? && !(5 <= |s.title.value| <= 255)
    ensures DESCRIPTION_SIZE in v <==> s.description.Some? && |s.description.value| > 1000
    ensures v <= {TITLE_NULL, TITLE_SIZE, DESCRIPTION_SIZE, STATUS_NULL}
  {
    (if s.title.None? then {TITLE_NULL} else {})
    + (if s.title.Some? && !(5 <= |s.title.value| <= 255) then {TITLE_SIZE} else {})
    + (if s.description.Some? && |s.description.value| > 1000 then {DESCRIPTION_SIZE} else {})
    + (if s.status.None? then {STATUS_NULL} else {})
  }

  /** `a` and `b` agree on every field except the two timestamps. */
  predicate SameContent(a: IssueState, b: IssueState) {
    && a.id == b.id && a.title == b.title && a.description == b.description
    && a.status == b.status && a.category == b.category
  }

  /** What `onCreate` (`@PrePersist`) makes of a state, the clock reading `now`. */
  function Created(s: IssueState, now: Time): (r: IssueState)
    ensures r.createdAt == Some(now) && r.updatedAt == r.createdAt
    ensures SameContent(r, s)
    ensures IsValid(r) <==> IsValid(s)
  {
    s.(createdAt := Some(now), updatedAt := Some(now))
  }

  /** What `onUpdate` (`@PreUpdate`) makes of a state, the clock reading `now`. */
  function Touched(s: IssueState, now: Time): (r: IssueState)
    ensures r.updatedAt == Some(now) && r.createdAt == s.createdAt
    ensures SameContent(r, s)
    ensures IsValid(r) <==> IsValid(s)
  {
    s.(updatedAt := Some(now))
  }

  /** The JPA entity. Its fields are updated in place by the setters and callbacks. */
  class Issue {
    var id: Option<int>
    var title: Option<string>
    var description: Option<string>
    var status: Option<IssueStatus>
    var createdAt: Option<Time>
    var updatedAt: Option<Time>
    var category: Option<CategoryId>

    /** The entity's fields as a value. */
    function State(): IssueState
      reads this
    {
      IssueState(id, title, description, status, createdAt, updatedAt, category)
    }

    /** The default constructor: every field `null`. */
    constructor ()
      ensures State() == BLANK
    {
      id, title, description, status := None, None, None, None;
      createdAt, updatedAt, category := None, None, None;
    }

    /** The four-argument constructor. Each timestamp is its own clock reading. */
    constructor WithoutCategory(id: Option<int>, title: Option<string>, description: Option<string>,
                                status: Option<IssueStatus>, createdNow: Time, updatedNow: Time)
      ensures State() == IssueState(id, title, description, status, Some(createdNow), Some(updatedNow), None)
    {
      this.id, this.title, this.description, this.status := id, title, description, status;
      this.category := None;
      this.createdAt := Some(createdNow);
      this.updatedAt := Some(updatedNow);
    }

    /** The five-argument constructor. */
    constructor WithCategory(id: Option<int>, title: Option<string>, description: Option<string>,
                             status: Option<IssueStatus>, category: Option<CategoryId>,
                             createdNow: Time, updatedNow: Time)
      ensures State() == IssueState(id, title, description, status, Some(createdNow), Some(updatedNow), category)
    {
      this.id, this.title, this.description, this.status := id, title, description, status;
      this.category := category;
      this.createdAt := Some(createdNow);
      this.updatedAt := Some(updatedNow);
    }

    /** The persistence provider materialising a stored row as an entity. */
    constructor Load(s: IssueState)
      ensures State() == s
    {
      id, title, description, status := s.id, s.title, s.description, s.status;
      createdAt, updatedAt, category := s.createdAt, s.updatedAt, s.category;
    }

    /** `@PrePersist onCreate`: one clock reading stamps both timestamps. */
    method OnCreate(now: Time)
      modifies this
      ensures State() == Created(old(State()), now)
    {
      createdAt := Some(now);
      updatedAt := createdAt;
    }

    /** `@PreUpdate onUpdate`: refreshes `updatedAt` only. */
    method OnUpdate(now: Time)
      modifies this
      ensures State() == Touched(old(State()), now)
    {
      updatedAt := Some(now);
    }

    method SetId(id: Option<int>)
      modifies this
      ensures State() == old(State()).(id := id)
    {
      this.id := id;
    }

    method SetTitle(title: Option<string>)
      modifies this
      ensures State() == old(State()).(title := title)
    {
      this.title := title;
    }

    method SetDescription(description: Option<string>)
      modifies this
      ensures State() == old(State()).(description := description)
    {
      this.description := description;
    }

    method SetStatus(status: Option<IssueStatus>)
      modifies this
      ensures State() == old(State()).(status := status)
    {
      this.status := status;
    }

    method SetCreatedAt(createdAt: Option<Time>)
      modifies this
      ensures State() == old(State()).(createdAt := createdAt)
    {
      this.createdAt := createdAt;
    }

    method SetUpdatedAt(updatedAt: Option<Time>)
      modifies this
      ensures State() == old(State()).(updatedAt := updatedAt)
    {
      this.updatedAt := updatedAt;
    }

    method SetCategory(category: Option<CategoryId>)
      modifies this
      ensures State() == old(State()).(category := category)
    {
      this.category := category;
    }
  }
}
