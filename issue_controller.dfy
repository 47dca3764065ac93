/** `IssueController`: the `/api/issues` handlers, which talk to the issue table directly.
    Creation forces status `PENDING` and stamps both timestamps; update and delete answer
    "not found" for an id that does not resolve. */
module IssueControllers {
  import opened Common
  import opened IssueModel
  import opened IssueStore

  /** The status and body of a `ResponseEntity`; `Failed` is an exception escaping the
      handler. */
  datatype Response<T> = Found(body: T) | NotFound | NoContent | Failed(failure: Failure)

  /** The request body after `createIssue` stamped it and forced its status. */
  function Stamped(request: IssueState, createdNow: Time, updatedNow: Time): (r: IssueState)
    ensures r.status == Some(PENDING) && STATUS_NULL !in Violations(r)
    ensures r.createdAt == Some(createdNow) && r.updatedAt == Some(updatedNow)
    ensures r.id == request.id && r.title == request.title && r.description == request.description
            && r.category == request.category
  {
    request.(createdAt := Some(createdNow), updatedAt := Some(updatedNow), status := Some(PENDING))
  }

  /** The stored issue after `updateIssue` copied the request onto it and set `updatedAt`. */
  function Overwritten(existing: IssueState, request: IssueState, updatedNow: Time): (r: IssueState)
    ensures r.id == existing.id && r.createdAt == existing.createdAt && r.updatedAt == Some(updatedNow)
    ensures SameContent(r, request.(id := existing.id))
  {
    existing.(title := request.title, description := request.description, status := request.status,
              category := request.category, updatedAt := Some(updatedNow))
  }

  class IssueController {
    const repo: IssueTable

    constructor (repo: IssueTable)
      ensures this.repo == repo
    {
      this.repo := repo;
    }

    /** GET /api/issues: every stored issue, once each. */
    method GetAllIssues() returns (r: seq<IssueState>)
      requires repo.Valid()
      ensures forall i :: 0 <= i < |r| ==> r[i].id.Some? && r[i].id.value in repo.rows && repo.rows[r[i].id.value] == r[i]
      ensures forall k :: k in repo.rows ==> repo.rows[k] in r
      ensures forall i, j :: 0 <= i < j < |r| ==> r[i].id.value < r[j].id.value
    {
      r := repo.FindAll();
    }

    /** GET /api/issues/{id}: 200 with the stored issue, or 404. */
    method GetIssueById(id: int) returns (r: Response<IssueState>)
      ensures r.Found? || r.NotFound?
      ensures r.Found? <==> id in repo.rows
      ensures r.Found? ==> r.body == repo.rows[id]
    {
      var found := repo.FindById(id);
      r := if found.Some? then Found(found.value.State()) else NotFound;
    }

    /** POST /api/issues: the request's timestamps are replaced by clock readings and its
        status by `PENDING` before it is saved. Inserted, it ends with `PENDING` and
        `createdAt == updatedAt`, whatever the request carried. */
    method CreateIssue(issue: Issue, createdNow: Time, updatedNow: Time, saveNow: Time) returns (r: Result<IssueState>)
      requires repo.Valid()
      modifies repo, issue
      ensures repo.Valid()
      ensures issue.State() == Stamped(old(issue.State()), createdNow, updatedNow)
      ensures r == Persist(old(repo.rows), old(repo.nextId), issue.State(), saveNow)
      ensures repo.rows == Committed(old(repo.rows), r)
      ensures r.Ok? ==> r.value.status == Some(PENDING)
      ensures r.Ok? && !Stored(old(repo.rows), old(issue.State())) ==>
                && r.value.createdAt == Some(saveNow) && r.value.updatedAt == r.value.createdAt
                && r.value.id.Some? && r.value.id.value !in old(repo.rows)
                && repo.rows == old(repo.rows)[r.value.id.value := r.value]
    {
      issue.SetCreatedAt(Some(createdNow));
      issue.SetUpdatedAt(Some(updatedNow));
      issue.SetStatus(Some(PENDING));
      r := repo.Save(issue, saveNow);
    }

    /** PUT /api/issues/{id}: 404 with nothing changed for an absent id; otherwise title,
        description, status and category are copied from the request, `updatedAt` is
        refreshed, and id and `createdAt` are kept. */
    method UpdateIssue(id: int, updatedIssue: Issue, updatedNow: Time, saveNow: Time) returns (r: Response<IssueState>)
      requires repo.Valid()
      modifies repo
      ensures repo.Valid()
      ensures r.NotFound? <==> id !in old(repo.rows)
      ensures r.NotFound? ==> repo.rows == old(repo.rows)
      ensures id in old(repo.rows) ==>
                var saved := Persist(old(repo.rows), old(repo.nextId),
                                     Overwritten(old(repo.rows)[id], updatedIssue.State(), updatedNow), saveNow);
                && repo.rows == Committed(old(repo.rows), saved)
                && (saved.Ok? ==> r == Found(saved.value))
                && (saved.Err? ==> r == Failed(saved.failure))
      ensures r.Found? ==>
                && id in old(repo.rows)
                && r.body.id == Some(id) && r.body.createdAt == old(repo.rows)[id].createdAt
                && r.body.title == updatedIssue.title && r.body.description == updatedIssue.description
                && r.body.status == updatedIssue.status && r.body.category == updatedIssue.category
                && r.body.updatedAt in {Some(updatedNow), Some(saveNow)}
      ensures repo.rows.Keys == old(repo.rows).Keys
      ensures forall k :: k in old(repo.rows) && k != id ==> repo.rows[k] == old(repo.rows)[k]
    {
      var found := repo.FindById(id);
      if found.None? {
        return NotFound;
      }
      var existing := found.value;
      existing.SetTitle(updatedIssue.title);
      existing.SetDescription(updatedIssue.description);
      existing.SetStatus(updatedIssue.status);
      existing.SetCategory(updatedIssue.category);
      existing.SetUpdatedAt(Some(updatedNow));
      var saved := repo.Save(existing, saveNow);
      r := if saved.Ok? then Found(saved.value) else Failed(saved.failure);
    }

    /** DELETE /api/issues/{id}: 204 and the issue removed exactly when it existed;
        otherwise 404 with nothing changed. */
    method DeleteIssue(id: int) returns (r: Response<()>)
      requires repo.Valid()
      modifies repo
      ensures repo.Valid()
      ensures r.NoContent? || r.NotFound?
      ensures r.NoContent? <==> id in old(repo.rows)
      ensures repo.rows == old(repo.rows) - {id}
    {
      if repo.ExistsById(id) {
        repo.DeleteById(id);
        r := NoContent;
      } else {
        r := NotFound;
      }
    }
  }
}
