/** `IssueService`: the issue operations over the issue table, failing with
    "Issue not found" when an id does not resolve. */
module IssueServices {
  import opened Common
  import opened IssueModel
  import opened IssueStore

  /** The stored issue after `updateIssue` copied the request's title, description,
      category and status onto it; id and timestamps are the stored ones. */
  function Patched(existing: IssueState, patch: IssueState): (r: IssueState)
    ensures r.id == existing.id && r.createdAt == existing.createdAt && r.updatedAt == existing.updatedAt
    ensures SameContent(r, patch.(id := existing.id))
  {
    existing.(title := patch.title, description := patch.description,
              category := patch.category, status := patch.status)
  }

  class IssueService {
    const repo: IssueTable

    constructor (repo: IssueTable)
      ensures this.repo == repo
    {
      this.repo := repo;
    }

    /** `getAllIssues`: every stored issue, once each. */
    method GetAllIssues() returns (r: seq<IssueState>)
      requires repo.Valid()
      ensures forall i :: 0 <= i < |r| ==> r[i].id.Some? && r[i].id.value in repo.rows && repo.rows[r[i].id.value] == r[i]
      ensures forall k :: k in repo.rows ==> repo.rows[k] in r
      ensures forall i, j :: 0 <= i < j < |r| ==> r[i].id.value < r[j].id.value
    {
      r := repo.FindAll();
    }

    /** `getIssueById`: the stored issue, or empty; it never fails. */
    method GetIssueById(id: int) returns (r: Option<IssueState>)
      ensures r.Some? <==> id in repo.rows
      ensures r.Some? ==> r.value == repo.rows[id]
    {
      var found := repo.FindById(id);
      r := if found.Some? then Some(found.value.State()) else None;
    }

    /** `createIssue`: saves the request as it is, with no status default; the saved issue
        can then be found under its id. */
    method CreateIssue(issue: Issue, now: Time) returns (r: Result<IssueState>)
      requires repo.Valid()
      modifies repo
      ensures repo.Valid()
      ensures r == Persist(old(repo.rows), old(repo.nextId), issue.State(), now)
      ensures repo.rows == Committed(old(repo.rows), r)
      ensures r.Ok? ==> && r.value.title == issue.title && r.value.description == issue.description
                        && r.value.status == issue.status && r.value.category == issue.category
                        && r.value.id.Some? && r.value.id.value in repo.rows
                        && repo.rows[r.value.id.value] == r.value
      ensures r.Ok? && !Stored(old(repo.rows), issue.State()) ==>
                && r.value.createdAt == Some(now) && r.value.updatedAt == Some(now)
                && r.value.id.value !in old(repo.rows)
      ensures r.Ok? && Stored(old(repo.rows), issue.State()) && old(repo.rows)[issue.id.value] != issue.State() ==>
                r.value.id == issue.id && r.value.createdAt == issue.createdAt && r.value.updatedAt == Some(now)
    {
      r := repo.Save(issue, now);
    }

    /** `updateIssue`: an absent id fails with "Issue not found" and changes nothing;
        otherwise title, description, category and status are replaced by the request's
        and the result is saved, keeping id and `createdAt`. */
    method UpdateIssue(id: int, patch: Issue, now: Time) returns (r: Result<IssueState>)
      requires repo.Valid()
      modifies repo
      ensures repo.Valid()
      ensures id !in old(repo.rows) ==>
                r == Err(RuntimeError(ISSUE_NOT_FOUND)) && repo.rows == old(repo.rows)
      ensures id in old(repo.rows) ==>
                && r == Persist(old(repo.rows), old(repo.nextId), Patched(old(repo.rows)[id], patch.State()), now)
                && repo.rows == Committed(old(repo.rows), r)
      ensures id in old(repo.rows) && r.Ok? ==>
                && r.value.id == Some(id) && r.value.createdAt == old(repo.rows)[id].createdAt
                && r.value.title == patch.title && r.value.description == patch.description
                && r.value.category == patch.category && r.value.status == patch.status
      ensures repo.rows.Keys == old(repo.rows).Keys
      ensures forall k :: k in old(repo.rows) && k != id ==> repo.rows[k] == old(repo.rows)[k]
    {
      var found := repo.FindById(id);
      if found.None? {
        return Err(RuntimeError(ISSUE_NOT_FOUND));
      }
      var existing := found.value;
      existing.SetTitle(patch.title);
      existing.SetDescription(patch.description);
      existing.SetCategory(patch.category);
      existing.SetStatus(patch.status);
      r := repo.Save(existing, now);
    }

    /** `deleteIssue`: an absent id fails with "Issue not found" and changes nothing;
        otherwise exactly that issue is removed. */
    method DeleteIssue(id: int) returns (r: Result<()>)
      requires repo.Valid()
      modifies repo
      ensures repo.Valid()
      ensures r.Ok? <==> id in old(repo.rows)
      ensures r.Err? ==> r.failure == RuntimeError(ISSUE_NOT_FOUND) && repo.rows == old(repo.rows)
      ensures r.Ok? ==> id !in repo.rows && repo.rows == old(repo.rows) - {id}
    {
      if !repo.ExistsById(id) {
        return Err(RuntimeError(ISSUE_NOT_FOUND));
      }
      repo.DeleteById(id);
      r := Ok(());
    }

    /** `getIssuesByCategory`: exactly the stored issues whose category has id `c`. */
    method GetIssuesByCategory(c: CategoryId) returns (r: seq<IssueState>)
      requires repo.Valid()
      ensures forall x :: x in r ==>
                x.category == Some(c) && x.id.Some? && x.id.value in repo.rows && repo.rows[x.id.value] == x
      ensures forall k :: k in repo.rows && repo.rows[k].category == Some(c) ==> repo.rows[k] in r
      ensures AscendingIds(r)
    {
      r := repo.FindByCategoryId(c);
    }

    /** `updateIssueStatus`: an absent id fails with "Issue not found"; otherwise only the
        status changes (and `updatedAt`, when the status actually differs). A non-null
        status is always accepted. */
    method UpdateIssueStatus(id: int, status: Option<IssueStatus>, now: Time) returns (r: Result<IssueState>)
      requires repo.Valid()
      modifies repo
      ensures repo.Valid()
      ensures id !in old(repo.rows) ==>
                r == Err(RuntimeError(ISSUE_NOT_FOUND)) && repo.rows == old(repo.rows)
      ensures id in old(repo.rows) ==>
                && r == Persist(old(repo.rows), old(repo.nextId), old(repo.rows)[id].(status := status), now)
                && repo.rows == Committed(old(repo.rows), r)
      ensures id in old(repo.rows) && status.Some? ==>
                && r.Ok?
                && r.value == if old(repo.rows)[id].status == status then old(repo.rows)[id]
                              else old(repo.rows)[id].(status := status, updatedAt := Some(now))
      ensures id in old(repo.rows) && status.None? ==>
                r == Err(ConstraintViolation({STATUS_NULL})) && repo.rows == old(repo.rows)
    {
      var found := repo.FindById(id);
      if found.None? {
        return Err(RuntimeError(ISSUE_NOT_FOUND));
      }
      var existing := found.value;
      existing.SetStatus(status);
      r := repo.Save(existing, now);
    }
  }

  /** Round trip: an issue the service created is found under the id it was given. */
  method CreateThenGet(service: IssueService, issue: Issue, now: Time)
      returns (created: Result<IssueState>, fetched: Option<IssueState>)
    requires service.repo.Valid()
    modifies service.repo
    ensures created.Ok? ==> fetched == Some(created.value)
  {
    created := service.CreateIssue(issue, now);
    if created.Ok? {
      fetched := service.GetIssueById(created.value.id.value);
    } else {
      fetched := None;
    }
  }

  /** After a successful delete the issue can no longer be found. */
  method DeleteThenGet(service: IssueService, id: int) returns (deleted: Result<()>, fetched: Option<IssueState>)
    requires service.repo.Valid()
    modifies service.repo
    ensures deleted.Ok? ==> fetched.None? && !service.repo.ExistsById(id)
  {
    deleted := service.DeleteIssue(id);
    fetched := service.GetIssueById(id);
  }
}
