# UrbanEyes issue and user core, in Dafny

This project models the entity layer of UrbanEyes, a municipal issue tracker, and
proves properties of it. Citizens (users) report issues, and each issue belongs to a
category. The model covers:

- the `Issue` entity: its validation constraints, its constructors, its setters and its
  `@PrePersist`/`@PreUpdate` timestamp callbacks;
- `IssueService`: listing, lookup, creation, wholesale update, status-only update,
  delete-if-exists and the category filter;
- `IssueController`: the older handlers that use the repository directly. Creation
  forces status `PENDING` and stamps both timestamps. Update answers 404 for an unknown
  id, and delete answers 204 or 404;
- `UserService`: registration, the login credential check and the user listing.

Spring Data repositories are modelled as in-memory tables.

- **The store** (`tables.dfy`, `issue_store.dfy`, `user_store.dfy`). A table is a class with
  a `map<int, …>` of rows and an identity counter `nextId`. `Valid()` is the table
  invariant: every row sits under its own id, below `nextId`. Every stored issue also
  satisfies the entity's constraints and has an `updatedAt`.
- **What `save` does for an issue** (`Persist`, `Save`). This follows Spring Data and JPA:
  - If the id is null or unknown, the issue is inserted under a new id, and `onCreate`
    stamps `createdAt == updatedAt`.
  - If the id is already stored, the issue is merged. When the merged state differs from
    the stored row, `onUpdate` refreshes `updatedAt`. When it does not differ, nothing
    is written.
  - Bean Validation rejects a title that is null or outside 5..255 characters, a
    description over 1000 characters, or a null status. The database rejects a null
    `category_id`. A rejected save changes nothing.
  - `save` works on a managed copy and returns its state.
- **The clock.** Each `LocalDateTime.now()` call is a separate `Time` parameter. The two
  readings in a constructor, or in `IssueController.createIssue`, may therefore differ.
- **Thrown exceptions** are `Result.Err` values, except those raised by a null id or a
  null entity argument, which are not modelled. The `RuntimeException` messages are
  `Failure.RuntimeError` carrying the exact source strings.
- **Controller responses** are `Response.Found` (200 with a body), `NotFound` (404),
  `NoContent` (204) and `Failed` (an exception escaping the handler).

Behaviour of the code that a reader might not expect:

- `IssueService.createIssue` does not default the status. When it inserts, its timestamps
  come only from `@PrePersist`. A request carrying the id of a stored issue is merged
  instead and keeps its own `createdAt`.
- `IssueService.updateIssue` does not set `updatedAt` itself. Only `@PreUpdate` refreshes
  it, and only when something changed.
- `createdAt` is not fixed once and for all. A creation request that carries the id of a
  stored issue is merged onto that issue, `createdAt` included. For `IssueController.createIssue`
  the result is still `PENDING`, but `createdAt` then need not equal `updatedAt`. The
  contract of `IssueServices.IssueService.CreateIssue` states the insert and the merge
  cases separately; that of `IssueControllers.IssueController.CreateIssue` states the
  insert case and, for both, the forced `PENDING`.
- `findByEmail` throws when several users share an email. The model keeps that as the
  failure `NonUniqueResult` instead of assuming unique emails. A null email matches a
  stored null email, because a derived query turns `= null` into `IS NULL`.
- A stored null password makes `loginUser` throw a `NullPointerException`
  (`Failure.NullPointer`).

## Model

| member | source | states |
|---|---|---|
| `IssueModel.MeetsConstraints` | src/main/java/com/urbaneyes/models/Issue.java:16-25 | The Bean Validation constraints as one predicate: a non-null title of 5..255 characters, a null or at most 1000-character description, a non-null status. It is the definition the other contracts refer to. |
| `IssueModel.IsValid` | src/main/java/com/urbaneyes/models/Issue.java:16-33 | A state the store accepts: exactly when Bean Validation reports no violation and the `category_id` column, declared not nullable, is set. |
| `IssueModel.Violations` | src/main/java/com/urbaneyes/models/Issue.java:16-25 | The set of violation messages is empty exactly when the title is non-null with length 5..255, the description is null or at most 1000 long, and the status is non-null. Each of the four messages appears exactly when its own constraint is broken. |
| `IssueModel.Created` | src/main/java/com/urbaneyes/models/Issue.java:60-64 | `onCreate` sets `createdAt` to the clock reading and `updatedAt` equal to it. Every other field, and validity, is unchanged. |
| `IssueModel.Touched` | src/main/java/com/urbaneyes/models/Issue.java:66-69 | `onUpdate` sets `updatedAt` to the clock reading. `createdAt`, every other field, and validity are unchanged. |
| `IssueModel.Issue.constructor` | src/main/java/com/urbaneyes/models/Issue.java:36 | The default constructor leaves every field null. |
| `IssueModel.Issue.WithoutCategory` | src/main/java/com/urbaneyes/models/Issue.java:39-46 | Stores exactly the given id, title, description and status, and no category. Each timestamp is its own clock reading. |
| `IssueModel.Issue.WithCategory` | src/main/java/com/urbaneyes/models/Issue.java:49-57 | Stores exactly the given id, title, description, status and category. Each timestamp is its own clock reading. |
| `IssueModel.Issue.Load` | src/main/java/com/urbaneyes/services/IssueService.java:24-26 | The entity the store materialises for a stored row holds exactly that row's fields. |
| `IssueModel.Issue.OnCreate` | src/main/java/com/urbaneyes/models/Issue.java:60-64 | The entity's new state is `Created(old state, now)`. |
| `IssueModel.Issue.OnUpdate` | src/main/java/com/urbaneyes/models/Issue.java:66-69 | The entity's new state is `Touched(old state, now)`. |
| `IssueModel.Issue.SetId` | src/main/java/com/urbaneyes/models/Issue.java:76-78 | Changes the id and no other field. |
| `IssueModel.Issue.SetTitle` | src/main/java/com/urbaneyes/models/Issue.java:84-86 | Changes the title and no other field. |
| `IssueModel.Issue.SetDescription` | src/main/java/com/urbaneyes/models/Issue.java:92-94 | Changes the description and no other field. |
| `IssueModel.Issue.SetStatus` | src/main/java/com/urbaneyes/models/Issue.java:100-102 | Changes the status and no other field. |
| `IssueModel.Issue.SetCreatedAt` | src/main/java/com/urbaneyes/models/Issue.java:108-110 | Changes `createdAt` and no other field. |
| `IssueModel.Issue.SetUpdatedAt` | src/main/java/com/urbaneyes/models/Issue.java:116-118 | Changes `updatedAt` and no other field. |
| `IssueModel.Issue.SetCategory` | src/main/java/com/urbaneyes/models/Issue.java:124-126 | Changes the category and no other field. |
| `IssueStore.Rejection` | src/main/java/com/urbaneyes/models/Issue.java:16-33 | Saving an invalid issue fails with a null-category fault exactly when the Bean Validation constraints hold. Otherwise it fails with the non-empty set of violation messages. |
| `IssueStore.Persist` | src/main/java/com/urbaneyes/models/Issue.java:60-69 | Saving an unchanged stored issue returns it untouched. A save fails exactly when the issue is invalid and not an unchanged stored issue, and it fails with the rejection. A changed stored issue keeps its id, content and `createdAt`, and gets `updatedAt = now`. A new issue gets the next id and the given content, with `createdAt == updatedAt == now`. |
| `IssueStore.SaveIsIdempotent` | src/main/java/com/urbaneyes/models/Issue.java:66-69 | Saving the returned issue again changes nothing, not even `updatedAt`. |
| `IssueStore.FilterByCategory` | src/main/java/com/urbaneyes/repositories/IssueRepository.java:11 | An issue is in the result exactly when it is in the input and its category id is `c`. When the input lists each row once in ascending id order, so does the result. |
| `IssueStore.IssueTable.FindAll` | src/main/java/com/urbaneyes/services/IssueService.java:20-22 | Returns every stored issue, each under its own id, once each (strictly increasing ids). The table is unchanged. |
| `IssueStore.IssueTable.FindById` | src/main/java/com/urbaneyes/services/IssueService.java:24-26 | Returns a new entity holding the stored row exactly when the id is stored, and empty otherwise. |
| `IssueStore.IssueTable.ExistsById` | src/main/java/com/urbaneyes/services/IssueService.java:43 | True exactly when a row is stored under the id. In a valid table such an id was already handed out, and the row carries it. |
| `IssueStore.IssueTable.Save` | src/main/java/com/urbaneyes/services/IssueService.java:28-30 | The result is `Persist` of the old table. A successful save writes that row under its id, and a failed one writes nothing. A new issue gets an id not in the table. The table invariant is kept. |
| `IssueStore.IssueTable.DeleteById` | src/main/java/com/urbaneyes/services/IssueService.java:46 | Removes exactly that id and keeps the invariant. |
| `IssueStore.IssueTable.FindByCategoryId` | src/main/java/com/urbaneyes/repositories/IssueRepository.java:11 | Returns exactly the stored issues whose category id is `c`, each once, in ascending id order. |
| `Tables.ListValues` | src/main/java/com/urbaneyes/services/UserService.java:31-33 | Lists every row of a table once, in ascending key order, with each row's key beside it. |
| `IssueServices.IssueService.GetAllIssues` | src/main/java/com/urbaneyes/services/IssueService.java:20-22 | Returns every stored issue once. The table is not modified. |
| `IssueServices.IssueService.GetIssueById` | src/main/java/com/urbaneyes/services/IssueService.java:24-26 | Returns the stored issue when the id is present and empty otherwise. It never fails and does not modify the table. |
| `IssueServices.Patched` | src/main/java/com/urbaneyes/services/IssueService.java:35-38 | The patched issue keeps the stored id and both timestamps, and takes title, description, status and category from the request. |
| `IssueServices.IssueService.CreateIssue` | src/main/java/com/urbaneyes/services/IssueService.java:28-30 | Saves the given issue with its title, description, status and category unchanged, with no status default. The saved issue is then stored under its id. An insert gets a fresh id and `createdAt == updatedAt == now`. A changed request carrying a stored id keeps its id and its own `createdAt`, and gets `updatedAt = now`. |
| `IssueServices.IssueService.UpdateIssue` | src/main/java/com/urbaneyes/services/IssueService.java:32-40 | An absent id fails with "Issue not found" and leaves the table unchanged. Otherwise title, description, category and status take the request's values, id and `createdAt` are kept, and every other entry is unchanged. |
| `IssueServices.IssueService.DeleteIssue` | src/main/java/com/urbaneyes/services/IssueService.java:42-47 | Succeeds exactly when the id was present, and then removes only that entry. Otherwise it fails with "Issue not found" and leaves the table unchanged. |
| `IssueServices.IssueService.GetIssuesByCategory` | src/main/java/com/urbaneyes/services/IssueService.java:49-51 | Returns exactly the stored issues whose category id is `c`, each once, in ascending id order. The table is not modified. |
| `IssueServices.IssueService.UpdateIssueStatus` | src/main/java/com/urbaneyes/services/IssueService.java:53-58 | An absent id fails with "Issue not found". With a non-null status the update always succeeds and changes only the status, plus `updatedAt` when the status differs. A null status is rejected with the null-status message and the table is unchanged. |
| `IssueServices.CreateThenGet` | src/test/java/com/urbaneyes/services/IssueServiceTest.java:78-87 | An issue created through the service is found by `getIssueById` under its new id. |
| `IssueServices.DeleteThenGet` | src/test/java/com/urbaneyes/services/IssueServiceTest.java:124-131 | After a successful delete, `getIssueById` is empty and `existsById` is false. |
| `IssueControllers.Stamped` | src/main/java/com/urbaneyes/controllers/IssueController.java:43-45 | The stamped request has status `PENDING`, so it never fails the null-status constraint. Its timestamps are the two clock readings, and its id, title, description and category are the request's. |
| `IssueControllers.Overwritten` | src/main/java/com/urbaneyes/controllers/IssueController.java:55-59 | The overwritten issue keeps the stored id and `createdAt`, gets `updatedAt` from the clock, and takes title, description, status and category from the request. |
| `IssueControllers.IssueController.GetAllIssues` | src/main/java/com/urbaneyes/controllers/IssueController.java:25-27 | Returns every stored issue once. The table is not modified. |
| `IssueControllers.IssueController.GetIssueById` | src/main/java/com/urbaneyes/controllers/IssueController.java:30-38 | Answers 200 with the stored issue when the id is present, and 404 otherwise. |
| `IssueControllers.IssueController.CreateIssue` | src/main/java/com/urbaneyes/controllers/IssueController.java:41-47 | The request's timestamps are replaced by clock readings and its status by `PENDING`. The saved issue is `PENDING` whatever the request said. When inserted, it has a fresh id and `createdAt == updatedAt`. |
| `IssueControllers.IssueController.UpdateIssue` | src/main/java/com/urbaneyes/controllers/IssueController.java:50-64 | An absent id gives 404 with the table unchanged. Otherwise title, description, status and category come from the request, `updatedAt` is refreshed, id and `createdAt` are kept, and other entries are unchanged. |
| `IssueControllers.IssueController.DeleteIssue` | src/main/java/com/urbaneyes/controllers/IssueController.java:66-75 | Answers 204 exactly when the id existed, and 404 otherwise. The table afterwards is the old one without that id. |
| `UserStore.UserTable.FindAll` | src/main/java/com/urbaneyes/services/UserService.java:31-33 | Returns every stored user once, each under its own id, in ascending id order. |
| `UserStore.UserTable.Save` | src/main/java/com/urbaneyes/services/UserService.java:18-20 | The saved user has the given username, email and password. It replaces the user with its id, or is inserted under an id not in the table. |
| `UserStore.UserTable.FindByEmail` | src/main/java/com/urbaneyes/services/UserService.java:23-24 | Returns empty exactly when no user has the email, and fails exactly when several do. Otherwise it returns the one user that has it. |
| `UserServices.CheckPassword` | src/main/java/com/urbaneyes/services/UserService.java:25-28 | Answers "Login successful" exactly when the stored password is non-null and equal to the given one. It answers "Invalid credentials" exactly when the stored password is non-null and differs, and null-pointer exactly when the stored password is null. |
| `UserServices.UserService.RegisterUser` | src/main/java/com/urbaneyes/services/UserService.java:18-20 | The returned user has the given username, email and password and is stored under its id. A user carrying a stored id replaces that row unchanged; any other is inserted under an id not in the table, so no other user changes. If no other user had the email, it is now the only user with it. |
| `UserServices.UserService.LoginUser` | src/main/java/com/urbaneyes/services/UserService.java:22-29 | An unknown email fails with "User not found", and a shared email fails as a non-unique result. Otherwise the answer is the password check against the one user with that email. The table is not modified. |
| `UserServices.UserService.GetAllUsers` | src/main/java/com/urbaneyes/services/UserService.java:31-33 | Returns every stored user once. The table is not modified. |
| `UserServices.RegisterThenLogin` | src/test/java/com/urbaneyes/services/UserServiceTest.java:44-52 | A user registered with a new email logs in with that email and password. |

## Left out

- HTTP routing, `ResponseEntity` internals, JSON (de)serialisation and constructor
  injection: framework plumbing. Only the outcome tags are kept.
- The `Category` entity: an issue refers to a category by its id. The check that the
  category exists is a foreign key in the database, and that is not modelled.
- `UserService.getUserById`, `updateUser` and `deleteUser`, `CategoryService`,
  `UserController` and `CategoryController`: their sources are not part of this model.
- The getters of `Issue`: they are modelled as reads of the entity's fields.
- Concurrency: the lost update between `findById` and `save` is out of scope. Every
  operation is one sequential method.
- Real time: the clock is a parameter. Nothing is claimed about its readings being
  ordered, so the model does not state that `updatedAt` increases.
- Persisting a new entity in JPA also assigns the id and runs the callbacks on the
  caller's own instance. The model leaves the caller's instance as it was and returns
  the saved state. Returned entities are modelled by their state.
- Merging an entity whose id is set but not stored is modelled as an insert under a new
  id, as Hibernate 5 does. Some later Hibernate versions throw instead.
- Null ids and null entity arguments. The service methods take `Long id`, and a null id
  makes Spring Data's `findById`, `existsById` and `deleteById` throw
  `IllegalArgumentException`. A null `categoryId` in `getIssuesByCategory` becomes an
  `IS NULL` query, which returns an empty list because `category_id` is not nullable.
  `save(null)` throws the same `IllegalArgumentException`, and `loginUser(null)` throws
  a `NullPointerException` when it reads the email. The model types ids as `int` and
  passes entities as values, so none of these paths exists in it.
- `deleteById` on an absent id is modelled as doing nothing. Both callers check
  `existsById` first.
- `findAll` returns rows in ascending id order. The database leaves the order open.
- Java's 64-bit `Long` ids: ids are unbounded integers, and identity overflow is not
  modelled.
- String lengths are counted in characters of `seq<char>`. Java counts UTF-16 code units.
- `IssueStatus` has only the values the core names (`PENDING`, `OPEN`, `CLOSED`). The
  enum's source is not part of this model.
- The `User` entity's own constraints and callbacks, if any: `User.java` is not part of
  this model. Users are saved without validation.
- Password hashing and other security semantics: the code compares plain strings, and
  the model does exactly that.
