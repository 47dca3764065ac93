/** `UserService`: registration, the login credential check and the user listing. */
module UserServices {
  import opened Common
  import opened UserStore

  /** The password check of `loginUser` against the stored user: `String.equals` called on
      the stored password, so a stored `null` password throws. */
  function CheckPassword(stored: User, given: User): (r: Result<string>)
    ensures r == Ok(LOGIN_SUCCESSFUL) <==> stored.password.Some? && stored.password == given.password
    ensures r == Err(RuntimeError(INVALID_CREDENTIALS)) <==> stored.password.Some? && stored.password != given.password
    ensures r == Err(NullPointer) <==> stored.password.None?
  {
    if stored.password.None? then Err(NullPointer)
    else if stored.password != given.password then Err(RuntimeError(INVALID_CREDENTIALS))
    else Ok(LOGIN_SUCCESSFUL)
  }

  class UserService {
    const repo: UserTable

    constructor (repo: UserTable)
      ensures this.repo == repo
    {
      this.repo := repo;
    }

    /** `registerUser`: saves the user as given and returns it with the same username,
        email and password; a user whose email no other user has can then log in. */
    method RegisterUser(user: User) returns (r: User)
      requires repo.Valid()
      modifies repo
      ensures repo.Valid()
      ensures r.username == user.username && r.email == user.email && r.password == user.password
      ensures r.id.Some? && repo.users == old(repo.users)[r.id.value := r]
      ensures user.id.Some? && user.id.value in old(repo.users) ==> r == user
      ensures !(user.id.Some? && user.id.value in old(repo.users)) ==> r.id.value !in old(repo.users)
      ensures (forall k :: k in old(repo.users) && Some(k) != user.id ==> old(repo.users)[k].email != user.email) ==>
                EmailKeys(repo.users, user.email) == {r.id.value}
    {
      r := repo.Save(user);
      ghost var k := r.id.value;
      if forall j :: j in old(repo.users) && Some(j) != user.id ==> old(repo.users)[j].email != user.email {
        assert k in EmailKeys(repo.users, user.email);
        forall j | j in EmailKeys(repo.users, user.email) ensures j == k {
        }
      }
    }

    /** `loginUser`: fails with "User not found" when no user has the email, and
        with "Invalid credentials" when the one who has it has another password;
        otherwise answers "Login successful". Nothing is changed. */
    method LoginUser(user: User) returns (r: Result<string>)
      requires repo.Valid()
      ensures EmailKeys(repo.users, user.email) == {} ==> r == Err(RuntimeError(USER_NOT_FOUND))
      ensures |EmailKeys(repo.users, user.email)| > 1 ==> r == Err(NonUniqueResult)
      ensures forall k :: k in repo.users && EmailKeys(repo.users, user.email) == {k} ==>
                r == CheckPassword(repo.users[k], user)
    {
      var found := repo.FindByEmail(user.email);
      match found {
        case Err(f) => r := Err(f);
        case Ok(None) => r := Err(RuntimeError(USER_NOT_FOUND));
        case Ok(Some(existing)) => r := CheckPassword(existing, user);
      }
    }

    /** `getAllUsers`: every stored user, once each. */
    method GetAllUsers() returns (r: seq<User>)
      requires repo.Valid()
      ensures forall i :: 0 <= i < |r| ==> r[i].id.Some? && r[i].id.value in repo.users && repo.users[r[i].id.value] == r[i]
      ensures forall k :: k in repo.users ==> repo.users[k] in r
      ensures forall i, j :: 0 <= i < j < |r| ==> r[i].id.value < r[j].id.value
    {
      r := repo.FindAll();
    }
  }

  /** A registered user whose email is new logs in with that email and password. */
  method RegisterThenLogin(service: UserService, username: string, email: string, password: string)
      returns (r: Result<string>)
    requires service.repo.Valid()
    requires forall k :: k in service.repo.users ==> service.repo.users[k].email != Some(email)
    modifies service.repo
    ensures r == Ok(LOGIN_SUCCESSFUL)
  {
    var registered := service.RegisterUser(User(None, Some(username), Some(email), Some(password)));
    ghost var k := registered.id.value;
    assert EmailKeys(service.repo.users, Some(email)) == {k};
    r := service.LoginUser(User(None, None, Some(email), Some(password)));
    assert service.repo.users[k] == registered;
    assert r == CheckPassword(registered, User(None, None, Some(email), Some(password)));
  }
}
