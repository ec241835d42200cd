/**
 * service.impl.UserServiceImpl: creating users, looking them up by username,
 * resolving the user of the current request from the security context, and
 * the UserDetailsService view of a user.
 *
 * The user repository is the map `users` from username to stored user; the
 * security context is passed in explicitly.
 */
module UserServices {
  import opened Errors
  import opened Domain
  import opened Dto
  import opened Authentication
  import opened PasswordEncoding

  /** Spring Security's User as a UserDetails: name, password hash and authority names. */
  datatype UserDetails = UserDetails(username: string, password: string, authorities: set<string>)

  /** The message of the NotAuthorizedUserException of getUsernameOfCurrentUser. */
  const NotAuthorized: string := "Not authorized user"

  /**
   * getUsernameOfCurrentUser: the username of an authenticated
   * JwtAuthentication; a missing or unauthenticated authentication, and any
   * other kind of authentication, are refused alike.
   */
  function GetUsernameOfCurrentUser(context: Option<Authentication>): (r: Result<string>)
    reads ContextObjects(context)
    ensures r.Ok? <==> context.Some? && context.value.Jwt? && context.value.principal.authenticated
    ensures r.Ok? ==> r.value == context.value.principal.username
    ensures r.Throw? ==> r.error == NotAuthorizedUser(NotAuthorized)
  {
    if context.None? || !IsAuthenticated(context.value) then Throw(NotAuthorizedUser(NotAuthorized))
    else if context.value.Jwt? then Ok(context.value.principal.username)
    else Throw(NotAuthorizedUser(NotAuthorized))
  }

  /** An authenticated context that holds some other kind of authentication is not a current user. */
  lemma OtherAuthenticationRefused()
    ensures GetUsernameOfCurrentUser(Some(Other(true))) == Throw(NotAuthorizedUser(NotAuthorized))
  {
  }

  class UserService {
    /** The user table, by username. */
    var users: map<string, User>

    /** Every stored user is filed under its own username. */
    predicate Valid()
      reads this
    {
      forall name :: name in users ==> users[name].username == name
    }

    /** An empty repository. */
    constructor ()
      ensures users == map[]
      ensures Valid()
    {
      users := map[];
    }

    /**
     * getUserByUsername: the stored user with this name, or
     * UsernameNotFoundException naming the username (null included).
     */
    function GetUserByUsername(username: Option<string>): (r: Result<User>)
      reads this
      ensures r.Ok? <==> username.Some? && username.value in users
      ensures r.Ok? ==> r.value == users[username.value]
      ensures r.Ok? && Valid() ==> r.value.username == username.value
      ensures r.Throw? ==> r.error == UsernameNotFound("User with username '" + FormatNullable(username) + "' not found")
    {
      if username.Some? && username.value in users then Ok(users[username.value])
      else Throw(UsernameNotFound("User with username '" + FormatNullable(username) + "' not found"))
    }

    /**
     * getCurrentUser: the username from the context, looked up again in the
     * repository, so the roles are the stored ones and not the token's.
     */
    function GetCurrentUser(context: Option<Authentication>): (r: Result<User>)
      reads this, ContextObjects(context)
      ensures GetUsernameOfCurrentUser(context).Throw? ==> r == Throw(GetUsernameOfCurrentUser(context).error)
      ensures r.Ok? <==> GetUsernameOfCurrentUser(context).Ok? && GetUsernameOfCurrentUser(context).value in users
      ensures r.Ok? ==> r.value == users[context.value.principal.username]
    {
      match GetUsernameOfCurrentUser(context)
      case Throw(e) => Throw(e)
      case Ok(name) => GetUserByUsername(Some(name))
    }

    /**
     * The roles of the current user are those in the repository, whatever
     * roles the authentication object carries.
     */
    lemma CurrentUserRolesFromStore(principal: JwtAuthentication)
      requires principal.authenticated && principal.username in users
      ensures GetCurrentUser(Some(Jwt(principal))).Ok?
      ensures GetCurrentUser(Some(Jwt(principal))).value.roles == users[principal.username].roles
    {
    }

    /**
     * loadUserByUsername: the stored user as UserDetails with one authority
     * per role, named by the role. The UserDetails constructor refuses an
     * empty username.
     */
    function LoadUserByUsername(username: Option<string>): (r: Result<UserDetails>)
      reads this
      ensures r.Ok? <==> username.Some? && username.value in users && users[username.value].username != ""
      ensures r.Ok? ==>
        && r.value.username == users[username.value].username
        && r.value.password == users[username.value].password
        && (forall a :: a in r.value.authorities <==> exists role :: role in users[username.value].roles && role.Name() == a)
      ensures username.None? || username.value !in users ==>
        r == Throw(UsernameNotFound("User with name '" + FormatNullable(username) + "' not found"))
    {
      if username.None? || username.value !in users then
        Throw(UsernameNotFound("User with name '" + FormatNullable(username) + "' not found"))
      else
        var user := users[username.value];
        if user.username == "" then Throw(IllegalArgument("Cannot pass null or empty values to constructor"))
        else Ok(UserDetails(user.username, user.password, set role | role in user.roles :: role.Name()))
    }

    /** There are exactly as many authorities as stored roles: role names are distinct. */
    lemma AuthoritiesPerRole(username: string)
      requires LoadUserByUsername(Some(username)).Ok?
      ensures |LoadUserByUsername(Some(username)).value.authorities| == |users[username].roles|
    {
      var roles := users[username].roles;
      var names := LoadUserByUsername(Some(username)).value.authorities;
      assert names == set role | role in roles :: role.Name();
      assert forall role: Role :: role in roles ==> role == RoleAdmin || role == RoleUser;
      if RoleAdmin in roles && RoleUser in roles {
        assert roles == {RoleAdmin, RoleUser};
        assert names == {"ROLE_ADMIN", "ROLE_USER"};
      } else if RoleAdmin in roles {
        assert roles == {RoleAdmin};
        assert names == {"ROLE_ADMIN"};
      } else if RoleUser in roles {
        assert roles == {RoleUser};
        assert names == {"ROLE_USER"};
      } else {
        assert roles == {};
        assert names == {};
      }
    }

    /**
     * createNewUser: an existing username is refused with
     * UserAlreadyExistsException and nothing is saved; otherwise a user with
     * the given name, the encoded password and the single role ROLE_USER is
     * saved under a newly generated id and returned.
     */
    method CreateNewUser(dto: RegistrationUserDto, encoder: PasswordEncoder, freshId: Uuid) returns (r: Result<User>)
      requires Valid()
      requires dto.username.Some? && dto.password.Some?
      requires forall name :: name in users ==> users[name].id != freshId
      modifies this
      ensures Valid()
      ensures dto.username.value in old(users) ==>
        && r == Throw(UserAlreadyExists("User with username '" + dto.username.value + "' already exists"))
        && users == old(users)
      ensures dto.username.value !in old(users) ==>
        && r == Ok(User(freshId, dto.username.value, encoder.encode(dto.password.value), {RoleUser}))
        && users == old(users)[dto.username.value := r.value]
    {
      var name := dto.username.value;
      if name in users {
        return Throw(UserAlreadyExists("User with username '" + name + "' already exists"));
      }
      var user := User(freshId, name, encoder.encode(dto.password.value), {RoleUser});
      users := users[name := user];
      r := Ok(user);
    }
  }
}
