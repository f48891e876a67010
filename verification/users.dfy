/** The cache-aside user service: lookups by id and by e-mail consult the
    TTL cache first and fill it from the repository on a miss; registration
    checks the repository for the e-mail before creating the user.

    The repository is a table of rows in primary-key order that is either
    reachable or not; bcrypt and the JWT signer are oracles passed in as
    functions; time is the explicit `now`. */
module UserService {
  import opened Wrappers
  import opened Clock
  import Decimal
  import TtlCache
  import Aggregate

  /** A user row (`user.User` with its embedded `common.Base`). */
  datatype User = User(
    id: nat, name: string, age: int, city: string, password: string, email: string,
    token: string, refreshToken: string, role: string,
    isActive: bool, isActiveAt: Instant, isVerified: bool, isVerifiedAt: Instant, isDeleted: bool,
    createdAt: Instant, updatedAt: Instant)

  /** Go's zero value of `user.User`. */
  const ZeroUser := User(0, "", 0, "", "", "", "", "", "", false, ZeroTime, false, ZeroTime, false, ZeroTime, ZeroTime)

  /** Why a repository call failed: the row is missing (`user not found`),
      the e-mail is taken (`user with this email already exists`), or the
      database itself returned an error. */
  datatype RepoError = NotFound | EmailExists | Unavailable

  /** The users table: rows in primary-key order, the next auto-increment
      id, and whether the database answers at all. */
  datatype Repo = Repo(rows: seq<User>, nextId: nat, online: bool)

  /** The table's invariant: ids increase along the rows and stay below the
      next id to assign, and e-mails are unique (the `uniqueIndex` on `Email`). */
  ghost predicate Valid(repo: Repo)
  {
    && (forall i, j :: 0 <= i < j < |repo.rows| ==> repo.rows[i].id < repo.rows[j].id)
    && (forall i :: 0 <= i < |repo.rows| ==> repo.rows[i].id < repo.nextId)
    && (forall i, j :: 0 <= i < j < |repo.rows| ==> repo.rows[i].email != repo.rows[j].email)
  }

  /** The first row, in primary-key order, that a `WHERE` condition selects
      (GORM's `First`). */
  function FirstWhere(rows: seq<User>, selects: User -> bool): (r: Option<User>)
    ensures r.Some? ==> r.value in rows && selects(r.value)
    ensures r.Some? ==> exists k :: 0 <= k < |rows| && rows[k] == r.value && forall j :: 0 <= j < k ==> !selects(rows[j])
    ensures r.None? <==> forall i :: 0 <= i < |rows| ==> !selects(rows[i])
    decreases |rows|
  {
    if |rows| == 0 then None
    else if selects(rows[0]) then
      Some(rows[0])
    else
      assert forall i :: 0 < i < |rows| ==> rows[i] == rows[1..][i - 1];
      var r := FirstWhere(rows[1..], selects);
      if r.Some? then
        var k :| 0 <= k < |rows[1..]| && rows[1..][k] == r.value && forall j :: 0 <= j < k ==> !selects(rows[1..][j]);
        assert rows[k + 1] == r.value && forall j :: 0 <= j < k + 1 ==> !selects(rows[j]);
        r
      else r
  }

  /** `WHERE email = ?`. */
  function FirstWithEmail(rows: seq<User>, email: string): Option<User>
  {
    FirstWhere(rows, (u: User) => u.email == email)
  }

  /** `First(&user, id)`: the primary-key condition. */
  function FirstWithId(rows: seq<User>, id: nat): Option<User>
  {
    FirstWhere(rows, (u: User) => u.id == id)
  }

  /** `Repository.FindByEmail`. */
  function FindByEmail(repo: Repo, email: string): (r: Result<User, RepoError>)
    ensures r.Ok? ==> r.value in repo.rows && r.value.email == email
    ensures r == Err(Unavailable) <==> !repo.online
    ensures r == Err(NotFound) <==> repo.online && forall i :: 0 <= i < |repo.rows| ==> repo.rows[i].email != email
    ensures !r.Err? || r.error != EmailExists
  {
    if !repo.online then Err(Unavailable)
    else match FirstWithEmail(repo.rows, email)
      case Some(u) => Ok(u)
      case None => Err(NotFound)
  }

  /** `Repository.FindByID`. */
  function FindByID(repo: Repo, id: nat): (r: Result<User, RepoError>)
    ensures r.Ok? ==> r.value in repo.rows && r.value.id == id
    ensures r == Err(Unavailable) <==> !repo.online
    ensures r == Err(NotFound) <==> repo.online && forall i :: 0 <= i < |repo.rows| ==> repo.rows[i].id != id
    ensures !r.Err? || r.error != EmailExists
  {
    if !repo.online then Err(Unavailable)
    else match FirstWithId(repo.rows, id)
      case Some(u) => Ok(u)
      case None => Err(NotFound)
  }

  /** `Repository.FindAll`. */
  function FindAll(repo: Repo): (r: Result<seq<User>, RepoError>)
    ensures r.Ok? <==> repo.online
    ensures r.Ok? ==> r.value == repo.rows
    ensures r.Err? ==> r.error == Unavailable
  {
    if repo.online then Ok(repo.rows) else Err(Unavailable)
  }

  /** The `BeforeSave` hook: a non-empty password is replaced by its hash. */
  function BeforeSave(u: User, hash: string -> string): (u': User)
    ensures u.password != "" ==> u'.password == hash(u.password)
    ensures u.password == "" ==> u' == u
    ensures u' == u.(password := u'.password)
  {
    if u.password != "" then u.(password := hash(u.password)) else u
  }

  /** The `BeforeCreate` hook of the common base: both timestamps are set to `now`. */
  function BeforeCreate(u: User, now: Instant): User
  {
    u.(createdAt := now, updatedAt := now)
  }

  /** A created row and the table holding it. */
  datatype Created = Created(user: User, repo: Repo)

  /** `Repository.Create`: refuses a taken e-mail, then inserts the row after
      the `BeforeSave` and `BeforeCreate` hooks, giving it the next id. */
  function Create(repo: Repo, u: User, now: Instant, hash: string -> string): (r: Result<Created, RepoError>)
    ensures !repo.online ==> r == Err(Unavailable)
    ensures repo.online && FirstWithEmail(repo.rows, u.email).Some? ==> r == Err(EmailExists)
    ensures r.Ok? <==> repo.online && FirstWithEmail(repo.rows, u.email).None?
    ensures r.Ok? ==> r.value.repo.rows == repo.rows + [r.value.user]
    ensures r.Ok? ==> r.value.user == BeforeCreate(BeforeSave(u, hash), now).(id := repo.nextId)
    ensures r.Ok? ==> r.value.repo.online && r.value.repo.nextId > repo.nextId
  {
    if !repo.online then Err(Unavailable)
    else if FirstWithEmail(repo.rows, u.email).Some? then Err(EmailExists)
    else
      var stored := BeforeCreate(BeforeSave(u, hash), now).(id := repo.nextId);
      Ok(Created(stored, Repo(repo.rows + [stored], repo.nextId + 1, true)))
  }

  /** `Repository.UpdateToken`: every row with the id gets the token, and
      GORM's `Update` stamps its `updated_at` with `now`; no row matching is
      not an error. */
  function UpdateToken(repo: Repo, id: nat, token: string, now: Instant): (r: Result<Repo, RepoError>)
    ensures r.Ok? <==> repo.online
    ensures r.Ok? ==> |r.value.rows| == |repo.rows| && r.value.nextId == repo.nextId && r.value.online
    ensures r.Ok? ==> forall i :: 0 <= i < |repo.rows| ==>
      r.value.rows[i] == if repo.rows[i].id == id then repo.rows[i].(token := token, updatedAt := now) else repo.rows[i]
    ensures r.Err? ==> r.error == Unavailable
  {
    if !repo.online then Err(Unavailable)
    else
      Ok(repo.(rows := seq(|repo.rows|, i requires 0 <= i < |repo.rows| =>
        if repo.rows[i].id == id then repo.rows[i].(token := token, updatedAt := now) else repo.rows[i])))
  }

  // ---------------------------------------------------------------------
  // Cache keys
  // ---------------------------------------------------------------------

  /** `fmt.Sprintf("user:id:%d", id)`. */
  function IdKey(id: nat): string
  {
    Decimal.Tagged("user:id:", id, "")
  }

  /** `fmt.Sprintf("user:email:%s", email)`. */
  function EmailKey(email: string): string
  {
    "user:email:" + email
  }

  /** The two key families never collide, and each identifies its argument. */
  lemma KeysDistinct(id: nat, id': nat, email: string, email': string)
    ensures IdKey(id) != EmailKey(email)
    ensures IdKey(id) == IdKey(id') <==> id == id'
    ensures EmailKey(email) == EmailKey(email') <==> email == email'
  {
    assert IdKey(id)[5] == 'i';
    assert EmailKey(email)[5] == 'e';
    Decimal.TaggedInjective("user:id:", id, id', "");
    if EmailKey(email) == EmailKey(email') {
      Decimal.MiddleOf("user:email:", email, email', "");
      assert "user:email:" + email + "" == EmailKey(email);
      assert "user:email:" + email' + "" == EmailKey(email');
    }
  }

  /** Every cached user sits under its own keys: `user:id:<id>` holds the
      user with that id and `user:email:<e>` the user with that e-mail. */
  ghost predicate Coherent(c: TtlCache.Cache<User>)
  {
    && (forall id: nat :: IdKey(id) in c.items ==> c.items[IdKey(id)].value.id == id)
    && (forall e :: EmailKey(e) in c.items ==> c.items[EmailKey(e)].value.email == e)
  }

  // ---------------------------------------------------------------------
  // The service
  // ---------------------------------------------------------------------

  /** The service's state: its repository and the shared cache. */
  datatype Service = Service(repo: Repo, cache: TtlCache.Cache<User>)

  /** The service's errors. `InvalidCredentials` and `EmailTaken` carry the
      messages `invalid credentials` and `user with this email already exists`. */
  datatype Error = InvalidCredentials | EmailTaken | RepoFailure(cause: RepoError) | SigningFailure(reason: string)

  /** A service call's outcome and the state it leaves behind. */
  datatype Reply<T> = Reply(result: Result<T, Error>, service: Service)

  /** The login response: a signed token, an empty refresh token, the user. */
  datatype AuthResponse = AuthResponse(token: string, refreshToken: string, user: User)

  /** Lifetime of a signed token: 24 hours, in seconds. */
  const TokenLifetimeSeconds := 24 * 3600

  /** `generateAuthResponse`: sign `{user_id, exp = now + 24h}` and store the
      token on the user's row. `sign` is the JWT signer. */
  function GenerateAuthResponse(s: Service, u: User, now: Instant, sign: (nat, int) -> Result<string, string>): (r: Reply<AuthResponse>)
    ensures r.service.cache == s.cache
    ensures sign(u.id, UnixSeconds(now) + TokenLifetimeSeconds).Err? ==>
      r == Reply(Err(SigningFailure(sign(u.id, UnixSeconds(now) + TokenLifetimeSeconds).error)), s)
    ensures r.result.Ok? <==> sign(u.id, UnixSeconds(now) + TokenLifetimeSeconds).Ok? && s.repo.online
    ensures r.result.Ok? ==> r.result.value == AuthResponse(sign(u.id, UnixSeconds(now) + TokenLifetimeSeconds).value, "", u)
    ensures r.result.Ok? ==> r.service.repo == UpdateToken(s.repo, u.id, r.result.value.token, now).value
    ensures r.result.Err? ==> r.service == s
  {
    var exp := UnixSeconds(now) + TokenLifetimeSeconds;
    match sign(u.id, exp)
    case Err(msg) => Reply(Err(SigningFailure(msg)), s)
    case Ok(token) =>
      match UpdateToken(s.repo, u.id, token, now)
      case Err(e) => Reply(Err(RepoFailure(e)), s)
      case Ok(repo') => Reply(Ok(AuthResponse(token, "", u)), s.(repo := repo'))
  }

  /** `GetUserByID`: a fresh entry under `user:id:<id>` is returned as is;
      otherwise the repository is asked, and a found user is cached. */
  function GetUserByID(s: Service, id: nat, now: Instant): (r: Reply<User>)
    ensures r.service.repo == s.repo
    ensures TtlCache.Get(s.cache, IdKey(id), now).value.Some? ==>
      r == Reply(Ok(TtlCache.Get(s.cache, IdKey(id), now).value.value), s)
    ensures TtlCache.Get(s.cache, IdKey(id), now).value.None? ==>
      match FindByID(s.repo, id)
      case Ok(u) => r.result == Ok(u) && r.service.cache == TtlCache.Set(TtlCache.Get(s.cache, IdKey(id), now).cache, IdKey(id), u, now)
      case Err(e) => r.result == Err(RepoFailure(e)) && r.service.cache == TtlCache.Get(s.cache, IdKey(id), now).cache
    ensures Coherent(s.cache) && r.result.Ok? ==> r.result.value.id == id
  {
    var key := IdKey(id);
    var look := TtlCache.Get(s.cache, key, now);
    if look.value.Some? then Reply(Ok(look.value.value), s)
    else match FindByID(s.repo, id)
      case Err(e) => Reply(Err(RepoFailure(e)), s.(cache := look.cache))
      case Ok(u) => Reply(Ok(u), s.(cache := TtlCache.Set(look.cache, key, u, now)))
  }

  /** `Login`: the user comes from a fresh `user:email:<email>` entry, or
      else from the repository; an unknown e-mail and a wrong password both
      give `invalid credentials`; a user read from the repository is cached
      only once the password check has passed. `check(password, hash)` is bcrypt's comparison. */
  function Login(s: Service, email: string, password: string, now: Instant,
                 check: (string, string) -> bool, sign: (nat, int) -> Result<string, string>): (r: Reply<AuthResponse>)
    ensures var look := TtlCache.Get(s.cache, EmailKey(email), now);
      look.value.Some? ==>
        if check(password, look.value.value.password) then r == GenerateAuthResponse(s, look.value.value, now, sign)
        else r == Reply(Err(InvalidCredentials), s)
    ensures var look := TtlCache.Get(s.cache, EmailKey(email), now);
      look.value.None? && (FindByEmail(s.repo, email).Err? || !check(password, FindByEmail(s.repo, email).value.password)) ==>
        r == Reply(Err(InvalidCredentials), s.(cache := look.cache))
    ensures var look := TtlCache.Get(s.cache, EmailKey(email), now);
      r.service.cache != look.cache ==>
        && look.value.None?
        && FindByEmail(s.repo, email).Ok?
        && check(password, FindByEmail(s.repo, email).value.password)
        && r.service.cache == TtlCache.Set(look.cache, EmailKey(email), FindByEmail(s.repo, email).value, now)
    ensures var look := TtlCache.Get(s.cache, EmailKey(email), now);
      look.value.None? && FindByEmail(s.repo, email).Ok? && check(password, FindByEmail(s.repo, email).value.password) ==>
        r == GenerateAuthResponse(s.(cache := TtlCache.Set(look.cache, EmailKey(email), FindByEmail(s.repo, email).value, now)),
                                  FindByEmail(s.repo, email).value, now, sign)
    ensures r.result.Ok? ==> check(password, r.result.value.user.password)
    ensures Coherent(s.cache) && r.result.Ok? ==> r.result.value.user.email == email
  {
    var key := EmailKey(email);
    var look := TtlCache.Get(s.cache, key, now);
    if look.value.Some? then
      var u := look.value.value;
      if !check(password, u.password) then Reply(Err(InvalidCredentials), s)
      else GenerateAuthResponse(s, u, now, sign)
    else
      var s1 := s.(cache := look.cache);
      match FindByEmail(s.repo, email)
      case Err(_) => Reply(Err(InvalidCredentials), s1)
      case Ok(u) =>
        if !check(password, u.password) then Reply(Err(InvalidCredentials), s1)
        else GenerateAuthResponse(s1.(cache := TtlCache.Set(look.cache, key, u, now)), u, now, sign)
  }

  /** The registration form (`CreateUserRequest`). */
  datatype CreateUserRequest = CreateUserRequest(name: string, age: int, city: string, password: string, email: string)

  /** The user `CreateUser` hands to the repository before the hooks run:
      active and verified from `now`, not deleted, no role, no id yet. */
  function NewUser(req: CreateUserRequest, now: Instant): User
  {
    User(0, req.name, req.age, req.city, req.password, req.email, "", "", "",
         true, now, true, now, false, ZeroTime, ZeroTime)
  }

  /** `CreateUser`: an e-mail the repository already knows is refused and
      nothing is created; otherwise the stored user (hashed password,
      assigned id) is returned and cached under `user:email:<email>`. */
  function CreateUser(s: Service, req: CreateUserRequest, now: Instant, hash: string -> string): (r: Reply<User>)
    ensures FindByEmail(s.repo, req.email).Ok? ==> r == Reply(Err(EmailTaken), s)
    ensures r.result.Err? ==> r.service == s
    ensures r.result.Ok? <==> s.repo.online && FindByEmail(s.repo, req.email).Err?
    ensures r.result.Ok? ==> var u := r.result.value;
      && u.email == req.email && u.name == req.name && u.age == req.age && u.city == req.city
      && u.isActive && u.isVerified && !u.isDeleted
      && u.isActiveAt == now && u.isVerifiedAt == now && u.createdAt == now && u.updatedAt == now
      && u.id == s.repo.nextId
      && (req.password != "" ==> u.password == hash(req.password))
      && r.service.repo.rows == s.repo.rows + [u]
      && r.service.repo.nextId > s.repo.nextId && r.service.repo.online
      && r.service.cache == TtlCache.Set(s.cache, EmailKey(req.email), u, now)
  {
    if FindByEmail(s.repo, req.email).Ok? then Reply(Err(EmailTaken), s)
    else match Create(s.repo, NewUser(req, now), now, hash)
      case Err(e) => Reply(Err(RepoFailure(e)), s)
      case Ok(created) =>
        Reply(Ok(created.user), Service(created.repo, TtlCache.Set(s.cache, EmailKey(req.email), created.user, now)))
  }

  // ---------------------------------------------------------------------
  // Users with details
  // ---------------------------------------------------------------------

  /** `UserWithDetails`. */
  datatype UserWithDetails = UserWithDetails(user: User, lastLoginAt: Instant, loginCount: int, activeSessions: int)

  /** Go's zero value of `UserWithDetails`: what a failed user's slot keeps. */
  const ZeroDetails := UserWithDetails(ZeroUser, ZeroTime, 0, 0)

  /** How one user's three `select`s ended; only the first one listens to the context. */
  datatype UserStages = UserStages(
    lastLogin: Aggregate.Outcome<Instant>, loginCount: Aggregate.Awaited<int>, sessions: Aggregate.Awaited<int>)

  const UserLabels := Aggregate.Labels("last login", "login count", "sessions", "user")

  /** One user's goroutine. */
  function UserSlot(u: User, st: UserStages, ctxErr: Aggregate.ContextError): Aggregate.Slot<UserWithDetails>
  {
    Aggregate.Settle(UserLabels, u.id, ctxErr, (a, b, c) => UserWithDetails(u, a, b, c),
                     st.lastLogin, st.loginCount, st.sessions)
  }

  /** Whether all three stages of a user delivered. */
  predicate AllArrived(st: UserStages)
  {
    st.lastLogin.Arrived? && st.loginCount.Arrived? && st.sessions.Arrived?
  }

  /** `GetAllWithDetails`: list the users, run one join per user (`stages(i)`
      says how user i's selects ended, `ctxErr` what the context reports if
      it is done), and collect. */
  function GetAllWithDetails(s: Service, stages: nat -> UserStages, ctxErr: Aggregate.ContextError): (b: Aggregate.Batch<UserWithDetails, RepoError>)
    ensures !s.repo.online <==> b == Aggregate.ListFailed(Unavailable)
    ensures b.Collected? ==> |b.results| == |s.repo.rows|
    ensures b.Collected? ==> forall i :: 0 <= i < |s.repo.rows| ==>
      b.results[i] == if AllArrived(stages(i))
        then UserWithDetails(s.repo.rows[i], stages(i).lastLogin.value, stages(i).loginCount.value, stages(i).sessions.value)
        else ZeroDetails
    ensures b.Collected? ==> (b.failure.Some? <==> exists i :: 0 <= i < |s.repo.rows| && !AllArrived(stages(i)))
  {
    match FindAll(s.repo)
    case Err(e) => Aggregate.ListFailed(e)
    case Ok(users) =>
      var slots := seq(|users|, i requires 0 <= i < |users| => UserSlot(users[i], stages(i), ctxErr));
      Aggregate.Collect("user", slots, ZeroDetails)
  }
}

/** Properties of the user service that relate several calls. */
module UserServiceFacts {
  import opened Wrappers
  import opened Clock
  import TtlCache
  import Aggregate
  import opened UserService

  /** On a cache hit `GetUserByID` does not consult the repository: any
      repository gives the same answer. */
  lemma HitIgnoresRepository(s: Service, id: nat, now: Instant, other: Repo)
    requires TtlCache.Get(s.cache, IdKey(id), now).value.Some?
    ensures GetUserByID(s.(repo := other), id, now).result == GetUserByID(s, id, now).result
    ensures GetUserByID(s.(repo := other), id, now).service.cache == s.cache
  {
  }

  /** A failed lookup leaves the cache as every later read sees it. */
  lemma FailedLookupInvisible(s: Service, id: nat, now: Instant, k: string, t: Instant)
    requires GetUserByID(s, id, now).result.Err?
    requires now <= t
    ensures TtlCache.Get(GetUserByID(s, id, now).service.cache, k, t).value == TtlCache.Get(s.cache, k, t).value
  {
    TtlCache.EvictionInvisibleToGet(s.cache, IdKey(id), now, k, t);
  }

  /** Caching a user under its own e-mail key keeps the cache coherent. */
  lemma SetEmailKeepsCoherent(c: TtlCache.Cache<User>, u: User, now: Instant)
    requires Coherent(c)
    ensures Coherent(TtlCache.Set(c, EmailKey(u.email), u, now))
  {
    var c' := TtlCache.Set(c, EmailKey(u.email), u, now);
    forall id: nat | IdKey(id) in c'.items
      ensures c'.items[IdKey(id)].value.id == id
    {
      KeysDistinct(id, id, u.email, u.email);
    }
    forall e | EmailKey(e) in c'.items
      ensures c'.items[EmailKey(e)].value.email == e
    {
      KeysDistinct(0, 0, e, u.email);
    }
  }

  /** Caching a user under its own id key keeps the cache coherent. */
  lemma SetIdKeepsCoherent(c: TtlCache.Cache<User>, u: User, now: Instant)
    requires Coherent(c)
    ensures Coherent(TtlCache.Set(c, IdKey(u.id), u, now))
  {
    var c' := TtlCache.Set(c, IdKey(u.id), u, now);
    forall id: nat | IdKey(id) in c'.items
      ensures c'.items[IdKey(id)].value.id == id
    {
      KeysDistinct(id, u.id, "", "");
    }
    forall e | EmailKey(e) in c'.items
      ensures c'.items[EmailKey(e)].value.email == e
    {
      KeysDistinct(u.id, u.id, e, e);
    }
  }

  /** No service call ever files a user under another user's key. */
  lemma ServiceKeepsCacheCoherent(s: Service, id: nat, email: string, password: string, req: CreateUserRequest, now: Instant,
                                  check: (string, string) -> bool, sign: (nat, int) -> Result<string, string>, hash: string -> string)
    requires Coherent(s.cache)
    ensures Coherent(GetUserByID(s, id, now).service.cache)
    ensures Coherent(Login(s, email, password, now, check, sign).service.cache)
    ensures Coherent(CreateUser(s, req, now, hash).service.cache)
  {
    GetUserByIDKeepsCoherent(s, id, now);
    LoginKeepsCoherent(s, email, password, now, check, sign);
    var r := CreateUser(s, req, now, hash);
    if r.result.Ok? {
      SetEmailKeepsCoherent(s.cache, r.result.value, now);
    }
  }

  /** `GetUserByID` files a found user only under its own id. */
  lemma GetUserByIDKeepsCoherent(s: Service, id: nat, now: Instant)
    requires Coherent(s.cache)
    ensures Coherent(GetUserByID(s, id, now).service.cache)
  {
    var look := TtlCache.Get(s.cache, IdKey(id), now);
    assert Coherent(look.cache);
    if look.value.None? && FindByID(s.repo, id).Ok? {
      SetIdKeepsCoherent(look.cache, FindByID(s.repo, id).value, now);
    }
  }

  /** `Login` files a user read from the repository only under its own e-mail. */
  lemma LoginKeepsCoherent(s: Service, email: string, password: string, now: Instant,
                           check: (string, string) -> bool, sign: (nat, int) -> Result<string, string>)
    requires Coherent(s.cache)
    ensures Coherent(Login(s, email, password, now, check, sign).service.cache)
  {
    var look := TtlCache.Get(s.cache, EmailKey(email), now);
    assert Coherent(look.cache);
    if look.value.None? && FindByEmail(s.repo, email).Ok? {
      SetEmailKeepsCoherent(look.cache, FindByEmail(s.repo, email).value, now);
    }
  }

  /** A user who has just registered can log in with the same password
      while the cache entry is fresh: the login is served from the cache,
      whose entry holds the hashed password, and returns the created user. */
  lemma RegisterThenLogin(s: Service, req: CreateUserRequest, now: Instant, t: Instant,
                          check: (string, string) -> bool, sign: (nat, int) -> Result<string, string>, hash: string -> string)
    requires s.repo.online && s.cache.config.enabled
    requires FindByEmail(s.repo, req.email).Err?
    requires req.password != ""
    requires check(req.password, hash(req.password))
    requires now <= t < now + s.cache.config.ttl
    requires sign(s.repo.nextId, UnixSeconds(t) + TokenLifetimeSeconds).Ok?
    ensures CreateUser(s, req, now, hash).result.Ok?
    ensures var created := CreateUser(s, req, now, hash);
      Login(created.service, req.email, req.password, t, check, sign).result
        == Ok(AuthResponse(sign(s.repo.nextId, UnixSeconds(t) + TokenLifetimeSeconds).value, "", created.result.value))
  {
    var created := CreateUser(s, req, now, hash);
    var u := created.result.value;
    TtlCache.SetThenGetHit(s.cache, EmailKey(req.email), u, now, t);
    assert TtlCache.Get(created.service.cache, EmailKey(req.email), t).value == Some(u);
  }

  /** In the batch, a user whose stage timed out is reported once, by the
      first field that did not arrive, and a cancelled one by the context error. */
  lemma DetailErrorsNameFirstMissingField(s: Service, stages: nat -> UserStages, ctxErr: Aggregate.ContextError, i: nat)
    requires s.repo.online && i < |s.repo.rows|
    ensures var b := GetAllWithDetails(s, stages, ctxErr);
      var st := stages(i);
      var id := s.repo.rows[i].id;
      && (st.lastLogin.TimedOut? ==> Aggregate.StageTimeout("last login", "user", id) in b.failure.value.errors)
      && (st.lastLogin.Arrived? && st.loginCount.TimedOut? ==> Aggregate.StageTimeout("login count", "user", id) in b.failure.value.errors)
      && (st.lastLogin.Arrived? && st.loginCount.Arrived? && st.sessions.TimedOut? ==> Aggregate.StageTimeout("sessions", "user", id) in b.failure.value.errors)
      && (st.lastLogin.Cancelled? ==> Aggregate.ContextErr(ctxErr) in b.failure.value.errors)
  {
    var users := s.repo.rows;
    var slots := seq(|users|, j requires 0 <= j < |users| => UserSlot(users[j], stages(j), ctxErr));
    assert slots[i] == UserSlot(users[i], stages(i), ctxErr);
    if slots[i].Failed? {
      assert slots[i].error in Aggregate.Errors(slots);
    }
  }

  /** `Create` keeps the table's invariant. */
  lemma CreateKeepsValid(repo: Repo, u: User, now: Instant, hash: string -> string)
    requires Valid(repo)
    ensures Create(repo, u, now, hash).Ok? ==> Valid(Create(repo, u, now, hash).value.repo)
  {
    var r := Create(repo, u, now, hash);
    if r.Ok? {
      var rows' := r.value.repo.rows;
      assert forall i :: 0 <= i < |repo.rows| ==> repo.rows[i].email != u.email;
      assert forall i :: 0 <= i < |repo.rows| ==> rows'[i] == repo.rows[i];
    }
  }

  /** `UpdateToken` keeps the table's invariant: it touches neither ids nor e-mails. */
  lemma UpdateTokenKeepsValid(repo: Repo, id: nat, token: string, now: Instant)
    requires Valid(repo)
    ensures UpdateToken(repo, id, token, now).Ok? ==> Valid(UpdateToken(repo, id, token, now).value)
  {
    var r := UpdateToken(repo, id, token, now);
    if r.Ok? {
      assert forall i :: 0 <= i < |repo.rows| ==>
        r.value.rows[i].id == repo.rows[i].id && r.value.rows[i].email == repo.rows[i].email;
    }
  }

  /** With the invariant, the row `FindByID` returns is the only one with that id. */
  lemma FindByIDUnique(repo: Repo, id: nat)
    requires Valid(repo)
    requires FindByID(repo, id).Ok?
    ensures forall i :: 0 <= i < |repo.rows| && repo.rows[i].id == id ==> repo.rows[i] == FindByID(repo, id).value
  {
    var found := FindByID(repo, id).value;
    forall i | 0 <= i < |repo.rows| && repo.rows[i].id == id
      ensures repo.rows[i] == found
    {
      var k :| 0 <= k < |repo.rows| && repo.rows[k] == found;
      assert repo.rows[k].id == repo.rows[i].id;
    }
  }
}
