# Detail aggregation, TTL cache and bearer checks of a Go web backend

This project is a Dafny model of the parts of the backend that have real logic in them. The rest of the repository is CRUD plumbing.

- **TTL cache** (`internal/cache/cache.go`). A map from string keys to values. Each value carries an absolute expiration instant. `Get` checks expiry itself and deletes what it finds expired. A periodic sweep deletes the rest. `Enabled` gates `Set` and `Get`.
- **Cache-aside user service** (`internal/domain/service/user/service.go`). `GetUserByID`, `Login` and `CreateUser` read or fill the cache around the users table. `GetAllWithDetails` joins three detail fields for every user.
- **News detail service** (`internal/domain/service/news/service.go`). The same join, with other fields and a hard-coded 500 ms timer.
- **Bearer middleware** (`internal/delivery/Api/middleware.go`). An ordered series of checks on the `Authorization` header. It ends with a user lookup.
- **Seeders** (`internal/domain/model/seeder/seeders.go`). Byte-length clamps on generated text, and names derived from an index.

Modelling choices:

- **Time.** Time is an explicit integer `now`, in nanoseconds (`Clock`).
- **The cache.** The cache is an immutable value. `Get` returns the store it leaves behind.
- **The join.** The three nested `select`s of one entity are a pure function `Aggregate.Join3` of how each `select` ended: `Arrived(v)`, `TimedOut`, or `Cancelled`. `Cancelled` is only possible for the first stage, and the types enforce this.
  - Go picks randomly among ready cases. So the outcomes are inputs: any combination may be passed.
  - `SelectTiming` says which outcomes a given set of ready instants, timers and context deadline allows.
- **Both services share one join.** `Aggregate.Settle` and `Aggregate.Collect` are generic. The user and news services only supply field names, record builders and zero values.
- **Repository.** The users table is a sequence of rows, plus a flag saying whether the database answers. `UserService.Valid` states that the rows are in primary-key order with unique e-mails, and `Create` and `UpdateToken` keep that. A listing returns the rows in that order.
- **Oracles.** These are function parameters: bcrypt (`hash`, `check`), the JWT signer (`sign`), the clock-free part of `jwt.Parse` (`decode`: decoding and signature check), and the middleware's user lookup. The default claim validation `jwt.Parse` performs is modelled: golang-jwt v5 refuses a token once the clock reaches its numeric `exp`, and it reads an `exp` of `0` as no `exp` at all.
- **Strings.** Go strings are byte sequences, and `len` counts bytes. The model's strings stand for those bytes.

Behaviours of the code that are easy to miss:

- **Cancellation.** The context is watched only while the first field is awaited. A context that ends after the first field arrived does not fail the entity (`SelectTiming.ContextIgnoredAfterFirstStage`).
- **Results.** The results slice has one slot per listed entity, and a failed entity's slot keeps Go's zero value.
- **Disabled cache.** Only `Set` and `Get` are gated by `Enabled`. `Delete` and `Clear` act whatever the flag says.
- **Sweep boundary.** The sweep deletes an entry only when `now > expiration`. A read already treats `now == expiration` as expired.
- **Fetch errors.** The detail fetchers cannot fail, only time out.
- **Expiry.** The middleware's own `Token has expired` branch (`middleware.go:100-104`) fires only for a token whose `exp` is `0`. For any other numeric `exp`, `jwt.Parse` already refuses the token from the first instant of its `exp` second, with `Invalid token: token has invalid claims: token is expired`. A token that gets past it has `Unix() < exp`. An `exp` of `0` is not checked by the library, so such a token reaches the branch and is refused there once the clock is past the epoch's first second (`BearerAuth.ExpiredOnlyForZeroExpiry`, `BearerAuth.ZeroExpiry`).

## Model

| member | source | states |
|---|---|---|
| TtlCache.New | internal/cache/cache.go:28-39 | A new cache is empty. The cleanup loop is started exactly when caching is enabled. |
| TtlCache.Set | internal/cache/cache.go:42-52 | When enabled, the key maps to the value with expiration `now + ttl`, and every other key is unchanged (last writer wins). When disabled, the cache is unchanged. |
| TtlCache.Get | internal/cache/cache.go:55-69 | A hit happens iff the cache is enabled, the key is present and `now < expiration`. A hit returns the stored value and leaves the store alone. An expired entry is deleted. A disabled cache reports a miss without touching the store. |
| TtlCache.Delete | internal/cache/cache.go:72-74 | Removes only the key, and is not gated by `Enabled`. Deleting an absent key changes nothing. |
| TtlCache.Clear | internal/cache/cache.go:77-79 | Afterwards the store holds no entries. |
| TtlCache.Cleanup | internal/cache/cache.go:97-106 | Keeps exactly the entries whose expiration is not strictly before `now`, with their values unchanged. |
| TtlCache.TickInvisibleToGet | internal/cache/cache.go:82-106 | A tick of the cleanup loop at `now` changes the answer of no `Get` at or after `now`, and never makes the store larger. |
| TtlCache.GetSize | internal/cache/cache.go:114-121 | Walking the store counts every stored entry, including expired ones not yet swept. |
| TtlCache.SetThenGetHit | internal/cache/cache.go:47-64 | After `Set(k, v)` at `t`, every `Get(k)` strictly before `t + ttl` returns `v`. |
| TtlCache.SetThenGetExpired | internal/cache/cache.go:60-68 | From `t + ttl` on, `Get(k)` misses and removes `k`. |
| TtlCache.DisabledIsInert | internal/cache/cache.go:43-58 | When disabled, `Set` is a no-op and a following `Get` misses without touching the store. |
| TtlCache.ClearIdempotent | internal/cache/cache.go:77-79 | Clearing twice equals clearing once, and the size is 0. |
| TtlCache.SweepBoundary | internal/cache/cache.go:97-106 | An entry expiring exactly at `now` survives the sweep at `now`. A `Get` at `now` misses and deletes it. |
| TtlCache.SweepDueIsExpired | internal/cache/cache.go:101-102 | Anything the sweep deletes is already expired for `Get`. |
| TtlCache.CleanupInvisibleToGet | internal/cache/cache.go:97-106 | A sweep at `now` changes the answer of no `Get` at or after `now`. |
| TtlCache.EvictionInvisibleToGet | internal/cache/cache.go:65-66 | The deletion a `Get` performs changes the answer of no later `Get`. |
| TtlCache.ShrinkingOperations | internal/cache/cache.go:97-106 | Sweep, delete and `Get` never increase the size. Clear makes it 0. |
| Aggregate.Join3 | internal/domain/service/user/service.go:166-188 | Stages are awaited in order, and the first stage that did not deliver is the one named. The result is a full record iff all three arrived. A cancellation can only come from the first stage. |
| Aggregate.LaterStagesIgnored | internal/domain/service/user/service.go:166-188 | Once a stage fails, the later stages' outcomes do not affect the join. |
| Aggregate.Settle | internal/domain/service/user/service.go:166-188 | An entity yields either its record built from the three values or exactly one error. The error is a timeout naming the first missing field, or the context error iff the first wait was cancelled. |
| Aggregate.Results | internal/domain/service/user/service.go:132-177 | The results slice has one slot per entity. Slot i holds entity i's record if it succeeded, else the zero value. |
| Aggregate.Errors | internal/domain/service/user/service.go:198-204 | An error is collected iff some entity reported it. There are never more errors than entities. |
| Aggregate.Collect | internal/domain/service/user/service.go:206-211 | The aggregate error is present iff at least one entity failed. The partly filled results are returned either way. |
| Aggregate.ErrorsAppend | internal/domain/service/user/service.go:198-204 | The errors of two batches are the errors of each, concatenated: every entity contributes only its own. |
| Aggregate.ErrorsSingle | internal/domain/service/user/service.go:178-187 | A single entity contributes one error if it failed, none otherwise. |
| Aggregate.ErrorsFull | internal/domain/service/user/service.go:199-204 | There are as many errors as entities iff every entity failed. |
| SelectTiming.EndsAt | internal/domain/service/news/service.go:85-107 | A `select` ends at the earliest of value ready, timer fired and context done, and never before it starts. A timer that is not positive fires at once. |
| SelectTiming.SelectBounded | internal/domain/service/news/service.go:97-104 | A `select` never ends before it starts, nor after its own fresh timer. |
| SelectTiming.NonPositiveTimeoutFiresAtOnce | internal/domain/service/user/service.go:166-177 | With a configured timeout that is zero or negative, a value that is not yet ready times out at the instant the `select` starts. |
| SelectTiming.InnerNeverCancelled | internal/domain/service/news/service.go:88-102 | The inner `select`s have no context case, so they arrive or time out. |
| SelectTiming.RunBounded | internal/domain/service/news/service.go:84-107 | One entity finishes within three timeouts, because every stage has its own timer. It finishes at once when the timeout is not positive. |
| SelectTiming.FreshTimerPerStage | internal/domain/service/news/service.go:84-104 | Fields each ready just before their own stage's timer all arrive, although the entity takes longer than one timeout. |
| SelectTiming.SlowSecondField | internal/domain/service/news/service.go:84-102 | A second field slower than its timer fails the entity at exactly that timer, without waiting for the value. |
| SelectTiming.ContextIgnoredAfterFirstStage | internal/domain/service/news/service.go:84-107 | A context done after the first field arrived does not fail the entity. |
| SelectTiming.ContextWinsFirstStage | internal/domain/service/news/service.go:103-106 | A context done before the first value and before the timer cancels the entity at the deadline. |
| SelectTiming.TieIsNondeterministic | internal/domain/service/news/service.go:85-106 | A context already done when the first value is ready allows both outcomes. |
| UserService.FirstWhere | internal/domain/model/user/repository.go:28-61 | The row `First` finds satisfies the condition, and no earlier row in primary-key order does. No row is found iff no row satisfies it. `FindByEmail` and `FindByID` use it with the e-mail and the primary-key conditions. |
| UserService.FindByEmail | internal/domain/model/user/repository.go:28-38 | Gives a row with that e-mail, `user not found` iff none exists, or the database error. |
| UserService.FindByID | internal/domain/model/user/repository.go:40-61 | Gives the row with that id, `user not found` iff none exists, or the database error. |
| UserService.FindAll | internal/domain/model/user/repository.go:63-67 | Gives all rows iff the database answers. |
| UserService.BeforeSave | internal/domain/model/user/model.go:34-43 | A non-empty password is replaced by its hash. An empty one is left alone. No other field changes. |
| UserService.Create | internal/domain/model/user/repository.go:79-92 | Refuses a taken e-mail. Otherwise it appends the row after `BeforeSave` and `BeforeCreate` (both timestamps set to `now`), with the next id. |
| UserServiceFacts.CreateKeepsValid | internal/domain/model/user/repository.go:79-92 | `Create` keeps the table's invariant: ids increase along the rows and stay below the next id, and e-mails are unique (the `uniqueIndex` of `internal/domain/model/user/model.go:17`). |
| UserServiceFacts.UpdateTokenKeepsValid | internal/domain/model/user/repository.go:69-72 | `UpdateToken` keeps the same invariant. |
| UserServiceFacts.FindByIDUnique | internal/domain/model/user/repository.go:40-61 | Under that invariant, the row `FindByID` returns is the only row with that id. |
| UserService.UpdateToken | internal/domain/model/user/repository.go:69-72 | Every row with the id gets the token and an `updated_at` of `now`. The other rows are unchanged. It fails only if the database is unreachable. |
| UserService.KeysDistinct | internal/domain/service/user/service.go:50-101 | `user:id:<id>` and `user:email:<e>` keys never collide, and each identifies its argument. |
| UserService.GenerateAuthResponse | internal/domain/service/user/service.go:76-97 | Signs `{user_id, exp = now + 24h}` and stores the token on the user's row. A signing or database error leaves the state unchanged. The cache is never touched. |
| UserService.GetUserByID | internal/domain/service/user/service.go:99-117 | A hit returns the cached user and changes nothing. A miss asks the repository: a found user is cached under `user:id:<id>`, and an error is returned with only the lazy eviction applied. |
| UserService.Login | internal/domain/service/user/service.go:48-74 | A fresh cached user whose password checks gets a token, and the cache is left alone. On a miss, a repository user whose password checks is cached under `user:email:<email>` and then gets a token. An unknown e-mail or a failed password check gives `invalid credentials`, whether the user came from the cache or the repository. Beyond the lazy eviction, the cache changes only in the successful miss case. |
| UserService.CreateUser | internal/domain/service/user/service.go:222-252 | A known e-mail is refused and nothing is created. A created user is active and verified from `now`, and not deleted. Both its timestamps are `now`. It holds the hashed password and the next id, the table's next id advances, and the user is cached under `user:email:<email>`. |
| UserService.GetAllWithDetails | internal/domain/service/user/service.go:124-212 | A failed listing returns only the error. Otherwise there is one slot per user, filled iff all three stages arrived, and an aggregate error iff some user failed. |
| UserServiceFacts.HitIgnoresRepository | internal/domain/service/user/service.go:101-105 | On a cache hit, any repository gives the same answer, so the repository is not consulted. |
| UserServiceFacts.FailedLookupInvisible | internal/domain/service/user/service.go:109-112 | After a failed lookup, every later read of the cache answers as before. |
| UserServiceFacts.SetEmailKeepsCoherent | internal/domain/service/user/service.go:248-249 | Caching a user under its own e-mail key files no user under another user's key. |
| UserServiceFacts.SetIdKeepsCoherent | internal/domain/service/user/service.go:114-115 | Caching a user under its own id key files no user under another user's key. |
| UserServiceFacts.ServiceKeepsCacheCoherent | internal/domain/service/user/service.go:48-252 | `GetUserByID`, `Login` and `CreateUser` keep every cached user under its own keys. |
| UserServiceFacts.GetUserByIDKeepsCoherent | internal/domain/service/user/service.go:99-117 | `GetUserByID` files a found user only under its own `user:id:<id>` key. |
| UserServiceFacts.LoginKeepsCoherent | internal/domain/service/user/service.go:48-74 | `Login` files a repository user only under its own `user:email:<email>` key. |
| UserServiceFacts.RegisterThenLogin | internal/domain/service/user/service.go:222-252 | A newly registered user logging in with the same password within the TTL is served from the cache, and gets back the created user. |
| UserServiceFacts.DetailErrorsNameFirstMissingField | internal/domain/service/user/service.go:166-188 | A failed user's error names the first of last login, login count and sessions that timed out, or is the context error. |
| NewsService.GetAllNewsWithDetails | internal/domain/service/news/service.go:43-131 | A failed listing returns only the error. Otherwise there is one slot per item, holding the item, comments, likes and `LastUpdated == UpdatedAt` iff all stages arrived. The aggregate error is present iff some item failed. |
| NewsService.ItemSettlesWithinThreeTimers | internal/domain/service/news/service.go:84-107 | With the hard-coded 500 ms timers, each item settles within 1.5 s of its goroutine's start, whatever its fields and the context do. |
| NewsService.DetailErrorsNameFirstMissingField | internal/domain/service/news/service.go:84-107 | A failed item's error names the first of comments, likes and update time that timed out, or is the context error. |
| GoStrings.Split | internal/delivery/Api/middleware.go:38 | `strings.Split` gives at least one piece, and no piece contains the separator. |
| GoStrings.JoinSplit | internal/delivery/Api/middleware.go:38 | Joining the pieces with the separator gives back the header. |
| GoStrings.SplitJoin | internal/delivery/Api/middleware.go:38 | Splitting a join of separator-free pieces gives back the pieces. |
| BearerAuth.CheckClaims | internal/delivery/Api/middleware.go:76-119 | These are refused in this order: missing claims, a missing or non-numeric `user_id`, a missing or non-numeric `exp` (`Invalid expiration time`), and `now > exp`. A failed lookup answers with the lookup's own error. `Next` is reached iff all checks pass and the lookup succeeds. |
| BearerAuth.Validate | internal/delivery/Api/middleware.go:56-68 | `jwt.Parse`'s default validation of `exp` after decoding. A numeric `exp` other than `0` passes iff `now` is strictly before its instant; otherwise the result is `token is expired`. An `exp` of `0` passes as if absent. An `exp` of another type is an error, and a missing `exp` passes. |
| BearerAuth.Authenticate | internal/delivery/Api/middleware.go:27-120 | Refuses an empty header first, a malformed one next, then an empty token. Then a decoding or validation error, then an invalid token. Only after that are the claims checked, against `Unix()` of the same clock. |
| BearerAuth.WellFormedIff | internal/delivery/Api/middleware.go:38-46 | The format check passes iff the header is `Bearer`, one space, and a space-free token. The token is the rest of the header. |
| BearerAuth.SchemeIsCaseSensitive | internal/delivery/Api/middleware.go:38-44 | `bearer t` is refused as badly formatted. |
| BearerAuth.ExtraSpacesRefused | internal/delivery/Api/middleware.go:38-44 | `Bearer  t` and `Bearer t x` are refused as badly formatted. |
| BearerAuth.EmptyTokenRefused | internal/delivery/Api/middleware.go:46-53 | `Bearer ` passes the format check and is refused for its empty token. |
| BearerAuth.ParseOnlyAfterFormat | internal/delivery/Api/middleware.go:31-62 | The token is not decoded unless the header is well formed and the token non-empty. |
| BearerAuth.InvalidBeforeClaims | internal/delivery/Api/middleware.go:56-74 | A token that fails to decode, or decodes as not valid, is refused whatever the clock and the lookup, so before any claim is inspected. |
| BearerAuth.LookupOnlyAfterAllChecks | internal/delivery/Api/middleware.go:106-119 | The lookup matters, and `Next` is reached, only when every earlier check has passed. That includes the library's `now < exp` (for a non-zero `exp`) and the middleware's `Unix() <= exp`. |
| BearerAuth.ExpiryBoundary | internal/delivery/Api/middleware.go:56-68 | A token with a non-zero `exp` is accepted one nanosecond before its `exp` second begins. From that instant on it is refused with the library's `token is expired`. |
| BearerAuth.ExpiredOnlyForZeroExpiry | internal/delivery/Api/middleware.go:93-104 | A request ends with `Token has expired` iff the header, decoding and `user_id` checks pass, the `exp` claim is `0`, and `Unix()` is past `0`. |
| BearerAuth.ZeroExpiry | internal/delivery/Api/middleware.go:93-119 | A token with `exp` `0` gets past `jwt.Parse`. It is refused as `Token has expired` once `Unix() > 0`, and accepted before that. |
| BearerAuth.BeforeExpiry | internal/delivery/Api/middleware.go:100 | The instant is before the start of second `exp` iff its `Unix()` is below `exp`. |
| AuthFlow.IssuedTokenAcceptedUntilExpiry | internal/domain/service/user/service.go:76-97 | A token from a successful login passes the middleware at every instant before second `Unix(now) + 24h` begins. From then on it is refused as expired by the JWT library. |
| Clock.UnixSeconds | internal/domain/service/user/service.go:79 | `Unix()` is the whole second containing the instant. |
| Decimal.Dec | internal/domain/model/seeder/seeders.go:36 | `%d` yields a non-empty string of decimal digits. It has one digit iff the number is below 10. |
| Decimal.ValueOfDec | internal/domain/model/seeder/seeders.go:36 | Reading back the digits `%d` wrote gives the number. |
| Decimal.TaggedInjective | internal/domain/model/seeder/seeders.go:36 | Names from the same `prefix%dsuffix` template are equal iff the numbers are. |
| Seeders.Clamp | internal/domain/model/seeder/seeders.go:102-104 | The result is a prefix of the input of at most `limit` bytes. An input within the limit is unchanged, and a longer one is cut to exactly `limit`. |
| Seeders.ClampIsLongestFittingPrefix | internal/domain/model/seeder/seeders.go:102-104 | The clamp keeps the longest prefix that fits, and clamping again changes nothing. |
| Seeders.UserEmailsDistinct | internal/domain/model/seeder/seeders.go:36 | `user<i+1>@example.com` differs for different indices. |
| Seeders.RoleNamesDistinct | internal/domain/model/seeder/seeders.go:80 | `role<i+1>` differs for different indices. |
| Seeders.ImageNamesDistinct | internal/domain/model/seeder/seeders.go:127 | `image_<i+1>.jpg` differs for different indices. |
| Seeders.DeletedUserEmailsDistinct | internal/domain/model/seeder/seeders.go:167 | `deleted_user_<i+1>@example.com` differs for different indices. |
| Seeders.UploadPathsDistinct | internal/domain/model/seeder/seeders.go:214 | `file_<i+1>.txt` differs for different indices. |
| Seeders.AgeOf | internal/domain/model/seeder/seeders.go:34 | Go's truncating `% 100` gives a value strictly between -100 and 100 with the dividend's sign, congruent to it modulo 100. |
| Seeders.SeedNewsItem | internal/domain/model/seeder/seeders.go:101-141 | Every text field, the image name included, is its generated text clamped to 255 bytes. So each fits its column, and each is unchanged when short enough. |
| Seeders.SeedNews | internal/domain/model/seeder/seeders.go:92-149 | One row per index, and every row fits the 255-byte columns. |
| Seeders.SeededImagesDistinct | internal/domain/model/seeder/seeders.go:127-130 | Seeded image names are pairwise distinct while the number fits the 245 bytes the column leaves beside `image_` and `.jpg`. |
| Seeders.SeedUploadItem | internal/domain/model/seeder/seeders.go:190-215 | Title, description and content are each clamped to 200 bytes (not the 1000 the comment mentions), and unchanged when short enough. The type is `text` and the path is `file_<i+1>.txt`. |
| Seeders.SeedUpload | internal/domain/model/seeder/seeders.go:186-222 | One upload per index, with pairwise distinct paths. |
| Seeders.SeedRoles | internal/domain/model/seeder/seeders.go:73-90 | One role per index, named `role<i+1>`, with pairwise distinct names. |
| Seeders.SeedUserRow | internal/domain/model/seeder/seeders.go:32-41 | A seeded user has e-mail `user<i+1>@example.com`, role `user`, is active and verified, and is not deleted. Its age is the one drawn from the fake birth instant, in (-100, 100). Id, token and refresh token are left zero, and the active and verified instants are the zero time. |
| Seeders.SeedUsersAsWritten | internal/domain/model/seeder/seeders.go:44-52 | As written, the stored password is the hash of the hash of `password123`. Both timestamps are the insert time, and the e-mails are pairwise distinct. |
| Seeders.SeedUsers | internal/domain/model/seeder/seeders.go:18-71 | Corrected, the stored row is the seeded user with the hash of `password123` and the insert time as both timestamps. The e-mails are pairwise distinct. |
| Seeders.SeedUserDeleted | internal/domain/model/seeder/seeders.go:151-184 | Deleted users get ids `1..count` and e-mails `deleted_user_<i+1>@example.com`, all pairwise distinct. They are inactive, unverified, deleted, and have role `deleted_user`. Deletion, active and verified instants are all `now`, and the password is the plain `deleted_user_password`. |
| Seeders.SeededPasswordRejected | internal/domain/model/seeder/seeders.go:44-52 | With a concrete hash, as written, the check rejects `password123` for a seeded user. |
| Seeders.SeededPasswordAccepted | internal/domain/model/seeder/seeders.go:44-52 | Corrected, every seeded user's stored hash accepts `password123`. |

## Left out

- Goroutines, `sync.WaitGroup`, channels and the atomicity of `sync.Map` are replaced by the sequential outcome model. So is the non-atomic replacement of the map in `Clear`: no interleaving is modelled.
- The ticker in `cleanupLoop` is left out. A tick is `TtlCache.Tick`, and when ticks happen is up to the caller.
- TtlCache.New: `time.NewTicker` panics when caching is enabled with a cleanup interval that is not positive (`internal/cache/cache.go:83`). The model starts the loop anyway and does not model the panic.
- GORM soft delete (`DeletedAt` in `internal/domain/model/common/base.go:13`, which `First`, `Find` and `Update` filter on) is not modelled. Nothing in this core deletes a user, so every row stays visible.
- `Stop` is not modelled: closing the stop channel only ends the loop, and a second call panics.
- The `MaxSize` setting is read by nothing in the cache.
- The metrics calls (`RecordCacheHit`, `RecordCacheMiss`) are left out, because the metrics sink is outside this model.
- Logging (`log.Printf`) is left out.
- Aggregate.Errors: lists the errors in entity order. The channel delivers them in completion order, which is not determined. Membership, count and per-entity contribution are what the model states.
- The detail fetchers are stubs that send `time.Now()`, `0`, `0` (users) and `0`, `0`, `UpdatedAt` (news). The model lets all three user fields and the first two news fields carry any value.
- bcrypt and the JWT library are oracles: `hash`, `check`, `sign` and `decode`. Their failures are left out, except through `decode` and `sign` results.
- UserService.FindAll: the unordered `Find` (`internal/domain/model/user/repository.go:63-67`, and the news listing) is modelled as returning the rows in primary-key order. The database may return them in any order. So "slot i holds row i" in `UserService.GetAllWithDetails` and `NewsService.GetAllNewsWithDetails` is stated against that order.
- AuthFlow.IssuedTokenAcceptedUntilExpiry: leaves out a login in the second exactly one day before the epoch. Its token's `exp` is `0`, which the library does not check (`BearerAuth.ZeroExpiry` states what happens then).
- BearerAuth.Validate: covers `exp` only. golang-jwt v5's default `nbf` check is left out, because the tokens the service signs carry no `nbf`.
- BearerAuth.Authenticate: reads one instant for both `jwt.Parse` and `time.Now().Unix()`. In the code the second call comes a moment later.
- BearerAuth.Validate: a token that decodes as not valid is passed on unchanged. golang-jwt v5 in fact never returns an invalid token without an error.
- UserService.FindByEmail: every database failure becomes one `Unavailable` error. The model does not distinguish driver errors.
- BearerAuth.CheckClaims: JSON numbers in the claims are integers, not `float64`. The `uint` conversion of `user_id` is not modelled, so the number is passed to the lookup unchanged.
- The middleware's lookup is an oracle. In the service it is `GetUserByID`, with the cache effects `UserService.GetUserByID` states.
- `TokenValidatorMiddleWare`, `StatusCodeBadRequest` and `NewAuthMiddleWare` are left out. They sit outside the `TokenAuthMiddleware` chain. `TokenValidatorMiddleWare` forwards to an `AuthService`, and the one implementation (`internal/usecase/auth.go`) is a stub that returns no user and no error.
- The pass-through calls `GetAll`, `GetNewsByID`, `CreateNews` and `GetAllNews` go straight to the repository, so they are left out.
- The database inserts of the seeders, and their error logging, are left out. For the news, upload and deleted-user seeders the model gives the rows handed to the insert. For `SeedUsers` it gives the rows as stored, after the `BeforeSave` and `BeforeCreate` hooks.
- The concurrent creation in `SeedUsers` is left out.
- The rows of `SeedUserDeleted` are taken before the insert hooks run.
- `SeedUpload` sets an `Author` field (`seeders.go:211`) that `upload.Upload` does not declare (`internal/domain/model/upload/upload.go:8-16`), so that line does not compile. The model follows the table's declared columns and has no author.
- Seeders.SeedNewsItem: a clamp can cut a multi-byte UTF-8 character in half, as Go's byte slicing does. The model does not say whether the result is valid UTF-8.
- Configuration loading (`internal/config/config.go`) is left out. The cache's `Config` and the user detail timeout are inputs.
- The GORM repositories beyond the users table, the database connection, migrations, the HTTP router and the entry points are left out.
- The router reads a bad news id without returning after the 400 answer (`internal/delivery/http/router/router.go:163-165`). It is outside this model.

## Findings

| source | as written | input that shows it | evidently intended | confidence | as-written member | corrected member |
|---|---|---|---|---|---|---|
| internal/domain/model/seeder/seeders.go:44-52 | `SeedUsers` stores `HashPassword("password123")` in the user, and the `BeforeSave` hook (`internal/domain/model/user/model.go:34-43`) hashes that hash again on insert. | Any seeded user, e.g. `user1@example.com`, logging in with `password123`. The check compares against the hash of the hash and fails. | The stored password is the single hash of `password123`, as for users created through `CreateUser`. | not executed; medium (relies on GORM running `BeforeSave` on `Create`) | Seeders.SeedUsersAsWritten | Seeders.SeedUsers |
