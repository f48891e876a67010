/** The seed-data builders: byte-length clamps on generated text and
    index-derived unique names. Go strings are byte sequences and `len`
    counts bytes, so a clamp is a prefix of at most `limit` elements. The
    random text comes from an oracle (`faker`), passed in as values. */
module Seeders {
  import opened Clock
  import Decimal
  import UserService
  import NewsService

  /** `if len(s) > limit { s = s[:limit] }`. */
  function Clamp<T>(s: seq<T>, limit: nat): (r: seq<T>)
    ensures |r| <= limit
    ensures r <= s
    ensures |s| <= limit ==> r == s
    ensures |s| > limit ==> |r| == limit
  {
    if |s| > limit then s[..limit] else s
  }

  /** A clamp keeps the longest prefix that fits, and clamping twice changes nothing. */
  lemma ClampIsLongestFittingPrefix<T>(s: seq<T>, limit: nat, n: nat)
    requires n <= |s| && n <= limit
    ensures n <= |Clamp(s, limit)|
    ensures Clamp(Clamp(s, limit), limit) == Clamp(s, limit)
  {
  }

  /** The column limit of every seeded news text field. */
  const NewsFieldLimit := 255
  /** The limit applied to every seeded upload text field (the comment on
      the content clamp speaks of 1000, the code uses 200). */
  const UploadFieldLimit := 200

  // ---------------------------------------------------------------------
  // Index-derived names: `fmt.Sprintf` with `i+1`
  // ---------------------------------------------------------------------

  function UserEmail(i: nat): string { Decimal.Tagged("user", i + 1, "@example.com") }
  function RoleName(i: nat): string { Decimal.Tagged("role", i + 1, "") }
  function ImageName(i: nat): string { Decimal.Tagged("image_", i + 1, ".jpg") }
  function DeletedUserEmail(i: nat): string { Decimal.Tagged("deleted_user_", i + 1, "@example.com") }
  function UploadPath(i: nat): string { Decimal.Tagged("file_", i + 1, ".txt") }

  /** Seeded user e-mails identify their index. */
  lemma UserEmailsDistinct(i: nat, j: nat)
    ensures UserEmail(i) == UserEmail(j) <==> i == j
  {
    Decimal.TaggedInjective("user", i + 1, j + 1, "@example.com");
  }

  /** Seeded role names identify their index. */
  lemma RoleNamesDistinct(i: nat, j: nat)
    ensures RoleName(i) == RoleName(j) <==> i == j
  {
    Decimal.TaggedInjective("role", i + 1, j + 1, "");
  }

  /** Seeded image names identify their index. */
  lemma ImageNamesDistinct(i: nat, j: nat)
    ensures ImageName(i) == ImageName(j) <==> i == j
  {
    Decimal.TaggedInjective("image_", i + 1, j + 1, ".jpg");
  }

  /** Seeded deleted-user e-mails identify their index. */
  lemma DeletedUserEmailsDistinct(i: nat, j: nat)
    ensures DeletedUserEmail(i) == DeletedUserEmail(j) <==> i == j
  {
    Decimal.TaggedInjective("deleted_user_", i + 1, j + 1, "@example.com");
  }

  /** Seeded upload paths identify their index. */
  lemma UploadPathsDistinct(i: nat, j: nat)
    ensures UploadPath(i) == UploadPath(j) <==> i == j
  {
    Decimal.TaggedInjective("file_", i + 1, j + 1, ".txt");
  }

  /** `int(faker.RandomUnixTime() % 100)`: Go's `%` truncates towards zero,
      so the remainder takes the sign of the dividend. */
  function AgeOf(unixTime: int): (age: int)
    ensures -100 < age < 100
    ensures (unixTime - age) % 100 == 0
    ensures unixTime >= 0 ==> 0 <= age
    ensures unixTime < 0 ==> age <= 0
  {
    if unixTime >= 0 then unixTime % 100 else -((-unixTime) % 100)
  }

  // ---------------------------------------------------------------------
  // News
  // ---------------------------------------------------------------------

  /** The random text drawn for one news item. */
  datatype NewsFake = NewsFake(title: string, description: string, content: string, author: string, category: string)

  /** Whether every text field of a news row fits the 255-byte columns. */
  predicate NewsFits(n: NewsService.News)
  {
    && |n.title| <= NewsFieldLimit && |n.description| <= NewsFieldLimit && |n.content| <= NewsFieldLimit
    && |n.author| <= NewsFieldLimit && |n.category| <= NewsFieldLimit && |n.image| <= NewsFieldLimit
  }

  /** Item `i` of `SeedNews`: every text field clamped to 255 bytes. */
  function SeedNewsItem(i: nat, fake: NewsFake, now: Instant): (n: NewsService.News)
    ensures NewsFits(n)
    ensures n.title == Clamp(fake.title, NewsFieldLimit) && n.description == Clamp(fake.description, NewsFieldLimit)
    ensures n.content == Clamp(fake.content, NewsFieldLimit) && n.author == Clamp(fake.author, NewsFieldLimit)
    ensures n.category == Clamp(fake.category, NewsFieldLimit) && n.image == Clamp(ImageName(i), NewsFieldLimit)
    ensures |fake.title| <= NewsFieldLimit ==> n.title == fake.title
    ensures |fake.description| <= NewsFieldLimit ==> n.description == fake.description
    ensures |fake.content| <= NewsFieldLimit ==> n.content == fake.content
    ensures |fake.author| <= NewsFieldLimit ==> n.author == fake.author
    ensures |fake.category| <= NewsFieldLimit ==> n.category == fake.category
    ensures |ImageName(i)| <= NewsFieldLimit ==> n.image == ImageName(i)
    ensures n.createdAt == now && n.updatedAt == now
  {
    NewsService.News(0,
      Clamp(fake.title, NewsFieldLimit), Clamp(fake.description, NewsFieldLimit),
      Clamp(fake.content, NewsFieldLimit), Clamp(fake.author, NewsFieldLimit),
      Clamp(fake.category, NewsFieldLimit), Clamp(ImageName(i), NewsFieldLimit), now, now)
  }

  /** `SeedNews(count)`: the rows handed to the database. */
  function SeedNews(count: nat, fakes: nat -> NewsFake, now: Instant): (rows: seq<NewsService.News>)
    ensures |rows| == count
    ensures forall i :: 0 <= i < count ==> rows[i] == SeedNewsItem(i, fakes(i), now)
    ensures forall i :: 0 <= i < count ==> NewsFits(rows[i])
  {
    seq(count, i requires 0 <= i < count => SeedNewsItem(i, fakes(i), now))
  }

  /** Image names stay unclamped, and hence distinct, while the number fits
      in the 245 bytes the column leaves beside `image_` and `.jpg`. */
  lemma SeededImagesDistinct(count: nat, fakes: nat -> NewsFake, now: Instant, i: nat, j: nat)
    requires i < j < count
    requires |Decimal.Dec(j + 1)| <= 245 && |Decimal.Dec(i + 1)| <= 245
    ensures SeedNews(count, fakes, now)[i].image != SeedNews(count, fakes, now)[j].image
  {
    ImageNamesDistinct(i, j);
  }

  // ---------------------------------------------------------------------
  // Uploads
  // ---------------------------------------------------------------------

  /** An upload row (`upload.Upload`): the columns the table declares. */
  datatype Upload = Upload(title: string, content: string, description: string, kind: string, path: string)

  /** The random text drawn for one upload. */
  datatype UploadFake = UploadFake(title: string, description: string, content: string)

  /** Item `i` of `SeedUpload`: title, description and content clamped to 200 bytes. */
  function SeedUploadItem(i: nat, fake: UploadFake): (u: Upload)
    ensures |u.title| <= UploadFieldLimit && |u.description| <= UploadFieldLimit && |u.content| <= UploadFieldLimit
    ensures u.title == Clamp(fake.title, UploadFieldLimit) && u.description == Clamp(fake.description, UploadFieldLimit)
    ensures u.content == Clamp(fake.content, UploadFieldLimit)
    ensures |fake.title| <= UploadFieldLimit ==> u.title == fake.title
    ensures |fake.description| <= UploadFieldLimit ==> u.description == fake.description
    ensures |fake.content| <= UploadFieldLimit ==> u.content == fake.content
    ensures u.kind == "text" && u.path == UploadPath(i)
  {
    Upload(Clamp(fake.title, UploadFieldLimit), Clamp(fake.content, UploadFieldLimit),
           Clamp(fake.description, UploadFieldLimit), "text", UploadPath(i))
  }

  /** `SeedUpload(count)`: the rows handed to the database, with distinct paths. */
  function SeedUpload(count: nat, fakes: nat -> UploadFake): (rows: seq<Upload>)
    ensures |rows| == count
    ensures forall i :: 0 <= i < count ==> rows[i] == SeedUploadItem(i, fakes(i))
    ensures forall i, j :: 0 <= i < j < count ==> rows[i].path != rows[j].path
  {
    var rows := seq(count, i requires 0 <= i < count => SeedUploadItem(i, fakes(i)));
    assert forall i, j :: 0 <= i < j < count ==> rows[i].path != rows[j].path by {
      forall i, j | 0 <= i < j < count ensures rows[i].path != rows[j].path {
        assert rows[i] == SeedUploadItem(i, fakes(i)) && rows[j] == SeedUploadItem(j, fakes(j));
        UploadPathsDistinct(i, j);
      }
    }
    rows
  }

  // ---------------------------------------------------------------------
  // Roles
  // ---------------------------------------------------------------------

  /** A role row (`role.Role`). */
  datatype Role = Role(roleName: string, description: string)

  /** `SeedRoles(count)`: roles `role1`, `role2`, ... with pairwise distinct names. */
  function SeedRoles(count: nat, descriptions: nat -> string): (rows: seq<Role>)
    ensures |rows| == count
    ensures forall i :: 0 <= i < count ==> rows[i] == Role(RoleName(i), descriptions(i))
    ensures forall i, j :: 0 <= i < j < count ==> rows[i].roleName != rows[j].roleName
  {
    var rows := seq(count, i requires 0 <= i < count => Role(RoleName(i), descriptions(i)));
    assert forall i, j :: 0 <= i < j < count ==> rows[i].roleName != rows[j].roleName by {
      forall i, j | 0 <= i < j < count ensures rows[i].roleName != rows[j].roleName {
        RoleNamesDistinct(i, j);
      }
    }
    rows
  }

  // ---------------------------------------------------------------------
  // Users and deleted users
  // ---------------------------------------------------------------------

  /** The random values drawn for one user: a name, a Unix time for the age, a city word. */
  datatype UserFake = UserFake(name: string, unixTime: int, city: string)

  /** The password every seeded user is meant to log in with. */
  const SeedPassword := "password123"

  /** The user of `SeedUsers` before the database insert: `userN@example.com`,
      role `user`, active, verified, with the given password. */
  function SeedUserRow(i: nat, fake: UserFake, password: string): (u: UserService.User)
    ensures u.email == UserEmail(i) && u.role == "user"
    ensures u.isActive && u.isVerified && !u.isDeleted
    ensures u.password == password && u.name == fake.name && u.city == fake.city
    ensures -100 < u.age < 100 && u.age == AgeOf(fake.unixTime)
    ensures u.id == 0 && u.token == "" && u.refreshToken == ""
    ensures u.isActiveAt == ZeroTime && u.isVerifiedAt == ZeroTime
  {
    UserService.User(0, fake.name, AgeOf(fake.unixTime), fake.city, password, UserEmail(i), "", "", "user",
                     true, ZeroTime, true, ZeroTime, false, ZeroTime, ZeroTime)
  }

  /** The rows `SeedUsers` stores, as written: the password is hashed by the
      seeder and then, on insert, once more by the `BeforeSave` hook;
      `BeforeCreate` stamps both timestamps. */
  function SeedUsersAsWritten(count: nat, fakes: nat -> UserFake, now: Instant, hash: string -> string): (rows: seq<UserService.User>)
    ensures |rows| == count
    ensures hash(SeedPassword) != "" ==> forall i :: 0 <= i < count ==> rows[i].password == hash(hash(SeedPassword))
    ensures forall i :: 0 <= i < count ==> rows[i].createdAt == now && rows[i].updatedAt == now
    ensures forall i, j :: 0 <= i < j < count ==> rows[i].email != rows[j].email
  {
    var rows := seq(count, i requires 0 <= i < count =>
      UserService.BeforeCreate(UserService.BeforeSave(SeedUserRow(i, fakes(i), hash(SeedPassword)), hash), now));
    assert forall i :: 0 <= i < count ==>
      rows[i] == UserService.BeforeCreate(UserService.BeforeSave(SeedUserRow(i, fakes(i), hash(SeedPassword)), hash), now);
    assert forall i, j :: 0 <= i < j < count ==> rows[i].email != rows[j].email by {
      forall i, j | 0 <= i < j < count ensures rows[i].email != rows[j].email {
        UserEmailsDistinct(i, j);
      }
    }
    rows
  }

  /** The rows `SeedUsers` stores, corrected: the plain password is handed to
      the insert and hashed once, by the hook, as `CreateUser` does. */
  function SeedUsers(count: nat, fakes: nat -> UserFake, now: Instant, hash: string -> string): (rows: seq<UserService.User>)
    ensures |rows| == count
    ensures forall i :: 0 <= i < count ==> rows[i].password == hash(SeedPassword)
    ensures forall i :: 0 <= i < count ==> rows[i] == SeedUserRow(i, fakes(i), hash(SeedPassword)).(createdAt := now, updatedAt := now)
    ensures forall i, j :: 0 <= i < j < count ==> rows[i].email != rows[j].email
  {
    var rows := seq(count, i requires 0 <= i < count =>
      UserService.BeforeCreate(UserService.BeforeSave(SeedUserRow(i, fakes(i), SeedPassword), hash), now));
    assert forall i :: 0 <= i < count ==>
      rows[i] == UserService.BeforeCreate(UserService.BeforeSave(SeedUserRow(i, fakes(i), SeedPassword), hash), now);
    assert forall i, j :: 0 <= i < j < count ==> rows[i].email != rows[j].email by {
      forall i, j | 0 <= i < j < count ensures rows[i].email != rows[j].email {
        UserEmailsDistinct(i, j);
      }
    }
    rows
  }

  /** A deleted-user row (`user_deleted.UserDeleted`). */
  datatype UserDeleted = UserDeleted(userId: nat, deletedAt: Instant, user: UserService.User)

  /** `SeedUserDeleted(count)`, the rows handed to the insert: user ids `1..count`, e-mails
      `deleted_user_N@example.com`, inactive, unverified and deleted. */
  function SeedUserDeleted(count: nat, fakes: nat -> UserFake, now: Instant): (rows: seq<UserDeleted>)
    ensures |rows| == count
    ensures forall i :: 0 <= i < count ==> rows[i].userId == i + 1 && rows[i].user.email == DeletedUserEmail(i)
    ensures forall i :: 0 <= i < count ==>
      !rows[i].user.isActive && !rows[i].user.isVerified && rows[i].user.isDeleted && rows[i].user.role == "deleted_user"
    ensures forall i :: 0 <= i < count ==>
      rows[i].deletedAt == now && rows[i].user.isActiveAt == now && rows[i].user.isVerifiedAt == now
      && rows[i].user.password == "deleted_user_password"
    ensures forall i, j :: 0 <= i < j < count ==> rows[i].userId != rows[j].userId && rows[i].user.email != rows[j].user.email
  {
    var rows := seq(count, i requires 0 <= i < count =>
      UserDeleted(i + 1, now,
        UserService.User(0, fakes(i).name, AgeOf(fakes(i).unixTime), fakes(i).city, "deleted_user_password",
                         DeletedUserEmail(i), "", "", "deleted_user", false, now, false, now, true, ZeroTime, ZeroTime)));
    assert forall i, j :: 0 <= i < j < count ==> rows[i].user.email != rows[j].user.email by {
      forall i, j | 0 <= i < j < count ensures rows[i].user.email != rows[j].user.email {
        DeletedUserEmailsDistinct(i, j);
      }
    }
    rows
  }

  // ---------------------------------------------------------------------
  // The double hash, shown on a concrete hash function
  // ---------------------------------------------------------------------

  /** A stand-in for bcrypt: a fixed prefix before the password. */
  function ToyHash(p: string): string { "$2a$10$" + p }

  /** The matching comparison: `h` is the hash of `p`. */
  function ToyCheck(p: string, h: string): bool { h == ToyHash(p) }

  /** As written, a seeded user cannot log in with `password123`: the check
      compares against the hash of the hash. */
  lemma SeededPasswordRejected(fakes: nat -> UserFake, now: Instant)
    ensures !ToyCheck(SeedPassword, SeedUsersAsWritten(1, fakes, now, ToyHash)[0].password)
  {
    var stored := SeedUsersAsWritten(1, fakes, now, ToyHash)[0].password;
    assert stored == ToyHash(ToyHash(SeedPassword));
    assert |stored| != |ToyHash(SeedPassword)|;
  }

  /** Corrected, every seeded user's stored hash accepts `password123`, for
      any hash whose comparison accepts what it hashed. */
  lemma SeededPasswordAccepted(count: nat, fakes: nat -> UserFake, now: Instant, hash: string -> string,
                               check: (string, string) -> bool, i: nat)
    requires forall p :: check(p, hash(p))
    requires i < count
    ensures check(SeedPassword, SeedUsers(count, fakes, now, hash)[i].password)
  {
  }
}
