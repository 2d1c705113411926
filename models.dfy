/**
 * The persistent entities of the blog and the user manager that creates
 * accounts. Users live in a `UserStore`, whose `users` sequence stands for the
 * user table: a user's primary key is its position in that sequence.
 */
module Models {
  import opened Results
  import opened EmailAddresses

  type UserId = nat
  type CategoryId = nat
  type ArticleId = nat

  // --- Credentials ---------------------------------------------------------

  /**
   * A password hash. Hashing is modelled as an injective function: the
   * digest determines the password it was made from, and nothing else about
   * it is used than comparison.
   */
  datatype Digest = Digest(secret: string)

  function Hash(raw: string): Digest {
    Digest(raw)
  }

  /** The stored password column: a digest, or the marker of an unusable password. */
  datatype Credential = Usable(digest: Digest) | Unusable

  /** `set_password`: no password at all leaves the account without a usable one. */
  function SetPassword(raw: Option<string>): (c: Credential)
    ensures c.Usable? <==> raw.Some?
  {
    match raw
    case None => Unusable
    case Some(p) => Usable(Hash(p))
  }

  /** `check_password`: an unusable password matches nothing. */
  function CheckPassword(c: Credential, attempt: string): bool {
    c.Usable? && c.digest == Hash(attempt)
  }

  /** After `set_password(p)`, exactly `p` checks; after `set_password(None)`, nothing does. */
  lemma CheckPasswordAfterSet(raw: Option<string>, attempt: string)
    ensures CheckPassword(SetPassword(raw), attempt) <==> raw == Some(attempt)
  {
  }

  // --- Users ---------------------------------------------------------------

  datatype User = User(
    email: string,
    name: string,
    password: Credential,
    isActive: bool,
    isStaff: bool,
    isAuthor: bool,
    isSuperuser: bool)

  /** A user as `self.model(email=..., name=...)` builds it: every flag at its column default. */
  function NewUser(email: string, name: string, password: Credential): User {
    User(email, name, password, isActive := true, isStaff := false, isAuthor := false, isSuperuser := false)
  }

  datatype ManagerError =
    | MissingEmail    // the ValueError raised for an empty or missing address
    | DuplicateEmail  // the unique constraint on the email column

  /** The position of the user with exactly this email, if any. */
  function IndexOfEmail(users: seq<User>, email: string): (r: Option<UserId>)
    ensures r.Some? ==> r.value < |users| && users[r.value].email == email
    ensures r.None? <==> forall i :: 0 <= i < |users| ==> users[i].email != email
  {
    if |users| == 0 then None
    else if users[0].email == email then Some(0)
    else match IndexOfEmail(users[1..], email)
      case None =>
        assert forall i :: 1 <= i < |users| ==> users[i] == users[1..][i - 1];
        None
      case Some(i) => Some(i + 1)
  }

  predicate UniqueEmails(users: seq<User>) {
    forall i, j :: 0 <= i < j < |users| ==> users[i].email != users[j].email
  }

  /** What every state of the user table satisfies: unique, present, normalised addresses. */
  predicate WellFormedUsers(users: seq<User>) {
    && UniqueEmails(users)
    && forall i :: 0 <= i < |users| ==> users[i].email != "" && IsNormalized(users[i].email)
  }

  /** With unique addresses, looking a stored address up finds that very user. */
  lemma IndexOfEmailFinds(users: seq<User>, i: nat)
    requires UniqueEmails(users) && i < |users|
    ensures IndexOfEmail(users, users[i].email) == Some(i)
  {
  }

  /** The user table together with `UserManager`, which adds rows to it. */
  class UserStore {
    var users: seq<User>

    ghost predicate Valid()
      reads this
    {
      WellFormedUsers(users)
    }

    constructor ()
      ensures Valid() && users == []
    {
      users := [];
    }

    /** `create_user`: reject a missing address, normalise it, hash the password, save. */
    method CreateUser(email: Option<string>, password: Option<string>, name: string)
      returns (r: Result<UserId, ManagerError>)
      requires Valid()
      modifies this
      ensures Valid()
      ensures r == Err(MissingEmail) <==> email.None? || email.value == ""
      ensures r == Err(DuplicateEmail) <==>
        email.Some? && email.value != "" && IndexOfEmail(old(users), NormalizeEmail(email.value)).Some?
      ensures r.Ok? <==>
        email.Some? && email.value != "" && IndexOfEmail(old(users), NormalizeEmail(email.value)).None?
      ensures r.Err? ==> users == old(users)
      ensures r.Ok? ==>
                && email.Some? && r.value == |old(users)|
                && users == old(users) + [NewUser(NormalizeEmail(email.value), name, SetPassword(password))]
    {
      if email.None? || email.value == "" {
        return Err(MissingEmail);
      }
      var user := NewUser(NormalizeEmail(email.value), name, SetPassword(password));
      if IndexOfEmail(users, user.email).Some? {
        return Err(DuplicateEmail);
      }
      NormalizeIdempotent(email.value);
      users := users + [user];
      r := Ok(|users| - 1);
    }

    /** `create_superuser`: a plain user whose superuser, staff and author flags are then set. */
    method CreateSuperuser(email: Option<string>, password: Option<string>)
      returns (r: Result<UserId, ManagerError>)
      requires Valid()
      modifies this
      ensures Valid()
      ensures r == Err(MissingEmail) <==> email.None? || email.value == ""
      ensures r == Err(DuplicateEmail) <==>
        email.Some? && email.value != "" && IndexOfEmail(old(users), NormalizeEmail(email.value)).Some?
      ensures r.Ok? <==>
        email.Some? && email.value != "" && IndexOfEmail(old(users), NormalizeEmail(email.value)).None?
      ensures r.Err? ==> users == old(users)
      ensures r.Ok? ==>
                && email.Some? && r.value == |old(users)|
                && users == old(users) + [User(NormalizeEmail(email.value), "", SetPassword(password),
                                               isActive := true, isStaff := true, isAuthor := true, isSuperuser := true)]
    {
      r := CreateUser(email, password, "");
      if r.Ok? {
        var id := r.value;
        users := users[id := users[id].(isSuperuser := true, isStaff := true, isAuthor := true)];
      }
    }

    /** `create_author_user`: a plain user whose author flag is then set; nothing else changes. */
    method CreateAuthorUser(email: Option<string>, password: Option<string>, name: string)
      returns (r: Result<UserId, ManagerError>)
      requires Valid()
      modifies this
      ensures Valid()
      ensures r == Err(MissingEmail) <==> email.None? || email.value == ""
      ensures r == Err(DuplicateEmail) <==>
        email.Some? && email.value != "" && IndexOfEmail(old(users), NormalizeEmail(email.value)).Some?
      ensures r.Ok? <==>
        email.Some? && email.value != "" && IndexOfEmail(old(users), NormalizeEmail(email.value)).None?
      ensures r.Err? ==> users == old(users)
      ensures r.Ok? ==>
                && email.Some? && r.value == |old(users)|
                && users == old(users) + [NewUser(NormalizeEmail(email.value), name, SetPassword(password)).(isAuthor := true)]
    {
      r := CreateUser(email, password, name);
      if r.Ok? {
        var id := r.value;
        users := users[id := users[id].(isAuthor := true)];
      }
    }
  }

  /** The superuser test: a fresh table, one `create_superuser` call, all three flags set. */
  method SuperuserScenario() returns (u: User)
    ensures u.email == "test@gmail.com"
    ensures u.isSuperuser && u.isStaff && u.isAuthor && u.isActive
    ensures CheckPassword(u.password, "testpass")
  {
    var store := new UserStore();
    LowercaseExampleUnchanged();
    var r := store.CreateSuperuser(Some("test@gmail.com"), Some("testpass"));
    u := store.users[r.value];
  }

  /** The missing-address test: `create_user(None, ...)` raises and the table stays empty. */
  method MissingEmailScenario() returns (r: Result<UserId, ManagerError>, count: nat)
    ensures r == Err(MissingEmail) && count == 0
  {
    var store := new UserStore();
    r := store.CreateUser(None, Some("testpass"), "");
    count := |store.users|;
  }

  // --- Categories and articles -----------------------------------------------

  datatype Category = Category(id: CategoryId, title: string, slug: string, author: UserId)

  datatype Article = Article(
    id: ArticleId,
    title: string,
    description: string,
    slug: string,
    owner: UserId,
    categories: set<CategoryId>)

  /** A violated unique column, named by the column. */
  datatype IntegrityError = UniqueViolation(column: string)

  /** Primary key, title and slug are each unique across the category table. */
  predicate UniqueCategories(cs: seq<Category>) {
    forall i, j :: 0 <= i < j < |cs| ==> cs[i].id != cs[j].id && cs[i].title != cs[j].title && cs[i].slug != cs[j].slug
  }

  /** Primary key and slug are each unique across the article table. */
  predicate UniqueArticles(arts: seq<Article>) {
    forall i, j :: 0 <= i < j < |arts| ==> arts[i].id != arts[j].id && arts[i].slug != arts[j].slug
  }

  /** Inserting a category row, as the unique constraints on `Category` allow it. */
  function SaveCategory(cs: seq<Category>, c: Category): (r: Result<seq<Category>, IntegrityError>)
    ensures r.Ok? <==> forall i :: 0 <= i < |cs| ==> cs[i].id != c.id && cs[i].title != c.title && cs[i].slug != c.slug
    ensures r.Ok? ==> r.value == cs + [c]
    ensures UniqueCategories(cs) && r.Ok? ==> UniqueCategories(r.value)
  {
    if exists i | 0 <= i < |cs| :: cs[i].id == c.id then Err(UniqueViolation("id"))
    else if exists i | 0 <= i < |cs| :: cs[i].title == c.title then Err(UniqueViolation("title"))
    else if exists i | 0 <= i < |cs| :: cs[i].slug == c.slug then Err(UniqueViolation("slug"))
    else Ok(cs + [c])
  }

  /** Inserting an article row, as the unique constraints on `Article` allow it. */
  function SaveArticle(arts: seq<Article>, a: Article): (r: Result<seq<Article>, IntegrityError>)
    ensures r.Ok? <==> forall i :: 0 <= i < |arts| ==> arts[i].id != a.id && arts[i].slug != a.slug
    ensures r.Ok? ==> r.value == arts + [a]
    ensures UniqueArticles(arts) && r.Ok? ==> UniqueArticles(r.value)
  {
    if exists i | 0 <= i < |arts| :: arts[i].id == a.id then Err(UniqueViolation("id"))
    else if exists i | 0 <= i < |arts| :: arts[i].slug == a.slug then Err(UniqueViolation("slug"))
    else Ok(arts + [a])
  }
}
