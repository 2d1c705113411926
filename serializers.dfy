/**
 * The account endpoints: registration of plain users and of authors, and
 * the credential check behind token issuance. Payloads are the submitted
 * form fields; a field that was not submitted is absent from the map.
 */
module UserSerializers {
  import opened Results
  import opened EmailAddresses
  import opened Models

  /** The `min_length` given to the password field. */
  const MinPasswordLength := 8
  /** `max_length` of the email and name columns. */
  const MaxEmailLength := 255
  const MaxNameLength := 255

  /** The fields the user serializer declares, and those it never writes back. */
  const RegistrationFields: seq<string> := ["email", "password", "name"]
  const WriteOnlyFields: set<string> := {"password"}

  datatype FieldError = Required | Blank | TooLong | TooShort | NotUnique

  datatype RegistrationError =
    | Invalid(field: string, reason: FieldError)  // a field failed validation: nothing is saved
    | Rejected(cause: ManagerError)               // the user manager refused the validated data

  /** The validated data handed to `create`. */
  datatype Registration = Registration(email: string, password: string, name: string)

  /** A required text field that may not be blank. */
  function RequiredText(payload: map<string, string>, field: string): (r: Result<string, FieldError>)
    ensures r.Ok? <==> field in payload && payload[field] != ""
    ensures r.Ok? ==> r.value == payload[field]
    ensures field !in payload ==> r == Err(Required)
  {
    if field !in payload then Err(Required)
    else if payload[field] == "" then Err(Blank)
    else Ok(payload[field])
  }

  /**
   * `is_valid()` of the user serializer, field by field in declaration order.
   * The uniqueness check compares the address exactly as submitted.
   */
  function ValidateRegistration(users: seq<User>, payload: map<string, string>): (r: Result<Registration, RegistrationError>)
    ensures r.Ok? ==>
              && "email" in payload && "password" in payload && "name" in payload
              && r.value == Registration(payload["email"], payload["password"], payload["name"])
              && r.value.email != "" && |r.value.email| <= MaxEmailLength
              && IndexOfEmail(users, r.value.email).None?
              && |r.value.password| >= MinPasswordLength
              && r.value.name != "" && |r.value.name| <= MaxNameLength
    ensures "password" in payload && |payload["password"]| < MinPasswordLength ==> r.Err?
    ensures "email" in payload && IndexOfEmail(users, payload["email"]).Some? ==> r.Err?
    ensures && "email" in payload && "password" in payload && "name" in payload
            && payload["email"] != "" && |payload["email"]| <= MaxEmailLength
            && IndexOfEmail(users, payload["email"]).None?
            && |payload["password"]| >= MinPasswordLength
            && payload["name"] != "" && |payload["name"]| <= MaxNameLength
            ==> r.Ok?
  {
    var email := RequiredText(payload, "email");
    var password := RequiredText(payload, "password");
    var name := RequiredText(payload, "name");
    if email.Err? then Err(Invalid("email", email.error))
    else if |email.value| > MaxEmailLength then Err(Invalid("email", TooLong))
    else if IndexOfEmail(users, email.value).Some? then Err(Invalid("email", NotUnique))
    else if password.Err? then Err(Invalid("password", password.error))
    else if |password.value| < MinPasswordLength then Err(Invalid("password", TooShort))
    else if name.Err? then Err(Invalid("name", name.error))
    else if |name.value| > MaxNameLength then Err(Invalid("name", TooLong))
    else Ok(Registration(email.value, password.value, name.value))
  }

  /** The value of a readable field of a user. */
  function ReadableField(u: User, field: string): string {
    if field == "email" then u.email else u.name
  }

  /** The response body after registration: every declared field except the write-only ones. */
  function Represent(u: User): (out: map<string, string>)
    ensures "password" !in out
    ensures out.Keys == {"email", "name"}
    ensures out["email"] == u.email && out["name"] == u.name
  {
    map f | f in RegistrationFields && f !in WriteOnlyFields :: ReadableField(u, f)
  }

  /**
   * The uniqueness check sees the address as submitted, the table holds it
   * normalised: a domain-case variant of a stored address passes validation
   * and is refused only when the user manager saves it.
   */
  lemma DomainCaseDuplicatePassesValidation(stored: User)
    requires stored.email == "test@gmail.com"
    ensures ValidateRegistration([stored], map["email" := "test@GMAIL.COM", "password" := "testpass", "name" := "n"]).Ok?
    ensures IndexOfEmail([stored], NormalizeEmail("test@GMAIL.COM")) == Some(0)
  {
    NormalizeExample();
    var payload := map["email" := "test@GMAIL.COM", "password" := "testpass", "name" := "n"];
    assert payload["email"] != stored.email by {
      assert "test@GMAIL.COM"[5] != "test@gmail.com"[5];
    }
    assert IndexOfEmail([stored], payload["email"]).None?;
    assert |payload["password"]| >= MinPasswordLength;
  }

  /** `UserSerializer`: validate, then `create` through `create_user`, then the representation. */
  method RegisterUser(store: UserStore, payload: map<string, string>)
    returns (r: Result<map<string, string>, RegistrationError>)
    requires store.Valid()
    modifies store
    ensures store.Valid()
    ensures r.Err? ==> store.users == old(store.users)
    ensures ValidateRegistration(old(store.users), payload).Err? ==>
              r == Err(ValidateRegistration(old(store.users), payload).error)
    ensures ValidateRegistration(old(store.users), payload).Ok? && r.Err? ==> r == Err(Rejected(DuplicateEmail))
    ensures r.Ok? <==>
              && ValidateRegistration(old(store.users), payload).Ok?
              && IndexOfEmail(old(store.users), NormalizeEmail(payload["email"])).None?
    ensures r.Ok? ==>
              var d := ValidateRegistration(old(store.users), payload).value;
              var u := NewUser(NormalizeEmail(d.email), d.name, SetPassword(Some(d.password)));
              && store.users == old(store.users) + [u]
              && r.value == Represent(u)
              && CheckPassword(u.password, payload["password"])
  {
    var validated := ValidateRegistration(store.users, payload);
    if validated.Err? {
      return Err(validated.error);
    }
    var d := validated.value;
    var created := store.CreateUser(Some(d.email), Some(d.password), d.name);
    if created.Err? {
      return Err(Rejected(created.error));
    }
    r := Ok(Represent(store.users[created.value]));
  }

  /** `AuthorSerializer`: the same validation, then `create` through `create_author_user`. */
  method RegisterAuthor(store: UserStore, payload: map<string, string>)
    returns (r: Result<map<string, string>, RegistrationError>)
    requires store.Valid()
    modifies store
    ensures store.Valid()
    ensures r.Err? ==> store.users == old(store.users)
    ensures ValidateRegistration(old(store.users), payload).Err? ==>
              r == Err(ValidateRegistration(old(store.users), payload).error)
    ensures ValidateRegistration(old(store.users), payload).Ok? && r.Err? ==> r == Err(Rejected(DuplicateEmail))
    ensures r.Ok? <==>
              && ValidateRegistration(old(store.users), payload).Ok?
              && IndexOfEmail(old(store.users), NormalizeEmail(payload["email"])).None?
    ensures r.Ok? ==>
              var d := ValidateRegistration(old(store.users), payload).value;
              var u := NewUser(NormalizeEmail(d.email), d.name, SetPassword(Some(d.password))).(isAuthor := true);
              && store.users == old(store.users) + [u]
              && r.value == Represent(u)
              && CheckPassword(u.password, payload["password"])
  {
    var validated := ValidateRegistration(store.users, payload);
    if validated.Err? {
      return Err(validated.error);
    }
    var d := validated.value;
    var created := store.CreateAuthorUser(Some(d.email), Some(d.password), d.name);
    if created.Err? {
      return Err(Rejected(created.error));
    }
    r := Ok(Represent(store.users[created.value]));
  }

  /** The existing-user test: after `create_user`, registering the same address is refused and nothing is added. */
  method ExistingUserScenario() returns (r: Result<map<string, string>, RegistrationError>, count: nat)
    ensures r == Err(Invalid("email", NotUnique)) && count == 1
  {
    var store := new UserStore();
    LowercaseExampleUnchanged();
    var created := store.CreateUser(Some("test@gmail.com"), Some("testpass"), "");
    var payload := map["email" := "test@gmail.com", "password" := "testpass"];
    assert IndexOfEmail(store.users, payload["email"]) == Some(0);
    r := RegisterUser(store, payload);
    count := |store.users|;
  }

  /**
   * A stored `test@gmail.com`, then a registration of `test@GMAIL.COM`: the
   * uniqueness check lets it through, and the user manager refuses it on save.
   */
  method DomainCaseDuplicateScenario() returns (r: Result<map<string, string>, RegistrationError>, count: nat)
    ensures r == Err(Rejected(DuplicateEmail)) && count == 1
  {
    var store := new UserStore();
    LowercaseExampleUnchanged();
    var created := store.CreateUser(Some("test@gmail.com"), Some("testpass"), "");
    var payload := map["email" := "test@GMAIL.COM", "password" := "testpass", "name" := "n"];
    DomainCaseDuplicatePassesValidation(store.users[0]);
    assert store.users == [store.users[0]];
    r := RegisterUser(store, payload);
    count := |store.users|;
  }

  /** The short-password test: a two-character password is refused and no user exists afterwards. */
  method ShortPasswordScenario() returns (r: Result<map<string, string>, RegistrationError>, count: nat)
    ensures r == Err(Invalid("password", TooShort)) && count == 0
  {
    var store := new UserStore();
    var payload := map["email" := "test@gmail.com", "password" := "te"];
    r := RegisterUser(store, payload);
    count := |store.users|;
  }

  /** The author registration test: the response omits the password and the stored user is an author. */
  method AuthorRegistrationScenario() returns (r: Result<map<string, string>, RegistrationError>, u: User)
    ensures r.Ok? && "password" !in r.value
    ensures u.isAuthor && CheckPassword(u.password, "testpass")
    ensures r.value == Represent(u) && u.email == "test@gmail.com" && u.name == "test name"
  {
    var store := new UserStore();
    var payload := map["email" := "test@gmail.com", "password" := "testpass", "name" := "test name"];
    LowercaseExampleUnchanged();
    assert |payload["password"]| >= MinPasswordLength;
    r := RegisterAuthor(store, payload);
    u := store.users[0];
  }

  // --- Token issuance ------------------------------------------------------

  /** A value of the validated-attributes dictionary: submitted text, or the authenticated user. */
  datatype AttrValue = Text(text: string) | UserRef(id: UserId)

  datatype TokenError =
    | FieldInvalid(field: string, reason: FieldError)  // a declared field is missing or blank
    | BadCredentials                                   // "Unable to authenticate with provided credentials"

  /** `attrs.get(key)` for a text attribute. */
  function TextAttr(attrs: map<string, AttrValue>, key: string): Option<string> {
    if key in attrs && attrs[key].Text? then Some(attrs[key].text) else None
  }

  /** The stored user `i` has exactly this address, this password, and an active account. */
  predicate Matches(users: seq<User>, i: nat, email: string, password: string) {
    i < |users| && users[i].email == email && CheckPassword(users[i].password, password) && users[i].isActive
  }

  /**
   * `authenticate(username=email, password=password)` with the model backend:
   * look the user up by the exact address, then check password and activity.
   */
  function Authenticate(users: seq<User>, email: Option<string>, password: Option<string>): (r: Option<UserId>)
    ensures r.Some? ==> email.Some? && password.Some? && Matches(users, r.value, email.value, password.value)
  {
    if email.None? || password.None? then None
    else match IndexOfEmail(users, email.value)
      case None => None
      case Some(i) => if CheckPassword(users[i].password, password.value) && users[i].isActive then Some(i) else None
  }

  /** With unique addresses, every matching user is the one `authenticate` returns. */
  lemma AuthenticateFindsMatch(users: seq<User>, i: nat, email: string, password: string)
    requires UniqueEmails(users) && Matches(users, i, email, password)
    ensures Authenticate(users, Some(email), Some(password)) == Some(i)
  {
    IndexOfEmailFinds(users, i);
  }

  /** `AuthTokenSerializer.validate`: authenticate, then record the user in `attrs`. */
  function Validate(users: seq<User>, attrs: map<string, AttrValue>): (r: Result<map<string, AttrValue>, TokenError>)
    ensures r.Err? <==> Authenticate(users, TextAttr(attrs, "email"), TextAttr(attrs, "password")).None?
    ensures r.Err? ==> r.error == BadCredentials
    ensures r.Ok? ==>
              && r.value.Keys == attrs.Keys + {"user"}
              && r.value["user"].UserRef?
              && Matches(users, r.value["user"].id, TextAttr(attrs, "email").value, TextAttr(attrs, "password").value)
              && forall k :: k in attrs && k != "user" ==> r.value[k] == attrs[k]
  {
    var user := Authenticate(users, TextAttr(attrs, "email"), TextAttr(attrs, "password"));
    if user.None? then Err(BadCredentials)
    else Ok(attrs["user" := UserRef(user.value)])
  }

  /**
   * The token endpoint up to the user the token is issued for: both declared
   * fields are required and may not be blank, then `validate` runs.
   */
  function ObtainToken(users: seq<User>, payload: map<string, string>): (r: Result<UserId, TokenError>)
    ensures r.Ok? ==>
              && "email" in payload && "password" in payload
              && Matches(users, r.value, payload["email"], payload["password"])
    ensures "password" in payload && payload["password"] == "" ==> r.Err?
  {
    var email := RequiredText(payload, "email");
    var password := RequiredText(payload, "password");
    if email.Err? then Err(FieldInvalid("email", email.error))
    else if password.Err? then Err(FieldInvalid("password", password.error))
    else
      var attrs := map["email" := Text(email.value), "password" := Text(password.value)];
      match Validate(users, attrs)
      case Err(e) => Err(e)
      case Ok(validated) => Ok(validated["user"].id)
  }

  /** A token is issued exactly when the submitted, non-blank credentials match a stored active user. */
  lemma TokenIssuedIffCredentialsMatch(users: seq<User>, payload: map<string, string>)
    requires UniqueEmails(users)
    ensures ObtainToken(users, payload).Ok? <==>
              && "email" in payload && "password" in payload
              && payload["email"] != "" && payload["password"] != ""
              && exists i :: Matches(users, i, payload["email"], payload["password"])
  {
    if && "email" in payload && "password" in payload
       && payload["email"] != "" && payload["password"] != ""
       && exists i :: Matches(users, i, payload["email"], payload["password"])
    {
      var i :| Matches(users, i, payload["email"], payload["password"]);
      AuthenticateFindsMatch(users, i, payload["email"], payload["password"]);
    }
  }

  /** A wrong password for a stored address issues no token. */
  lemma WrongPasswordNoToken(users: seq<User>, i: nat, payload: map<string, string>)
    requires UniqueEmails(users) && i < |users|
    requires "email" in payload && "password" in payload && payload["email"] == users[i].email
    requires !CheckPassword(users[i].password, payload["password"])
    ensures ObtainToken(users, payload).Err?
  {
    TokenIssuedIffCredentialsMatch(users, payload);
  }

  /** An address with no stored user issues no token. */
  lemma UnknownEmailNoToken(users: seq<User>, payload: map<string, string>)
    requires "email" in payload && IndexOfEmail(users, payload["email"]).None?
    ensures ObtainToken(users, payload).Err?
  {
  }
}
