# Users and authorisation of a blogging API, in Dafny

This project models the user-and-authorisation core of a Django/DRF blogging backend:

- **Accounts** (`app/core/models.py`): the user manager with `create_user`, `create_superuser` and `create_author_user`.
  - A missing address is refused.
  - The domain of the address is lower-cased.
  - The password is stored as a hash.
  - The role flags are set on top of the column defaults.
  - Addresses are unique.
  - Category titles and slugs are unique, and so are article slugs.
- **The author-only check** (`app/article/permissions.py`): an if/elif with no final `else`.
  - An authenticated non-author therefore gets `None`, which the framework treats as a denial.
- **The category list** (`app/article/views.py`): the `IsAuthenticated` gate, then a filter.
  - The filter keeps exactly the categories whose author is the caller.
- **Registration and token issuance** (`app/user/serializers.py`).
  - Field validation covers required, non-blank and length checks, the password's minimum length of 8, and the email uniqueness validator.
  - Plain users are created through `create_user`; authors through `create_author_user`.
  - The response never contains the password.
  - A token is issued only when the address and password match an active stored user.

Modules, one per source file, plus two helpers:

| file | module | models |
|---|---|---|
| `results.dfy` | `Results` | `Option` and `Result` |
| `email.dfy` | `EmailAddresses` | the address normalisation `create_user` applies |
| `models.dfy` | `Models` | credentials, `User`, the `UserStore` class (the user table and its manager), `Category`, `Article` |
| `permissions.dfy` | `Permissions` | `request.user` and `AuthorAccessPermission.has_permission` |
| `views.dfy` | `CategoryViews` | `CategoryViewset` listing |
| `serializers.dfy` | `UserSerializers` | `UserSerializer`, `AuthorSerializer`, `AuthTokenSerializer` |

Design decisions:

- The user manager changes the user table, so it is a class, `Models.UserStore`.
  - Its field `users` is the table.
  - A user's primary key is its position in `users`.
  - Its invariant `Valid()` states that addresses are non-empty, normalised and unique.
  - Each creation method preserves the invariant.
- The permission check and the category filter are functions.
- Registration methods take the store and change it only through the manager.

The normalisation helper belongs to the framework (`BaseUserManager.normalize_email`). The model follows that helper's behaviour:

- it splits the address at the last `@` (`rsplit('@', 1)`);
- it lower-cases the text after that `@`, the domain;
- it keeps the local part as given;
- it keeps an address without `@` unchanged.

The model tests pin two literal cases: `test@gmail.com` is stored unchanged and `test@GMAIL.COM` is stored as `test@gmail.com`.

Hashing is modelled as an injective function (`Models.Hash`). An unusable password matches nothing.

`authenticate` is modelled as the framework's model backend:

- it looks the user up by the exact address submitted;
- it then checks the password and that the account is active.

The registration uniqueness validator compares the address as submitted. The table holds addresses normalised. So an address that differs from a stored one only in the case of its domain passes validation, and the user manager then refuses it as a duplicate on save (`RegistrationError.Rejected(DuplicateEmail)`). `UserSerializers.DomainCaseDuplicatePassesValidation` proves that validation passes while the normalised address is already stored. `UserSerializers.DomainCaseDuplicateScenario` runs the registration and proves the result is `Err(Rejected(DuplicateEmail))` with the table still holding one user.

Listing admits any authenticated user, author or not (`permission_classes = (IsAuthenticated,)`, app/article/views.py:11); `CategoryViews.NonAuthorMayList` states it.

## Model

| member | source | states |
|---|---|---|
| `EmailAddresses.Lower` | app/core/models.py:11 | lower-casing keeps the length, maps each upper-case ASCII letter to its lower-case partner and keeps every other character |
| `EmailAddresses.NormalizeEmail` | app/core/models.py:11 | the stored address has the submitted address's length, and an address without `@` is stored unchanged |
| `EmailAddresses.NormalizeKeepsLocalPart` | app/core/models.py:11 | everything up to and including the last `@` is kept exactly |
| `EmailAddresses.NormalizeLowersDomain` | app/core/models.py:11 | the stored domain is the submitted domain lower-cased: each upper-case letter after the last `@` becomes its lower-case partner, no upper-case letter remains, and every other character is kept |
| `EmailAddresses.NormalizeIgnoresDomainCase` | app/core/models.py:11 | two addresses that share the local part and the last `@` and differ only in the case of the domain are stored as the same address |
| `EmailAddresses.NormalizeKeepsLowercase` | app/core/tests/test_models.py:7-12 | an address with no upper-case letter is stored exactly as given |
| `EmailAddresses.NormalizeIdempotent` | app/core/models.py:11 | normalising an already normalised address changes nothing, so stored addresses are fixed points |
| `EmailAddresses.LowercaseExampleUnchanged` | app/core/tests/test_models.py:7-12 | `test@gmail.com` is stored as `test@gmail.com` |
| `EmailAddresses.NormalizeExample` | app/core/tests/test_models.py:15-19 | `test@GMAIL.COM` is stored as `test@gmail.com` |
| `Models.SetPassword` | app/core/models.py:12 | a usable credential is stored exactly when a password was given |
| `Models.CheckPasswordAfterSet` | app/core/tests/test_models.py:13 | after setting a password, a password checks iff it is that password; with no password, nothing checks |
| `Models.IndexOfEmail` | app/core/models.py:36 | the lookup returns a user carrying exactly that address, or none when no user carries it |
| `Models.IndexOfEmailFinds` | app/core/models.py:36 | with unique addresses, looking up a stored user's address returns that user |
| `Models.UserStore.CreateUser` | app/core/models.py:8-15 | a missing or empty address fails with `MissingEmail`, and an already stored normalised address fails with `DuplicateEmail`; the call succeeds iff neither applies, and on failure the table is unchanged. Otherwise exactly one user is appended: normalised address, given name, hashed password, active, not staff, not author, not superuser. The table invariant is kept |
| `Models.UserStore.CreateSuperuser` | app/core/models.py:17-24 | the same failures as `create_user`; on success, the appended user is active, superuser, staff and author, with an empty name |
| `Models.UserStore.CreateAuthorUser` | app/core/models.py:26-32 | the same failures as `create_user`; on success, the appended user is an author with staff and superuser left false |
| `Models.SuperuserScenario` | app/core/tests/test_models.py:25-30 | on an empty table, `create_superuser` stores the given address with superuser, staff, author and active all set, and the given password checks |
| `Models.MissingEmailScenario` | app/core/tests/test_models.py:21-23 | `create_user(None, ...)` fails with the missing-address error and leaves the table empty |
| `Models.SaveCategory` | app/core/models.py:46-49 | a category row is inserted iff its key, title and slug are all new, and insertion keeps all three unique |
| `Models.SaveArticle` | app/core/models.py:55-60 | an article row is inserted iff its key and slug are new, and insertion keeps both unique |
| `Permissions.HasPermission` | app/article/permissions.py:6-10 | anonymous gives `False`, an authenticated author gives `True`, and an authenticated non-author falls through to `None` |
| `Permissions.AuthorAccessTruthTable` | app/article/permissions.py:6-10 | access is granted iff the requester is authenticated and is an author; an anonymous requester is always denied |
| `Permissions.StaffAndSuperuserIgnored` | app/article/permissions.py:9-10 | changing the staff or superuser flag never changes the verdict |
| `Permissions.SuperuserWithoutAuthorFlagDenied` | app/article/permissions.py:9-10 | a staff superuser without the author flag gets `None` and is denied |
| `CategoryViews.AuthoredBy` | app/article/views.py:15-16 | every returned category is from the table and authored by the caller (soundness), and every such category is returned (completeness); each own category is returned exactly as often as the table holds it, and no other category at all |
| `CategoryViews.ListCategories` | app/article/views.py:9-16 | an anonymous request is refused before any scoping; any authenticated request gets exactly its own categories, each as often as the table holds it |
| `CategoryViews.ListingHasNoRepeats` | app/article/views.py:15-16 | over a category table with unique keys, no category appears twice in a listing |
| `CategoryViews.ForeignCategoryHidden` | app/article/views.py:15-16 | a category authored by someone else never appears in a listing |
| `CategoryViews.NonAuthorMayList` | app/article/views.py:11 | an authenticated non-author may list categories, although the author-only check would deny it |
| `CategoryViews.ListingExample` | app/article/tests/test_category_api.py:48-57 | with one foreign and one own category, the listing is the own category alone |
| `UserSerializers.RequiredText` | app/user/serializers.py:26-27 | a declared text field validates iff it was submitted and is not blank |
| `UserSerializers.ValidateRegistration` | app/user/serializers.py:9-12 | registration data validates iff all of these hold: the email is present, non-blank, at most 255 characters and not already stored as submitted; the password has at least 8 characters; the name is present, non-blank and at most 255 characters. The validated data is the submitted fields |
| `UserSerializers.DomainCaseDuplicatePassesValidation` | app/user/serializers.py:10-11 | `test@GMAIL.COM` passes validation beside a stored `test@gmail.com`, yet its normalised form is already stored |
| `UserSerializers.Represent` | app/user/serializers.py:11-12 | the response holds exactly `email` and `name`, and never `password` |
| `UserSerializers.RegisterUser` | app/user/serializers.py:14-15 | invalid data returns the validation error and nothing is saved; registration succeeds iff the data validates and its normalised address is new; data that validates but fails is refused on save as `Rejected(DuplicateEmail)` with nothing saved; on success one non-author user is appended, the submitted password checks against it, and the response is its representation |
| `UserSerializers.DomainCaseDuplicateScenario` | app/user/serializers.py:9-15 | with `test@gmail.com` stored, registering `test@GMAIL.COM` passes validation and is refused on save with `Rejected(DuplicateEmail)`; the table still holds one user |
| `UserSerializers.RegisterAuthor` | app/user/serializers.py:18-21 | the same as `RegisterUser`, except that the appended user is an author |
| `UserSerializers.ExistingUserScenario` | app/user/testss/test_user_api.py:36-45 | after `create_user`, registering the same address fails on the uniqueness check and the table still holds one user |
| `UserSerializers.ShortPasswordScenario` | app/user/testss/test_user_api.py:47-58 | a two-character password fails the minimum-length check and no user is stored |
| `UserSerializers.AuthorRegistrationScenario` | app/user/testss/test_user_api.py:60-72 | author registration succeeds, its response has no password, the response is the representation of the stored user `test@gmail.com` named `test name`, and that user is an author whose password checks |
| `UserSerializers.Authenticate` | app/user/serializers.py:33-37 | a returned user has exactly the submitted address and the submitted password, and is active |
| `UserSerializers.AuthenticateFindsMatch` | app/user/serializers.py:33-37 | with unique addresses, a user matching address, password and activity is the one authenticated |
| `UserSerializers.Validate` | app/user/serializers.py:29-43 | validation fails with the credentials error iff authentication fails. On success, `attrs` gains `user`, which refers to a matching user, and keeps every other entry unchanged |
| `UserSerializers.ObtainToken` | app/user/serializers.py:24-43 | a token is issued only for a user matching the submitted address and password; a blank password issues none |
| `UserSerializers.TokenIssuedIffCredentialsMatch` | app/user/serializers.py:29-43 | with unique addresses, a token is issued iff both fields are non-blank and some stored active user matches both |
| `UserSerializers.WrongPasswordNoToken` | app/user/testss/test_user_api.py:85-94 | a stored address with a wrong password issues no token |
| `UserSerializers.UnknownEmailNoToken` | app/user/testss/test_user_api.py:96-104 | an address with no stored user issues no token |

## Left out

- Address normalisation trims surrounding whitespace before splitting, and lower-cases the domain with full Unicode rules. The model does neither: it lower-cases ASCII letters only and trims nothing.
- `**extra_fields` of `create_user` and `create_author_user` are modelled as the `name` field only. These are the only extra fields the serializers pass.
- `create_superuser` and `create_author_user` save twice. The model performs the flag update as part of one step, so the short-lived intermediate row with default flags is not represented.
- The password hashing algorithm, salts and hasher upgrades are left out; a digest is an injective image of the password.
- Token generation and storage (`get_or_create` of the token row) and token authentication of later requests are left out. `ObtainToken` returns the user the token would be issued for.
- Validate: returns the updated dictionary instead of writing `user` into the caller's `attrs` in place, so aliasing of that dictionary is not modelled.
- ObtainToken: only the first failing field is reported. The framework collects the errors of every field.
- ValidateRegistration: only the first failing field is reported. The framework collects the errors of every field.
- Email format validation, trimming of whitespace in text fields, and the 128-character limit of the password column are left out. These come from framework base classes.
- The mapping of outcomes to HTTP status codes (401, 403, 400), and the router and URL wiring, are left out.
- `__str__` of `Category` and `Article` returns the title; it has no behaviour to verify.
- The column lengths of `Category` and `Article` (122, 155) and slug syntax are left out. The uniqueness constraints are modelled.
- Category and article primary keys are supplied by the caller rather than generated.
- `publish_date` and its default from the clock are left out.
- The listing order is left out: the filter keeps the table's order, and the viewset imposes no other.
- Category creation through the viewset, and article listing, ownership, comments, likes and image upload, are left out. The viewset has only the list mixin, and those parts have no implementation in these files.
- Migrations are schema history and are left out.
- A save with an already stored address is modelled as a failed call returning `DuplicateEmail`. The source raises the database's integrity error at that point.
