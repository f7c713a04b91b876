# User service: access rules, registration and logout

A Dafny model of the `users` app of a hotel-management service. The app is
built on Django REST framework and keeps user accounts. The model covers four parts:

- **The `User` record** (`models.dfy`). It covers the closed role choices (Admin, Doctor, Nurse,
  Receptionist, Patient) and gender choices (Male, Female, Other), the column widths and e-mail
  uniqueness. E-mail is the login key. The string form of a user is also modelled. The user table
  keeps rows in primary-key order, so `User.objects.get(email=...)` becomes a filter over the rows.
  It has two invariants:
  - `TableConsistent`: what the database enforces (unique primary key, e-mail and username, and
    column widths).
  - `TableValid`: the same, plus every role and gender drawn from its choices.
- **The user table** (`store.dfy`). `Store.UserTable` is a class. Its two writes are INSERT and
  UPDATE of a row.
- **`UserSerializer`** (`serializers.dfy`). It says which fields a client may write (`role` and
  `id` are read-only) and which it gets back (`password` is write-only). It validates a request
  body against the column rules the serializer derives from the model. `create` builds the new
  user from the validated data only.
- **The views** (`permissions.dfy`, `registration.dfy`, `logout.dfy`):
  - The `IsAdmin` and `IsOwner` permission classes and the permission list of each view.
    `Authorize` is the resulting decision. It is proved equal to `PolicyDecision`, which states the
    access policy as ordered rules.
  - `RegisterView.create` is the method `Registration.Register`, which takes the user table as a
    parameter. It validates and inserts the user, looks it up again by e-mail, forces its role to
    Patient, saves it and reports that role.
  - `LogoutView.post` is a method on a class holding the set of blacklisted refresh tokens.

A user created by `create_user` without a role holds the empty string in its role column. That
value is not one of the choices. The model therefore keeps the role column as a string.
Registration goes through a row that is only `TableConsistent`, and it ends with a row that is
`TableValid`. Such rows can also stay in the table, for example a superuser made by
`createsuperuser`. `Registration.Register` therefore asks only for `TableConsistent`. It keeps
`TableValid` when that held before.

Verifying a refresh token means checking its signature, expiry and structure. That check is a
parameter, `parse: string -> Option<TokenId>`. Password hashing is the parameter
`encode: string -> string`. A `refresh` value of null is never verified: `RefreshToken(None)`
builds a new token. Its randomly drawn identifier is the parameter `newJti`. That identifier is
blacklisted, and the answer is 205.

Logout is not idempotent. `RefreshToken(...)` refuses a token that is already blacklisted while it
is being constructed. So a second logout with the same token answers 400, and the blacklist stays
as the first logout left it (`Logout.SecondLogoutRefused`).

## Model

| member | source | states |
|---|---|---|
| `Models.ParseRole` | users/models.py:7-13 | a stored role value denotes a role iff it is one of the five choice values, and it denotes the role whose name it is |
| `Models.ParseGender` | users/models.py:14-18 | a gender value is valid iff it is one of the three choice values, and it denotes that gender |
| `Models.RoleChoicesAreTheRoles` | users/models.py:7-13 | the role domain has exactly five values; each role is a choice, reads back as itself and fits the 20-character column |
| `Models.GenderChoicesAreTheGenders` | users/models.py:14-18 | the gender domain has exactly three values; each reads back as itself and fits the 10-character column |
| `Models.ChoiceLabel` | users/models.py:33 | the display of a value that is not a choice is the value itself |
| `Models.LabelIsValue` | users/models.py:7-13 | when every label equals its value, as in both choice lists, the display of any stored value is that value |
| `Models.UserString` | users/models.py:32-33 | a user's string form is its username, a space, and its role in parentheses |
| `Models.ChoicesFitColumns` | users/models.py:21-27 | a role or gender drawn from the choices always fits its column width (20 and 10) |
| `Models.EmailMatches` | users/models.py:20 | the positions returned are exactly the rows holding the e-mail |
| `Models.LookupByEmail` | users/views.py:35 | `get(email=...)` returns a row holding that e-mail, and reports DoesNotExist exactly when no row holds it |
| `Models.NoEmailMatches` | users/models.py:20 | an e-mail held by no row matches nothing |
| `Models.UniqueEmailMatches` | users/models.py:20 | with unique e-mails, a stored row's e-mail matches that row only |
| `Models.UnsetRoleOutsideChoices` | users/models.py:21 | a user whose role was never set holds `""`, which no choice has, so a table holding one is not `TableValid` |
| `Models.EmailIdentifiesUser` | users/models.py:29 | with unique e-mails, looking up a stored user's login key finds exactly that user |
| `Models.AppendKeepsInvariants` | users/models.py:20-27 | appending a row the database accepts keeps the database constraints, and the full invariant when the row's role and gender come from the choices |
| `Store.UserTable.Insert` | users/serializers.py:14 | an INSERT appends the row with the next primary key and keeps the database constraints |
| `Store.UserTable.Save` | users/views.py:37 | an UPDATE replaces that row only and keeps the database constraints |
| `Serializers.FieldPartition` | users/serializers.py:7-11 | the writable fields are the listed fields minus `id` and `role`; the readable ones are the listed fields minus `password` |
| `Serializers.FieldRulesFollowModel` | users/models.py:20-27 | `RuleOf`/`EntryAccepted`: a field may be left out iff it is not username, e-mail or password; null is accepted iff the column is `null=True`; blank iff the column takes blank; username and e-mail are unique; gender is limited to its three choices; e-mail and phone keep widths 254 and 15 |
| `Serializers.Validate` | users/serializers.py:7-11 | validation fails exactly when some writable field breaks its rule, and then names exactly the failing fields; otherwise the validated data is the submitted values of the writable fields, never `role` or `id` |
| `Serializers.Representation` | users/serializers.py:7-11 | the output has exactly the listed fields minus `password`, with the stored e-mail and role |
| `Serializers.RepresentationOfRole` | users/views.py:38 | overwriting `role` in the output equals the output of the user with that role |
| `Serializers.ValidateReadsWritable` | users/serializers.py:7-11 | two bodies that agree on every writable field validate alike |
| `Serializers.RoleInputIgnored` | users/serializers.py:11 | setting or removing `role` in the body does not change the validation outcome |
| `Serializers.ValidatedHasRequiredFields` | users/models.py:29-30 | validated data always carries a non-blank username, e-mail (the login key) and password |
| `Serializers.ValidatedRecordInsertable` | users/models.py:20-27 | a user built from validated data fits every column, clashes with no stored e-mail or username, and has an allowed gender |
| `Serializers.TextColumnsNotNull` | users/models.py:6 | username, first name, last name and e-mail are not nullable, so validated data holds strings there |
| `Serializers.EchoSubmittedFields` | users/serializers.py:7-15 | round trip: each readable field a client submitted comes back unchanged in the output for the created user |
| `Serializers.NewUserUnprivileged` | users/serializers.py:13-15 | `NewRecord`: the user `create_user` makes from validated data has no role from the choices, is neither staff nor superuser, is active, and stores the encoded submitted password |
| `Serializers.Create` | users/serializers.py:13-15 | `create` inserts exactly the user built from the validated data and returns it |
| `Permissions.ProfileObject` | users/views.py:71-72 | the profile view acts on the requesting user, and only when one is authenticated |
| `Permissions.BasePermissionDefaults` | users/views.py:20-26 | `HasPermission`/`HasObjectPermission`: a class that defines only one check passes the other, so `IsOwner` alone admits every caller where no object is checked |
| `Permissions.OrCombination` | users/views.py:64 | `HasPermission`/`HasObjectPermission` of `l \| r`: it lets a request through exactly when one operand does on its own, with or without an object |
| `Permissions.AuthorizeChecksEveryClass` | users/views.py:28-72 | `Authorize` over `PermissionClasses`: a view lets a request through exactly when every class in its permission list does |
| `Permissions.AdminOrOwner` | users/views.py:61-64 | `IsAdmin \| IsOwner` lets every request past the view check, and on an object it permits exactly an Admin or the object itself |
| `Permissions.AuthorizeFollowsPolicy` | users/views.py:20-72 | the per-view permission lists decide exactly as the ordered policy rules, for every caller and every action |
| `Permissions.IsAdminIgnoresStaffFlags` | users/views.py:20-22 | `IsAdmin` passes iff the caller is authenticated with role Admin; staff and superuser flags play no part |
| `Permissions.IsOwnerMeansSelf` | users/views.py:24-26 | `IsOwner` passes on an object iff it is the requesting user |
| `Permissions.AnonymousOnlyPublic` | users/views.py:28-54 | an anonymous caller gets through exactly register, login and logout |
| `Permissions.ListingIsAdminOnly` | users/views.py:56-59 | listing users is allowed iff the caller is an authenticated Admin |
| `Permissions.DetailIsAdminOrOwner` | users/views.py:61-64 | retrieve, update and delete of a user are allowed iff the caller is an Admin or that user |
| `Permissions.ProfileIsOwnRecord` | users/views.py:67-72 | the profile endpoints are allowed iff the caller is authenticated, and act on the caller's own record, which the detail endpoints also allow |
| `Permissions.AdminMayDoAnything` | users/views.py:56-64 | an Admin is allowed every action |
| `Permissions.NonAdminRolesAlike` | users/views.py:20-26 | roles other than Admin carry no privilege: swapping one for another never changes a decision |
| `Permissions.EndpointTestOutcomes` | users/tests.py:59-128 | the decisions the endpoint tests expect, for an Admin, a Patient and a Doctor |
| `Registration.RegisterOutcome` | users/views.py:33-39 | registration answers 201 iff every writable field passes its rule; a 400 names exactly the failing writable fields and leaves the rows and next key alone |
| `Registration.RegistrationForcesPatient` | users/views.py:33-39 | a successful registration adds exactly one row, leaves the earlier rows alone, stores role Patient and reports it; a failed one changes nothing |
| `Registration.RegistrationIgnoresRole` | users/views.py:33-39 | a client-supplied role, Admin included, does not change the registration outcome |
| `Registration.RegistrationPreservesValid` | users/views.py:33-39 | registration keeps the table invariant: unique keys, column widths, and roles and genders from their choices |
| `Registration.DuplicateEmailRefused` | users/models.py:20 | registering with an e-mail already stored is refused on the e-mail field and leaves the table unchanged |
| `Registration.RegistrationTestOutcome` | users/tests.py:21-30 | on a three-user table, registering username, e-mail and password gives 201, four rows, and a Patient found by that e-mail |
| `Registration.PatientRowSavable` | users/views.py:36-37 | the row the view writes back, with role Patient, is one the database accepts |
| `Registration.CreatePatient` | users/views.py:34-38 | after the insert, the lookup by e-mail and the save, the table has the old rows plus the user with role Patient, and the response is that user's output |
| `Registration.Register` | users/views.py:28-39 | on any table the database accepts, the view keeps the database constraints, keeps the full invariant when it held, and its response, rows and next key are those of `RegisterOutcome` |
| `Logout.LogoutStep` | users/views.py:47-54 | 205 iff the body has a `refresh` entry that is null, or that parses to a token not yet blacklisted; then exactly that token (the new one, for null) is added; otherwise 400 and the blacklist is unchanged |
| `Logout.BlacklistOnlyGrows` | users/views.py:47-54 | no request removes a blacklisted token |
| `Logout.SecondLogoutRefused` | users/views.py:49-51 | after a successful logout, the same non-null token answers 400 and leaves the blacklist as it was; a null token succeeds each time with a new identifier |
| `Logout.Blacklist.Post` | users/views.py:47-54 | the view's status and new blacklist are those of `LogoutStep` |

## Left out

- Login, and minting, signing, expiry and refresh of JWTs (`LoginView`, `RefreshToken`): these are
  library internals. Verifying a token is the `parse` parameter. The random identifier of a new
  token is the `newJti` parameter. A `refresh` value that is a JSON number, list or object is not
  modelled: bodies hold strings or null.
- Password hashing inside `create_user` is the `encode` parameter. The hash is not bounded by the
  128-character column.
- `create_user` normalises the e-mail (lower-cased domain) and the username (Unicode NFKC). Neither
  step is modelled: validated values are stored as given. This is why the model has no path on
  which the database refuses an insert that validation allowed.
- Parts of the serializer's input handling are not modelled:
  - whitespace trimming;
  - the e-mail format check;
  - the username character check;
  - date parsing (`date_of_birth` takes any non-blank text);
  - coercion of numbers and booleans in the body (values are strings or null).
  A `profile_picture` text value is refused as "not a file". Uploads, and the URL the output gives
  for a stored picture, are not modelled.
- The order of fields in the output is not modelled: the output is a map.
- What retrieve, update, delete and list do to the data, once permitted, is left out. These are
  generic framework actions. Only their access decisions are modelled.
- `Permissions.Authorize`: `|` is evaluated as current Django REST framework versions do it. Each
  operand counts on an object only when its view-level check also passes. Older versions let every
  object through and would contradict the tests. The 401-versus-403 choice and the 404 for a
  missing target are not modelled.
- `api_root`, the URL routes, the admin configuration, translation and HTTP transport are left
  out. Route names appear only as the `Action` labels.
- Concurrency and transactions: each request runs alone on the table and the blacklist.
