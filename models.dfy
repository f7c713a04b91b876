/** The `User` model of the user service: the closed role and gender
    choices, the stored record, the database constraints on the user table
    and the lookup of a user by its e-mail address, which is the login key. */
module Models {
  import opened Wrappers

  /** The role a user has in the hotel. */
  datatype Role = Admin | Doctor | Nurse | Receptionist | Patient

  datatype Gender = Male | Female | Other

  // Column widths of the user table.
  const UsernameMaxLength: nat := 150
  const NameMaxLength: nat := 150
  const EmailMaxLength: nat := 254
  const PasswordMaxLength: nat := 128
  const RoleMaxLength: nat := 20
  const EmployeeIdMaxLength: nat := 20
  const PhoneNumberMaxLength: nat := 15
  const GenderMaxLength: nat := 10

  /** The model field that authenticates a user, and the fields that are
      required besides it and the password. */
  const UsernameField: string := "email"
  const RequiredFields: seq<string> := ["username"]

  /** (stored value, display label) pairs, in declaration order. */
  const RoleChoices: seq<(string, string)> :=
    [("Admin", "Admin"), ("Doctor", "Doctor"), ("Nurse", "Nurse"),
     ("Receptionist", "Receptionist"), ("Patient", "Patient")]

  const GenderChoices: seq<(string, string)> :=
    [("Male", "Male"), ("Female", "Female"), ("Other", "Other")]

  /** The values a choice list allows. */
  function ChoiceValues(choices: seq<(string, string)>): (values: set<string>)
    ensures forall k | 0 <= k < |choices| :: choices[k].0 in values
    ensures forall v | v in values :: exists k | 0 <= k < |choices| :: choices[k].0 == v
  {
    set k | 0 <= k < |choices| :: choices[k].0
  }

  /** The value stored for a role. */
  function RoleName(r: Role): string {
    match r
    case Admin => "Admin"
    case Doctor => "Doctor"
    case Nurse => "Nurse"
    case Receptionist => "Receptionist"
    case Patient => "Patient"
  }

  function GenderName(g: Gender): string {
    match g
    case Male => "Male"
    case Female => "Female"
    case Other => "Other"
  }

  /** The role choices allow exactly the five role names. */
  lemma RoleValues()
    ensures ChoiceValues(RoleChoices) == {"Admin", "Doctor", "Nurse", "Receptionist", "Patient"}
  {
    var values := ChoiceValues(RoleChoices);
    assert RoleChoices[0].0 in values && RoleChoices[1].0 in values && RoleChoices[2].0 in values;
    assert RoleChoices[3].0 in values && RoleChoices[4].0 in values;
    forall v | v in values
      ensures v in {"Admin", "Doctor", "Nurse", "Receptionist", "Patient"}
    {
      var k :| 0 <= k < |RoleChoices| && RoleChoices[k].0 == v;
    }
  }

  lemma GenderValues()
    ensures ChoiceValues(GenderChoices) == {"Male", "Female", "Other"}
  {
    var values := ChoiceValues(GenderChoices);
    assert GenderChoices[0].0 in values && GenderChoices[1].0 in values && GenderChoices[2].0 in values;
    forall v | v in values
      ensures v in {"Male", "Female", "Other"}
    {
      var k :| 0 <= k < |GenderChoices| && GenderChoices[k].0 == v;
    }
  }

  /** The role a stored value denotes, if it is one of the role choices. */
  function ParseRole(s: string): (r: Option<Role>)
    ensures r.Some? <==> s in ChoiceValues(RoleChoices)
    ensures r.Some? ==> RoleName(r.value) == s
  {
    RoleValues();
    if s == "Admin" then Some(Admin)
    else if s == "Doctor" then Some(Doctor)
    else if s == "Nurse" then Some(Nurse)
    else if s == "Receptionist" then Some(Receptionist)
    else if s == "Patient" then Some(Patient)
    else None
  }

  function ParseGender(s: string): (g: Option<Gender>)
    ensures g.Some? <==> s in ChoiceValues(GenderChoices)
    ensures g.Some? ==> GenderName(g.value) == s
  {
    GenderValues();
    if s == "Male" then Some(Male)
    else if s == "Female" then Some(Female)
    else if s == "Other" then Some(Other)
    else None
  }

  /** Every role is a choice and is read back as itself; the role domain is
      exactly the five roles, and each fits its column. */
  lemma RoleChoicesAreTheRoles(r: Role)
    ensures RoleName(r) in ChoiceValues(RoleChoices)
    ensures ParseRole(RoleName(r)) == Some(r)
    ensures 0 < |RoleName(r)| <= RoleMaxLength
    ensures |ChoiceValues(RoleChoices)| == 5
  {
    RoleValues();
  }

  lemma GenderChoicesAreTheGenders(g: Gender)
    ensures GenderName(g) in ChoiceValues(GenderChoices)
    ensures ParseGender(GenderName(g)) == Some(g)
    ensures 0 < |GenderName(g)| <= GenderMaxLength
    ensures |ChoiceValues(GenderChoices)| == 3
  {
    GenderValues();
  }

  /** The display label of a stored value: the label of the last pair with
      that value, or the value itself when it is not a choice. */
  function ChoiceLabel(choices: seq<(string, string)>, value: string): (shown: string)
    ensures value !in ChoiceValues(choices) ==> shown == value
    decreases |choices|
  {
    if choices == [] then value
    else if choices[|choices| - 1].0 == value then choices[|choices| - 1].1
    else ChoiceLabel(choices[..|choices| - 1], value)
  }

  /** When every label equals its value, the display of any value is the
      value itself. */
  lemma {:induction false} LabelIsValue(choices: seq<(string, string)>, value: string)
    requires forall k | 0 <= k < |choices| :: choices[k].0 == choices[k].1
    ensures ChoiceLabel(choices, value) == value
    decreases |choices|
  {
    if choices != [] && choices[|choices| - 1].0 != value {
      var prefix := choices[..|choices| - 1];
      assert forall k | 0 <= k < |prefix| :: prefix[k] == choices[k];
      LabelIsValue(prefix, value);
    }
  }

  function RoleDisplay(value: string): string {
    ChoiceLabel(RoleChoices, value)
  }

  /** A stored user. `role` and `gender` hold the raw column values: a user
      created without a role holds the empty string there. */
  datatype UserRecord = UserRecord(
    id: nat,
    username: string,
    firstName: string,
    lastName: string,
    email: string,
    role: string,
    password: string,
    phoneNumber: Option<string>,
    address: Option<string>,
    dateOfBirth: Option<string>,
    profilePicture: Option<string>,
    gender: Option<string>,
    employeeId: Option<string>,
    isActive: bool,
    isStaff: bool,
    isSuperuser: bool)

  /** The string form of a user: its username and, in parentheses, the
      display of its role, which is the stored role itself. */
  function UserString(u: UserRecord): (s: string)
    ensures s == u.username + " (" + u.role + ")"
    ensures |s| == |u.username| + |u.role| + 3
  {
    LabelIsValue(RoleChoices, u.role);
    u.username + " (" + RoleDisplay(u.role) + ")"
  }

  /** The login key of a user: the field named by `UsernameField`. */
  function NaturalKey(u: UserRecord): string {
    u.email
  }

  predicate FitsOptional(v: Option<string>, width: nat) {
    v.None? || |v.value| <= width
  }

  /** The column widths the database enforces. */
  predicate FitsColumns(u: UserRecord) {
    && |u.username| <= UsernameMaxLength
    && |u.firstName| <= NameMaxLength
    && |u.lastName| <= NameMaxLength
    && |u.email| <= EmailMaxLength
    && |u.role| <= RoleMaxLength
    && FitsOptional(u.employeeId, EmployeeIdMaxLength)
    && FitsOptional(u.phoneNumber, PhoneNumberMaxLength)
    && FitsOptional(u.gender, GenderMaxLength)
  }

  /** A gender is either unset (null or blank) or one of the choices. */
  predicate GenderAllowed(g: Option<string>) {
    g.None? || g.value == "" || ParseGender(g.value).Some?
  }

  /** The role and gender columns hold values from their choice lists. */
  predicate HasChoiceValues(u: UserRecord) {
    ParseRole(u.role).Some? && GenderAllowed(u.gender)
  }

  /** Values from the choice lists always fit the role and gender columns. */
  lemma ChoicesFitColumns(u: UserRecord)
    requires HasChoiceValues(u)
    ensures |u.role| <= RoleMaxLength
    ensures FitsOptional(u.gender, GenderMaxLength)
  {
    RoleChoicesAreTheRoles(ParseRole(u.role).value);
    if u.gender.Some? && u.gender.value != "" {
      GenderChoicesAreTheGenders(ParseGender(u.gender.value).value);
    }
  }

  /** Primary key, e-mail and username are unique across the table. */
  predicate KeysUnique(rows: seq<UserRecord>) {
    forall i, j | 0 <= i < j < |rows| ::
      && rows[i].id != rows[j].id
      && rows[i].email != rows[j].email
      && rows[i].username != rows[j].username
  }

  /** What the database itself guarantees of the user table; `nextId` is the
      next value of the auto-increment primary key. */
  predicate TableConsistent(rows: seq<UserRecord>, nextId: nat) {
    && KeysUnique(rows)
    && forall i | 0 <= i < |rows| :: rows[i].id < nextId && FitsColumns(rows[i])
  }

  /** The table invariant of the service: the database constraints, and
      every role and gender drawn from its choices. */
  predicate TableValid(rows: seq<UserRecord>, nextId: nat) {
    && TableConsistent(rows, nextId)
    && forall i | 0 <= i < |rows| :: HasChoiceValues(rows[i])
  }

  /** A user whose role was never set holds the column default, the empty
      string, which no choice has: the database accepts such a table, the
      service invariant does not. */
  lemma UnsetRoleOutsideChoices(rows: seq<UserRecord>, nextId: nat, i: nat)
    requires i < |rows| && rows[i].role == ""
    ensures !TableValid(rows, nextId)
  {
    RoleValues();
    assert ParseRole(rows[i].role).None?;
  }

  /** A record the database accepts as a new row: it fits the columns and
      clashes with no stored e-mail, username or primary key. */
  predicate Insertable(rows: seq<UserRecord>, nextId: nat, u: UserRecord) {
    && FitsColumns(u)
    && u.id == nextId
    && forall i | 0 <= i < |rows| :: rows[i].email != u.email && rows[i].username != u.username
  }

  /** Appending an insertable row keeps the database constraints, and the
      service invariant when the row's choices are valid too. */
  lemma AppendKeepsInvariants(rows: seq<UserRecord>, nextId: nat, u: UserRecord)
    requires TableConsistent(rows, nextId) && Insertable(rows, nextId, u)
    ensures TableConsistent(rows + [u], nextId + 1)
    ensures TableValid(rows, nextId) && HasChoiceValues(u) ==> TableValid(rows + [u], nextId + 1)
  {
    var all := rows + [u];
    forall i, j | 0 <= i < j < |all|
      ensures all[i].id != all[j].id && all[i].email != all[j].email
              && all[i].username != all[j].username
    {
      assert all[i] == rows[i];
      if j < |rows| {
        assert all[j] == rows[j];
      }
    }
    assert forall i | 0 <= i < |rows| :: all[i] == rows[i];
  }

  /** The positions of the rows whose e-mail is `email`, in table order. */
  function EmailMatches(rows: seq<UserRecord>, email: string): (m: seq<nat>)
    ensures forall k | 0 <= k < |m| :: m[k] < |rows| && rows[m[k]].email == email
    ensures forall i | 0 <= i < |rows| && rows[i].email == email :: i in m
    decreases |rows|
  {
    if rows == [] then []
    else
      var last := |rows| - 1;
      EmailMatches(rows[..last], email) + (if rows[last].email == email then [last] else [])
  }

  datatype LookupError = DoesNotExist | MultipleObjectsReturned

  /** `get(email=...)`: the position of the one row with that e-mail. */
  function LookupByEmail(rows: seq<UserRecord>, email: string): (r: Result<nat, LookupError>)
    ensures r.Ok? ==> r.value < |rows| && rows[r.value].email == email
    ensures r == Err(DoesNotExist) <==> forall i | 0 <= i < |rows| :: rows[i].email != email
  {
    var m := EmailMatches(rows, email);
    if |m| == 0 then Err(DoesNotExist)
    else if |m| == 1 then Ok(m[0])
    else Err(MultipleObjectsReturned)
  }

  lemma {:induction false} NoEmailMatches(rows: seq<UserRecord>, email: string)
    requires forall j | 0 <= j < |rows| :: rows[j].email != email
    ensures EmailMatches(rows, email) == []
    decreases |rows|
  {
    if rows != [] {
      NoEmailMatches(rows[..|rows| - 1], email);
    }
  }

  /** With unique e-mails, the e-mail of a stored row matches that row only. */
  lemma {:induction false} UniqueEmailMatches(rows: seq<UserRecord>, i: nat)
    requires KeysUnique(rows)
    requires i < |rows|
    ensures EmailMatches(rows, rows[i].email) == [i]
    decreases |rows|
  {
    var last := |rows| - 1;
    var prefix := rows[..last];
    if i == last {
      forall j | 0 <= j < |prefix|
        ensures prefix[j].email != rows[i].email
      {
        assert prefix[j] == rows[j];
      }
      NoEmailMatches(prefix, rows[i].email);
    } else {
      assert rows[i].email != rows[last].email;
      assert prefix[i] == rows[i];
      UniqueEmailMatches(prefix, i);
    }
  }

  /** With unique e-mails, the e-mail of any stored row finds exactly that
      row: the login key identifies a user. */
  lemma EmailIdentifiesUser(rows: seq<UserRecord>, i: nat)
    requires KeysUnique(rows)
    requires i < |rows|
    ensures LookupByEmail(rows, NaturalKey(rows[i])) == Ok(i)
  {
    UniqueEmailMatches(rows, i);
  }
}
