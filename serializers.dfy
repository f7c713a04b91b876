/** `UserSerializer`: which fields a client may write, which it gets back,
    how a request body is validated against the model's column rules, and
    how `create` builds a user from the validated data alone. */
module Serializers {
  import opened Wrappers
  import opened Models
  import opened Store

  /** A value of a serialized user. */
  datatype Json = JText(text: string) | JInt(number: int) | JNull

  /** A request body or validated data: field name to a string or null. */
  type Input = map<string, Option<string>>

  /** The serializer's fields, in declaration order. */
  const Fields: seq<string> :=
    ["id", "username", "first_name", "last_name", "email", "role", "password",
     "phone_number", "address", "date_of_birth", "profile_picture", "gender"]

  /** `id` is the auto primary key; `role` is declared read-only. */
  const ReadOnlyFields: set<string> := {"id", "role"}
  const WriteOnlyFields: set<string> := {"password"}

  /** The fields a client may supply. */
  const WritableFields: set<string> :=
    {"username", "first_name", "last_name", "email", "password",
     "phone_number", "address", "date_of_birth", "profile_picture", "gender"}

  /** The fields a client gets back. */
  const ReadableFields: set<string> :=
    {"id", "username", "first_name", "last_name", "email", "role",
     "phone_number", "address", "date_of_birth", "profile_picture", "gender"}

  /** The writable fields are the listed fields that are not read-only, and
      the readable ones are those that are not write-only. */
  lemma FieldPartition()
    ensures WritableFields == (set f | f in Fields && f !in ReadOnlyFields)
    ensures ReadableFields == (set f | f in Fields && f !in WriteOnlyFields)
    ensures WritableFields + ReadOnlyFields == ReadableFields + WriteOnlyFields
  {
    var w := set f | f in Fields && f !in ReadOnlyFields;
    var r := set f | f in Fields && f !in WriteOnlyFields;
    forall f | f in Fields
      ensures f in w <==> f in WritableFields
      ensures f in r <==> f in ReadableFields
    {
    }
    assert w == WritableFields;
    assert r == ReadableFields;
  }

  /** The validation rules the serializer derives for a model field. */
  datatype FieldRule = FieldRule(
    required: bool,
    allowNull: bool,
    allowBlank: bool,
    maxLength: Option<nat>,
    choices: Option<set<string>>,
    unique: bool,
    fileUpload: bool)

  function RuleOf(f: string): FieldRule {
    if f == "username" then
      FieldRule(true, false, false, Some(UsernameMaxLength), None, true, false)
    else if f == "first_name" || f == "last_name" then
      FieldRule(false, false, true, Some(NameMaxLength), None, false, false)
    else if f == "email" then
      FieldRule(true, false, false, Some(EmailMaxLength), None, true, false)
    else if f == "password" then
      FieldRule(true, false, false, Some(PasswordMaxLength), None, false, false)
    else if f == "phone_number" then
      FieldRule(false, true, true, Some(PhoneNumberMaxLength), None, false, false)
    else if f == "date_of_birth" then
      FieldRule(false, true, false, None, None, false, false)
    else if f == "profile_picture" then
      FieldRule(false, true, false, None, None, false, true)
    else if f == "gender" then
      FieldRule(false, true, true, None, Some(ChoiceValues(GenderChoices)), false, false)
    else
      FieldRule(false, true, true, None, None, false, false)
  }

  /** Whether a stored user already holds `s` in the unique column `f`. */
  predicate Taken(rows: seq<UserRecord>, f: string, s: string) {
    exists i | 0 <= i < |rows| ::
      (f == "username" && rows[i].username == s) || (f == "email" && rows[i].email == s)
  }

  /** What a request body holds for field `f`: nothing, or a string or null. */
  function Entry(data: Input, f: string): Option<Option<string>> {
    if f in data then Some(data[f]) else None
  }

  /** Whether what was submitted for field `f` passes its rule. */
  predicate EntryAccepted(f: string, entry: Option<Option<string>>, rows: seq<UserRecord>) {
    var rule := RuleOf(f);
    match entry
    case None => !rule.required
    case Some(value) =>
      match value
      case None => rule.allowNull
      case Some(s) =>
        && !rule.fileUpload
        && (s == "" ==> rule.allowBlank)
        && (rule.maxLength.Some? ==> |s| <= rule.maxLength.value)
        && (rule.choices.Some? && s != "" ==> s in rule.choices.value)
        && !(rule.unique && Taken(rows, f, s))
  }

  /** Whether field `f` of a request body passes its rule. */
  predicate Accepts(f: string, data: Input, rows: seq<UserRecord>) {
    EntryAccepted(f, Entry(data, f), rows)
  }

  /** `is_valid`: either the names of the writable fields that fail, or the
      submitted values of the writable fields, and nothing else. */
  function Validate(data: Input, rows: seq<UserRecord>): (r: Result<Input, set<string>>)
    ensures r.Err? <==> exists f | f in WritableFields :: !Accepts(f, data, rows)
    ensures r.Err? ==> r.error != {} && r.error <= WritableFields
    ensures r.Err? ==> forall f | f in r.error :: !Accepts(f, data, rows)
    ensures r.Err? ==> forall f | f in WritableFields && !Accepts(f, data, rows) :: f in r.error
    ensures r.Ok? ==> r.value.Keys == data.Keys * WritableFields
    ensures r.Ok? ==> forall f | f in r.value :: r.value[f] == data[f]
    ensures r.Ok? ==> "role" !in r.value && "id" !in r.value
  {
    var failing := set f | f in WritableFields && !Accepts(f, data, rows);
    assert "role" !in WritableFields && "id" !in WritableFields;
    if failing != {} then Err(failing)
    else
      var kept := map f | f in data && f in WritableFields :: data[f];
      assert kept.Keys == data.Keys * WritableFields;
      assert forall f | f in WritableFields :: f !in failing;
      Ok(kept)
  }

  /** The rules follow the model's columns: username, e-mail and password
      must be supplied; username and e-mail are unique; the columns declared
      `null=True` take null; gender is limited to its choices; the character
      columns keep their widths. */
  lemma FieldRulesFollowModel(f: string, rows: seq<UserRecord>)
    requires f in WritableFields
    ensures EntryAccepted(f, None, rows) <==> f !in {"username", "email", "password"}
    ensures EntryAccepted(f, Some(None), rows) <==>
              f in {"phone_number", "address", "date_of_birth", "profile_picture", "gender"}
    ensures EntryAccepted(f, Some(Some("")), rows) <==>
              f in {"first_name", "last_name", "phone_number", "address", "gender"}
    ensures RuleOf(f).unique <==> f in {"username", "email"}
    ensures RuleOf(f).choices.Some? <==> f == "gender"
    ensures f == "gender" ==> RuleOf(f).choices == Some({"Male", "Female", "Other"})
    ensures f == "email" ==> RuleOf(f).maxLength == Some(254)
    ensures f == "phone_number" ==> RuleOf(f).maxLength == Some(15)
  {
    GenderValues();
  }

  function TextOf(v: Input, f: string): string {
    if f in v && v[f].Some? then v[f].value else ""
  }

  function NullableOf(v: Input, f: string): Option<string> {
    if f in v then v[f] else None
  }

  /** `create_user(**validated_data)` with primary key `id`: each column is
      taken from the validated data or is the column's default; the role
      column, which the data never carries, keeps its default, the empty
      string. The password is stored as `encode` of the submitted one. */
  function NewRecord(v: Input, id: nat, encode: string -> string): UserRecord {
    UserRecord(
      id := id,
      username := TextOf(v, "username"),
      firstName := TextOf(v, "first_name"),
      lastName := TextOf(v, "last_name"),
      email := TextOf(v, "email"),
      role := "",
      password := encode(TextOf(v, "password")),
      phoneNumber := NullableOf(v, "phone_number"),
      address := NullableOf(v, "address"),
      dateOfBirth := NullableOf(v, "date_of_birth"),
      profilePicture := NullableOf(v, "profile_picture"),
      gender := NullableOf(v, "gender"),
      employeeId := None,
      isActive := true,
      isStaff := false,
      isSuperuser := false)
  }

  /** A user made by `create_user` from validated data holds no role and no
      privilege, is active, and stores the encoded password. */
  lemma NewUserUnprivileged(data: Input, rows: seq<UserRecord>, id: nat, encode: string -> string)
    requires Validate(data, rows).Ok?
    ensures var u := NewRecord(Validate(data, rows).value, id, encode);
            && ParseRole(u.role).None?
            && !u.isStaff && !u.isSuperuser && u.isActive
            && u.password == encode(data["password"].value)
  {
    RoleValues();
    ValidatedHasRequiredFields(data, rows);
    assert RequiredFields + [UsernameField, "password"] == ["username", "email", "password"];
    assert "password" in RequiredFields + [UsernameField, "password"];
  }

  function ToJson(v: Option<string>): Json {
    match v
    case Some(s) => JText(s)
    case None => JNull
  }

  /** The serialized value of field `f` of a user. */
  function FieldValue(u: UserRecord, f: string): Json {
    if f == "id" then JInt(u.id)
    else if f == "username" then JText(u.username)
    else if f == "first_name" then JText(u.firstName)
    else if f == "last_name" then JText(u.lastName)
    else if f == "email" then JText(u.email)
    else if f == "role" then JText(u.role)
    else if f == "phone_number" then ToJson(u.phoneNumber)
    else if f == "address" then ToJson(u.address)
    else if f == "date_of_birth" then ToJson(u.dateOfBirth)
    else if f == "profile_picture" then ToJson(u.profilePicture)
    else ToJson(u.gender)
  }

  /** `to_representation`: every listed field except the write-only password. */
  function Representation(u: UserRecord): (r: map<string, Json>)
    ensures r.Keys == ReadableFields
    ensures "password" !in r
    ensures r["email"] == JText(u.email) && r["role"] == JText(u.role)
  {
    map f | f in ReadableFields :: FieldValue(u, f)
  }

  /** Changing the role of a user changes its representation in the role
      field only. */
  lemma RepresentationOfRole(u: UserRecord, role: string)
    ensures Representation(u.(role := role)) == Representation(u)["role" := JText(role)]
  {
    var changed := Representation(u.(role := role));
    var updated := Representation(u)["role" := JText(role)];
    assert forall f | f in ReadableFields :: changed[f] == updated[f];
    assert changed.Keys == updated.Keys;
  }

  /** Validation reads the writable fields of a body and nothing else. */
  lemma ValidateReadsWritable(d1: Input, d2: Input, rows: seq<UserRecord>)
    requires forall f | f in WritableFields :: Entry(d1, f) == Entry(d2, f)
    ensures Validate(d1, rows) == Validate(d2, rows)
  {
    assert forall f | f in WritableFields :: Accepts(f, d1, rows) == Accepts(f, d2, rows);
    var failing := set f | f in WritableFields && !Accepts(f, d1, rows);
    assert (set f | f in WritableFields && !Accepts(f, d2, rows)) == failing;
    var kept := map f | f in d1 && f in WritableFields :: d1[f];
    assert forall f | f in WritableFields :: (f in d1 <==> f in d2);
    assert (map f | f in d2 && f in WritableFields :: d2[f]) == kept;
  }

  /** A role in the request body has no effect on validation: the field is
      read-only, so changing or removing it gives the same outcome. */
  lemma RoleInputIgnored(data: Input, rows: seq<UserRecord>, role: Option<string>)
    ensures Validate(data["role" := role], rows) == Validate(data, rows)
    ensures Validate(data - {"role"}, rows) == Validate(data, rows)
  {
    assert "role" !in WritableFields;
    ValidateReadsWritable(data["role" := role], data, rows);
    ValidateReadsWritable(data - {"role"}, data, rows);
  }

  /** Validated data names the user, its e-mail (the login key) and its
      password, all non-blank. */
  lemma ValidatedHasRequiredFields(data: Input, rows: seq<UserRecord>)
    requires Validate(data, rows).Ok?
    ensures forall f | f in RequiredFields + [UsernameField, "password"] ::
              f in Validate(data, rows).value && Validate(data, rows).value[f].Some?
              && Validate(data, rows).value[f].value != ""
  {
    var v := Validate(data, rows).value;
    assert RequiredFields + [UsernameField, "password"] == ["username", "email", "password"];
    forall f | f in ["username", "email", "password"]
      ensures f in v && v[f].Some? && v[f].value != ""
    {
      assert f in WritableFields;
      assert Accepts(f, data, rows);
    }
  }

  /** A user built from validated data is a row the database accepts, and
      its gender is one of the choices. */
  lemma ValidatedRecordInsertable(data: Input, rows: seq<UserRecord>, nextId: nat,
                                  encode: string -> string)
    requires Validate(data, rows).Ok?
    ensures Insertable(rows, nextId, NewRecord(Validate(data, rows).value, nextId, encode))
    ensures GenderAllowed(NewRecord(Validate(data, rows).value, nextId, encode).gender)
  {
    var v := Validate(data, rows).value;
    var u := NewRecord(v, nextId, encode);
    forall f | f in WritableFields
      ensures Accepts(f, data, rows)
    {
    }
    assert "username" in WritableFields && "email" in WritableFields;
    assert "first_name" in WritableFields && "last_name" in WritableFields;
    assert "phone_number" in WritableFields && "gender" in WritableFields;
    forall i | 0 <= i < |rows|
      ensures rows[i].email != u.email && rows[i].username != u.username
    {
      assert !Taken(rows, "email", u.email);
      assert !Taken(rows, "username", u.username);
    }
    if u.gender.Some? && u.gender.value != "" {
      GenderChoicesAreTheGenders(ParseGender(u.gender.value).value);
    }
  }

  /** The output for a user built from `v` shows each column as `v` gave it;
      the text columns must have been given as strings. */
  lemma EchoColumn(v: Input, id: nat, encode: string -> string, f: string)
    requires f in v && f in WritableFields && f != "password"
    requires f == "username" || f == "first_name" || f == "last_name" || f == "email" ==> v[f].Some?
    ensures Representation(NewRecord(v, id, encode))[f] == ToJson(v[f])
  {
  }

  /** The text columns are not nullable: validated data holds strings there. */
  lemma TextColumnsNotNull(data: Input, rows: seq<UserRecord>)
    requires Validate(data, rows).Ok?
    ensures forall f | f in Validate(data, rows).value &&
                       (f == "username" || f == "first_name" || f == "last_name" || f == "email") ::
              Validate(data, rows).value[f].Some?
  {
    assert "username" in WritableFields && Accepts("username", data, rows);
    assert "first_name" in WritableFields && Accepts("first_name", data, rows);
    assert "last_name" in WritableFields && Accepts("last_name", data, rows);
    assert "email" in WritableFields && Accepts("email", data, rows);
  }

  /** Round trip: every readable field a client submitted is echoed back
      unchanged by the representation of the user created from it. */
  lemma EchoSubmittedFields(data: Input, rows: seq<UserRecord>, id: nat,
                            encode: string -> string, f: string)
    requires Validate(data, rows).Ok?
    requires f in Validate(data, rows).value && f != "password"
    ensures Representation(NewRecord(Validate(data, rows).value, id, encode))[f]
            == ToJson(Validate(data, rows).value[f])
  {
    TextColumnsNotNull(data, rows);
    EchoColumn(Validate(data, rows).value, id, encode, f);
  }

  /** `UserSerializer.create`: inserts the user built from the validated
      data and returns it. */
  method Create(table: UserTable, v: Input, encode: string -> string) returns (u: UserRecord)
    requires table.Consistent()
    requires Insertable(table.rows, table.nextId, NewRecord(v, table.nextId, encode))
    modifies table
    ensures table.Consistent()
    ensures u == NewRecord(v, old(table.nextId), encode)
    ensures table.rows == old(table.rows) + [u]
    ensures table.nextId == old(table.nextId) + 1
  {
    u := NewRecord(v, table.nextId, encode);
    var index := table.Insert(u);
  }
}
