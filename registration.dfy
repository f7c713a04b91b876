/** `RegisterView.create`: the serializer validates the body and creates
    the user, then the view fetches that user by the e-mail it reported,
    overwrites the role with Patient, saves it and reports that role. */
module Registration {
  import opened Wrappers
  import opened Models
  import opened Store
  import opened Serializers

  datatype Response = Created(body: map<string, Json>) | BadRequest(fields: set<string>)

  function StatusCode(r: Response): nat {
    match r
    case Created(_) => 201
    case BadRequest(_) => 400
  }

  /** The user a successful registration leaves in the table. */
  function RegisteredUser(v: Input, id: nat, encode: string -> string): UserRecord {
    NewRecord(v, id, encode).(role := RoleName(Patient))
  }

  /** The response, the rows and the next primary key after a registration. */
  datatype Outcome = Outcome(response: Response, rows: seq<UserRecord>, nextId: nat)

  function RegisterOutcome(rows: seq<UserRecord>, nextId: nat, data: Input,
                           encode: string -> string): (o: Outcome)
    ensures o.response.Created? <==> forall f | f in WritableFields :: Accepts(f, data, rows)
    ensures o.response.BadRequest? ==>
              && o.response.fields != {} && o.response.fields <= WritableFields
              && (forall f | f in o.response.fields :: !Accepts(f, data, rows))
              && (forall f | f in WritableFields && !Accepts(f, data, rows) :: f in o.response.fields)
              && o.rows == rows && o.nextId == nextId
  {
    match Validate(data, rows)
    case Err(fields) => Outcome(BadRequest(fields), rows, nextId)
    case Ok(v) =>
      var u := RegisteredUser(v, nextId, encode);
      Outcome(Created(Representation(u)), rows + [u], nextId + 1)
  }

  /** Whatever the body says about the role, a registration that succeeds
      stores exactly one new user, with role Patient and the next primary
      key, reports role Patient and the stored user's fields, and leaves
      every earlier row as it was. A registration that fails changes
      nothing. */
  lemma RegistrationForcesPatient(rows: seq<UserRecord>, nextId: nat, data: Input,
                                  encode: string -> string)
    ensures var o := RegisterOutcome(rows, nextId, data, encode);
            StatusCode(o.response) == 201 ==>
              && |o.rows| == |rows| + 1
              && o.rows[..|rows|] == rows
              && o.rows[|rows|].role == "Patient"
              && o.rows[|rows|].id == nextId
              && o.response.body == Representation(o.rows[|rows|])
              && o.response.body["role"] == JText("Patient")
              && o.nextId == nextId + 1
    ensures var o := RegisterOutcome(rows, nextId, data, encode);
            StatusCode(o.response) == 400 ==> o.rows == rows && o.nextId == nextId
  {
    var o := RegisterOutcome(rows, nextId, data, encode);
    match Validate(data, rows)
    case Err(_) =>
    case Ok(v) =>
      var u := RegisteredUser(v, nextId, encode);
      assert o == Outcome(Created(Representation(u)), rows + [u], nextId + 1);
      assert (rows + [u])[..|rows|] == rows;
      assert u.role == "Patient";
  }

  /** A role supplied in the body, Admin included, changes nothing about the
      registration: there is no privilege escalation through it. */
  lemma RegistrationIgnoresRole(rows: seq<UserRecord>, nextId: nat, data: Input,
                                encode: string -> string, role: Option<string>)
    ensures RegisterOutcome(rows, nextId, data["role" := role], encode)
            == RegisterOutcome(rows, nextId, data, encode)
  {
    RoleInputIgnored(data, rows, role);
  }

  /** Registration keeps the table invariant: unique keys, column widths,
      and roles and genders from their choices. */
  lemma RegistrationPreservesValid(rows: seq<UserRecord>, nextId: nat, data: Input,
                                   encode: string -> string)
    requires TableValid(rows, nextId)
    ensures var o := RegisterOutcome(rows, nextId, data, encode);
            TableValid(o.rows, o.nextId)
  {
    match Validate(data, rows)
    case Err(_) =>
    case Ok(v) =>
      ValidatedRecordInsertable(data, rows, nextId, encode);
      var u := RegisteredUser(v, nextId, encode);
      RoleChoicesAreTheRoles(Patient);
      assert Insertable(rows, nextId, u);
      assert HasChoiceValues(u);
      AppendKeepsInvariants(rows, nextId, u);
      assert RegisterOutcome(rows, nextId, data, encode).rows == rows + [u];
  }

  /** A second registration with an e-mail already in the table is refused
      with an error on the e-mail field, and the table is unchanged. */
  lemma DuplicateEmailRefused(rows: seq<UserRecord>, nextId: nat, data: Input,
                              encode: string -> string, i: nat)
    requires i < |rows|
    requires "email" in data && data["email"] == Some(rows[i].email)
    ensures var o := RegisterOutcome(rows, nextId, data, encode);
            o.response.BadRequest? && "email" in o.response.fields && o.rows == rows
  {
    assert Taken(rows, "email", rows[i].email);
    assert "email" in WritableFields && !Accepts("email", data, rows);
  }

  /** The registration test: on a table of three users, a body with only a
      username, an e-mail and a password registers a fourth user, found by
      that e-mail, with role Patient. */
  lemma RegistrationTestOutcome(rows: seq<UserRecord>, nextId: nat, encode: string -> string)
    requires TableValid(rows, nextId) && |rows| == 3
    requires forall i | 0 <= i < |rows| ::
               rows[i].email != "newpatient@example.com" && rows[i].username != "newpatient"
    ensures var data := map["username" := Some("newpatient"),
                            "email" := Some("newpatient@example.com"),
                            "password" := Some("password")];
            var o := RegisterOutcome(rows, nextId, data, encode);
            && StatusCode(o.response) == 201
            && |o.rows| == 4
            && LookupByEmail(o.rows, "newpatient@example.com") == Ok(3)
            && o.rows[3].role == "Patient"
  {
    var data := map["username" := Some("newpatient"),
                    "email" := Some("newpatient@example.com"),
                    "password" := Some("password")];
    forall f | f in WritableFields
      ensures Accepts(f, data, rows)
    {
      assert !Taken(rows, "username", "newpatient");
      assert !Taken(rows, "email", "newpatient@example.com");
    }
    assert Validate(data, rows).Ok?;
    RegistrationForcesPatient(rows, nextId, data, encode);
    RegistrationPreservesValid(rows, nextId, data, encode);
    var o := RegisterOutcome(rows, nextId, data, encode);
    EmailIdentifiesUser(o.rows, 3);
  }

  /** After the insert, the row written back by the view is one the
      database accepts in place of the inserted one. */
  lemma PatientRowSavable(rows: seq<UserRecord>, nextId: nat, created: UserRecord)
    requires TableConsistent(rows, nextId)
    requires Insertable(rows, nextId, created)
    ensures var user := created.(role := RoleName(Patient));
            && FitsColumns(user)
            && forall j | 0 <= j < |rows + [created]| && j != |rows| ::
                 (rows + [created])[j].email != user.email && (rows + [created])[j].username != user.username
  {
    RoleChoicesAreTheRoles(Patient);
  }

  /** The outcome of a registration whose body validates. */
  lemma RegisterOutcomeOnSuccess(rows: seq<UserRecord>, nextId: nat, data: Input,
                                 encode: string -> string)
    requires Validate(data, rows).Ok?
    ensures var u := RegisteredUser(Validate(data, rows).value, nextId, encode);
            RegisterOutcome(rows, nextId, data, encode)
            == Outcome(Created(Representation(u)), rows + [u], nextId + 1)
  {
  }

  /** What the view does once the body validates: the serializer inserts
      the user, the view fetches it again by the e-mail it reported, sets its
      role to Patient, saves it and reports that role. */
  method CreatePatient(table: UserTable, v: Input, encode: string -> string)
    returns (body: map<string, Json>)
    requires table.Consistent()
    requires Insertable(table.rows, table.nextId, NewRecord(v, table.nextId, encode))
    modifies table
    ensures table.Consistent()
    ensures table.rows == old(table.rows) + [RegisteredUser(v, old(table.nextId), encode)]
    ensures table.nextId == old(table.nextId) + 1
    ensures body == Representation(RegisteredUser(v, old(table.nextId), encode))
  {
    ghost var before := table.rows;
    var created := Create(table, v, encode);
    body := Representation(created);

    // User.objects.get(email=response.data['email']) finds the new row.
    EmailIdentifiesUser(table.rows, |before|);
    var found := LookupByEmail(table.rows, body["email"].text);
    var index := found.value;

    var user := table.rows[index].(role := RoleName(Patient));
    PatientRowSavable(before, old(table.nextId), created);
    table.Save(index, user);
    body := body["role" := JText(user.role)];
    RepresentationOfRole(created, user.role);
  }

  /** The view: open to every caller, it answers 201 with the new user or 400
      with the failing fields. The table may hold users whose role was never
      set (a superuser made by `createsuperuser`, say); registration keeps the
      database constraints, and the full invariant when it held before. */
  method Register(table: UserTable, data: Input, encode: string -> string) returns (resp: Response)
    requires table.Consistent()
    modifies table
    ensures table.Consistent()
    ensures old(table.Valid()) ==> table.Valid()
    ensures Outcome(resp, table.rows, table.nextId)
            == RegisterOutcome(old(table.rows), old(table.nextId), data, encode)
  {
    var validated := Validate(data, table.rows);
    if validated.Err? {
      resp := BadRequest(validated.error);
      return;
    }
    RegisterOutcomeOnSuccess(table.rows, table.nextId, data, encode);
    if table.Valid() {
      RegistrationPreservesValid(table.rows, table.nextId, data, encode);
    }
    ValidatedRecordInsertable(data, table.rows, table.nextId, encode);
    var body := CreatePatient(table, validated.value, encode);
    resp := Created(body);
  }
}
