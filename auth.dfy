/** User registration as the application wires it (auth/auth_bp.py):
    presence and role guards, a duplicate-id guard, then an insert whose
    commit is not guarded, so the table's own constraints decide the rest. */
module Auth {
  import opened Outcomes
  import opened Store

  const MissingFieldsMessage: string :=
    "ID, first name, email, role, and clerkid are required, and role must be either 'PATIENT' or 'DOCTOR'"
  const BadRoleMessage: string := "Role must be either 'PATIENT' or 'DOCTOR'"
  const RegisteredMessage: string := "User registered successfully"

  /** `role in ['PATIENT', 'DOCTOR']`, as the enumeration value it names. */
  function RoleNamed(role: string): (r: Option<Role>)
    ensures r == Some(Patient) <==> role == "PATIENT"
    ensures r == Some(Doctor) <==> role == "DOCTOR"
    ensures r.None? <==> role != "PATIENT" && role != "DOCTOR"
  {
    if role == "PATIENT" then Some(Patient)
    else if role == "DOCTOR" then Some(Doctor)
    else None
  }

  /** The required fields of both create_user variants are all given (last_name is not among them). */
  predicate RequiredGiven(id: Option<string>, firstName: Option<string>, email: Option<string>,
                          role: Option<string>, clerkid: Option<string>)
  {
    Given(id) && Given(firstName) && Given(email) && Given(role) && Given(clerkid)
  }

  predicate IdTaken(users: seq<User>, id: string) {
    exists i :: 0 <= i < |users| && users[i].id == id
  }

  predicate EmailTaken(users: seq<User>, email: string) {
    exists i :: 0 <= i < |users| && users[i].email == email
  }

  /** create_user: the reply and, on success, the row to insert.  A null
      last_name or an email already stored makes the unguarded commit raise
      IntegrityError, which surfaces as a 500. */
  function CreateUser(users: seq<User>, id: Option<string>, firstName: Option<string>, lastName: Option<string>,
                      email: Option<string>, role: Option<string>, clerkid: Option<string>): (r: Response<User>)
    ensures !RequiredGiven(id, firstName, email, role, clerkid) ==> r == Err(400, MissingFieldsMessage)
    ensures RequiredGiven(id, firstName, email, role, clerkid) && RoleNamed(role.value).None?
            ==> r == Err(400, BadRoleMessage)
    ensures (RequiredGiven(id, firstName, email, role, clerkid) && RoleNamed(role.value).Some?
             && IdTaken(users, id.value)) ==> r == Err(400, "User already exists")
    ensures r.Ok? <==> RequiredGiven(id, firstName, email, role, clerkid) && RoleNamed(role.value).Some?
                       && !IdTaken(users, id.value) && lastName.Some? && !EmailTaken(users, email.value)
    ensures r.Ok? ==> (r.status == 201 && r.body ==
      User(id.value, clerkid.value, email.value, firstName.value, lastName.value, RoleNamed(role.value).value))
    ensures r.Err? && r.status != 400 ==> r == Err(500, "IntegrityError")
  {
    if !RequiredGiven(id, firstName, email, role, clerkid) then Err(400, MissingFieldsMessage)
    else if RoleNamed(role.value).None? then Err(400, BadRoleMessage)
    else if IdTaken(users, id.value) then Err(400, "User already exists")
    else if lastName.None? || EmailTaken(users, email.value) then Err(500, "IntegrityError")
    else Ok(201, User(id.value, clerkid.value, email.value, firstName.value, lastName.value, RoleNamed(role.value).value))
  }

  /** A successful registration keeps user ids and emails unique. */
  lemma CreateUserKeepsKeys(users: seq<User>, id: Option<string>, firstName: Option<string>, lastName: Option<string>,
                            email: Option<string>, role: Option<string>, clerkid: Option<string>)
    requires UniqueUserIds(users) && UniqueEmails(users)
    requires CreateUser(users, id, firstName, lastName, email, role, clerkid).Ok?
    ensures var u := CreateUser(users, id, firstName, lastName, email, role, clerkid).body;
      UniqueUserIds(users + [u]) && UniqueEmails(users + [u])
  {
    var u := CreateUser(users, id, firstName, lastName, email, role, clerkid).body;
    var after := users + [u];
    forall i, j | 0 <= i < j < |after| ensures after[i].id != after[j].id && after[i].email != after[j].email {
      if j == |users| {
        assert after[i] == users[i];
      }
    }
  }

  /** create_user against the database: the reply of CreateUser, and the
      user table grows by exactly the new row when it succeeds. */
  method Register(db: Clinic, id: Option<string>, firstName: Option<string>, lastName: Option<string>,
                  email: Option<string>, role: Option<string>, clerkid: Option<string>) returns (r: Reply)
    requires db.Valid()
    modifies db
    ensures db.Valid()
    ensures var c := CreateUser(old(db.users), id, firstName, lastName, email, role, clerkid);
      && (c.Ok? ==> r == Ok(201, RegisteredMessage) && db.users == old(db.users) + [c.body])
      && (c.Err? ==> r == Err(c.status, c.message) && db.users == old(db.users))
    ensures OthersUnchanged(db, Users)
  {
    var c := CreateUser(db.users, id, firstName, lastName, email, role, clerkid);
    if c.Ok? {
      CreateUserKeepsKeys(db.users, id, firstName, lastName, email, role, clerkid);
      db.users := db.users + [c.body];
      r := Ok(201, RegisteredMessage);
    } else {
      r := Err(c.status, c.message);
    }
  }
}
