/** The testing-only registration endpoint (blueprints/auth/auth_bp.py): the
    same presence and role guards as the wired variant, then an email guard
    before the id guard, and a commit whose failure is caught. */
module BlueprintAuth {
  import opened Outcomes
  import opened Store
  import Auth

  /** create_user of this variant: the reply and, on success, the row to
      insert.  Guards run in the order presence, role, email, id; a null
      last_name fails the NOT NULL commit, which is rolled back. */
  function CreateUser(users: seq<User>, id: Option<string>, firstName: Option<string>, lastName: Option<string>,
                      email: Option<string>, role: Option<string>, clerkid: Option<string>): (r: Response<User>)
    ensures !Auth.RequiredGiven(id, firstName, email, role, clerkid) ==> r == Err(400, Auth.MissingFieldsMessage)
    ensures Auth.RequiredGiven(id, firstName, email, role, clerkid) && Auth.RoleNamed(role.value).None?
            ==> r == Err(400, Auth.BadRoleMessage)
    ensures (Auth.RequiredGiven(id, firstName, email, role, clerkid) && Auth.RoleNamed(role.value).Some?
             && Auth.EmailTaken(users, email.value))
            ==> r == Err(400, "User with email '" + email.value + "' already exists.")
    ensures (Auth.RequiredGiven(id, firstName, email, role, clerkid) && Auth.RoleNamed(role.value).Some?
             && !Auth.EmailTaken(users, email.value) && Auth.IdTaken(users, id.value))
            ==> r == Err(400, "User with ID '" + id.value + "' already exists.")
    ensures r.Ok? <==> Auth.RequiredGiven(id, firstName, email, role, clerkid) && Auth.RoleNamed(role.value).Some?
                       && !Auth.EmailTaken(users, email.value) && !Auth.IdTaken(users, id.value) && lastName.Some?
    ensures r.Ok? ==> (r.status == 201 && r.body ==
      User(id.value, clerkid.value, email.value, firstName.value, lastName.value, Auth.RoleNamed(role.value).value))
    ensures r.Err? && r.status != 400 ==> r == Err(500, "Failed to register user: IntegrityError")
  {
    if !Auth.RequiredGiven(id, firstName, email, role, clerkid) then Err(400, Auth.MissingFieldsMessage)
    else if Auth.RoleNamed(role.value).None? then Err(400, Auth.BadRoleMessage)
    else if Auth.EmailTaken(users, email.value) then Err(400, "User with email '" + email.value + "' already exists.")
    else if Auth.IdTaken(users, id.value) then Err(400, "User with ID '" + id.value + "' already exists.")
    else if lastName.None? then Err(500, "Failed to register user: IntegrityError")
    else Ok(201, User(id.value, clerkid.value, email.value, firstName.value, lastName.value, Auth.RoleNamed(role.value).value))
  }

  /** The two variants agree except on a stored email: where this one answers
      400 before the id check, the wired one reaches the commit and fails
      with 500 (or answers the duplicate-id 400 first). */
  lemma VariantsAgree(users: seq<User>, id: Option<string>, firstName: Option<string>, lastName: Option<string>,
                      email: Option<string>, role: Option<string>, clerkid: Option<string>)
    ensures CreateUser(users, id, firstName, lastName, email, role, clerkid).Ok?
        <==> Auth.CreateUser(users, id, firstName, lastName, email, role, clerkid).Ok?
    ensures CreateUser(users, id, firstName, lastName, email, role, clerkid).Ok? ==>
      CreateUser(users, id, firstName, lastName, email, role, clerkid).body
        == Auth.CreateUser(users, id, firstName, lastName, email, role, clerkid).body
    ensures Auth.RequiredGiven(id, firstName, email, role, clerkid) && Auth.RoleNamed(role.value).Some?
            && Auth.EmailTaken(users, email.value) && !Auth.IdTaken(users, id.value) ==>
      && CreateUser(users, id, firstName, lastName, email, role, clerkid).status == 400
      && Auth.CreateUser(users, id, firstName, lastName, email, role, clerkid) == Err(500, "IntegrityError")
  {
  }

  /** A successful registration keeps user ids and emails unique. */
  lemma CreateUserKeepsKeys(users: seq<User>, id: Option<string>, firstName: Option<string>, lastName: Option<string>,
                            email: Option<string>, role: Option<string>, clerkid: Option<string>)
    requires UniqueUserIds(users) && UniqueEmails(users)
    requires CreateUser(users, id, firstName, lastName, email, role, clerkid).Ok?
    ensures var u := CreateUser(users, id, firstName, lastName, email, role, clerkid).body;
      UniqueUserIds(users + [u]) && UniqueEmails(users + [u])
  {
    VariantsAgree(users, id, firstName, lastName, email, role, clerkid);
    Auth.CreateUserKeepsKeys(users, id, firstName, lastName, email, role, clerkid);
  }

  /** create_user against the database. */
  method Register(db: Clinic, id: Option<string>, firstName: Option<string>, lastName: Option<string>,
                  email: Option<string>, role: Option<string>, clerkid: Option<string>) returns (r: Reply)
    requires db.Valid()
    modifies db
    ensures db.Valid()
    ensures var c := CreateUser(old(db.users), id, firstName, lastName, email, role, clerkid);
      && (c.Ok? ==> r == Ok(201, Auth.RegisteredMessage) && db.users == old(db.users) + [c.body])
      && (c.Err? ==> r == Err(c.status, c.message) && db.users == old(db.users))
    ensures OthersUnchanged(db, Users)
  {
    var c := CreateUser(db.users, id, firstName, lastName, email, role, clerkid);
    if c.Ok? {
      CreateUserKeepsKeys(db.users, id, firstName, lastName, email, role, clerkid);
      db.users := db.users + [c.body];
      r := Ok(201, Auth.RegisteredMessage);
    } else {
      r := Err(c.status, c.message);
    }
  }
}
