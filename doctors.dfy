/** The doctor handlers (blueprints/doctor/doctor_bp.py): promoting a user to
    DOCTOR, posting, reading and patching the doctor's details, and the two
    dashboard listings. */
module Doctors {
  import opened Outcomes
  import opened Store

  /** The thirteen detail columns, in the order update_doctor_details tests them. */
  const DetailColumns: seq<string> := [
    "first_name", "last_name", "phone_number", "address", "email", "years_of_experience",
    "specialization", "department", "clinic_address", "consultation_fee", "available_days",
    "available_time", "hospital_id"]
  const DetailSet: set<string> := set k | k in DetailColumns

  const NotADoctorMessage: string := "Doctor not found"
  const NoDetailsMessage: string := "Doctor details not found"

  // ---------------------------------------------------------------------------
  // create_doctor

  /** The user table after create_doctor: the first user with the clerk id
      has role DOCTOR; without one the table is unchanged. */
  function Promoted(users: seq<User>, clerkid: string): (after: seq<User>)
    ensures |after| == |users|
    ensures forall i :: 0 <= i < |users| ==> after[i] == users[i].(role := after[i].role)
    ensures UserIndex(users, clerkid).None? ==> after == users
  {
    match UserIndex(users, clerkid)
    case None => users
    case Some(i) => users[i := users[i].(role := Doctor)]
  }

  /** Two tables whose rows carry the same clerk ids in the same order find
      a clerk id at the same position. */
  lemma {:induction false} SameClerkidsSameIndex(a: seq<User>, b: seq<User>, clerkid: string)
    requires |a| == |b| && forall i :: 0 <= i < |a| ==> a[i].clerkid == b[i].clerkid
    ensures UserIndex(a, clerkid) == UserIndex(b, clerkid)
    decreases |a|
  {
    if a != [] && a[0].clerkid != clerkid {
      SameClerkidsSameIndex(a[1..], b[1..], clerkid);
    }
  }

  /** create_doctor changes the role of the first user with the clerk id to
      DOCTOR and nothing else, after which that clerk id passes the DOCTOR guard. */
  lemma PromotedChangesOnlyRole(users: seq<User>, clerkid: string)
    requires FindUser(users, clerkid).Some?
    ensures var after := Promoted(users, clerkid);
      && |after| == |users|
      && (forall i :: 0 <= i < |users| ==> after[i] == users[i].(role := after[i].role))
      && (forall i :: 0 <= i < |users| && Some(i) != UserIndex(users, clerkid) ==> after[i] == users[i])
      && after[UserIndex(users, clerkid).value].role == Doctor
      && HasRole(after, Some(clerkid), Doctor)
  {
    var after := Promoted(users, clerkid);
    var i := UserIndex(users, clerkid).value;
    assert after == users[i := users[i].(role := Doctor)];
    SameClerkidsSameIndex(after, users, clerkid);
  }

  /** Promotion keeps user ids and emails unique. */
  lemma PromotedKeepsKeys(users: seq<User>, clerkid: string)
    ensures UniqueUserIds(users) ==> UniqueUserIds(Promoted(users, clerkid))
    ensures UniqueEmails(users) ==> UniqueEmails(Promoted(users, clerkid))
  {
  }

  /** Promoting twice is promoting once. */
  lemma PromotedIdempotent(users: seq<User>, clerkid: string)
    ensures Promoted(Promoted(users, clerkid), clerkid) == Promoted(users, clerkid)
  {
    var after := Promoted(users, clerkid);
    SameClerkidsSameIndex(after, users, clerkid);
  }

  /** create_doctor against the database. */
  method CreateDoctor(db: Clinic, clerkid: string) returns (r: Reply)
    requires db.Valid()
    modifies db
    ensures db.Valid()
    ensures FindUser(old(db.users), clerkid).None? ==> r == Err(400, "User not found")
    ensures FindUser(old(db.users), clerkid).Some? ==> r == Ok(200, "User role updated to DOCTOR successfully")
    ensures db.users == Promoted(old(db.users), clerkid)
    ensures OthersUnchanged(db, Users)
  {
    var found := UserIndex(db.users, clerkid);
    if found.None? {
      r := Err(400, "User not found");
      return;
    }
    PromotedChangesOnlyRole(db.users, clerkid);
    PromotedKeepsKeys(db.users, clerkid);
    var i := found.value;
    db.users := db.users[i := db.users[i].(role := Doctor)];
    r := Ok(200, "User role updated to DOCTOR successfully");
  }

  // ---------------------------------------------------------------------------
  // post_doctor_details

  /** post_doctor_details: the reply and, on success, the clerk id and detail
      columns of the row to insert. */
  function NewDoctorDetails(users: seq<User>, body: Body): (r: Response<(string, map<string, Value>)>)
    ensures r.Ok? <==> HasRole(users, Text(Get(body, "clerkid")), Doctor)
    ensures r.Err? ==> r == Err(400, "User not found or not a doctor")
    ensures r.Ok? ==> && r.status == 201 && Get(body, "clerkid") == Str(r.body.0)
                      && r.body.1.Keys == DetailSet
                      && forall k :: k in DetailSet ==> r.body.1[k] == Get(body, k)
  {
    var clerkid := Text(Get(body, "clerkid"));
    if !HasRole(users, clerkid, Doctor) then Err(400, "User not found or not a doctor")
    else Ok(201, (FindUser(users, clerkid.value).value.clerkid, map k | k in DetailSet :: Get(body, k)))
  }

  /** post_doctor_details against the database. */
  method PostDoctorDetails(db: Clinic, body: Body) returns (r: Reply)
    requires db.Valid()
    modifies db
    ensures db.Valid()
    ensures var c := NewDoctorDetails(old(db.users), body);
      && (c.Ok? ==> && r == Ok(201, "Doctor details created successfully")
                    && db.doctorDetails == old(db.doctorDetails) + [DoctorDetails(old(db.nextDoctorDetailsId), c.body.0, c.body.1)]
                    && db.nextDoctorDetailsId == old(db.nextDoctorDetailsId) + 1)
      && (c.Err? ==> && r == Err(c.status, c.message)
                     && db.doctorDetails == old(db.doctorDetails) && db.nextDoctorDetailsId == old(db.nextDoctorDetailsId))
    ensures OthersUnchanged(db, DoctorDetailsTable)
  {
    var c := NewDoctorDetails(db.users, body);
    if c.Ok? {
      db.doctorDetails := db.doctorDetails + [DoctorDetails(db.nextDoctorDetailsId, c.body.0, c.body.1)];
      db.nextDoctorDetailsId := db.nextDoctorDetailsId + 1;
      r := Ok(201, "Doctor details created successfully");
    } else {
      r := Err(c.status, c.message);
    }
  }

  // ---------------------------------------------------------------------------
  // get_doctor_details and update_doctor_details

  /** DoctorDetails.query.filter_by(clerkid=clerkid).first(), as a position. */
  function DetailsIndex(details: seq<DoctorDetails>, clerkid: string): (r: Option<nat>)
    ensures r.None? <==> forall i :: 0 <= i < |details| ==> details[i].clerkid != clerkid
    ensures r.Some? ==> r.value < |details| && details[r.value].clerkid == clerkid
    ensures r.Some? ==> forall j :: 0 <= j < r.value ==> details[j].clerkid != clerkid
  {
    if details == [] then None
    else if details[0].clerkid == clerkid then Some(0)
    else match DetailsIndex(details[1..], clerkid)
      case None => None
      case Some(i) => Some(i + 1)
  }

  /** The value `hospital.name if hospital else None` for a hospital key. */
  function HospitalNameOrNull(hospitals: seq<Hospital>, key: Value): Value {
    match HospitalName(hospitals, key)
    case None => Null
    case Some(n) => n
  }

  /** The two keys the reply adds are not detail columns. */
  lemma ReplyKeysAreExtra()
    ensures "clerkid" !in DetailSet && "hospital_name" !in DetailSet
  {
    assert forall i :: 0 <= i < |DetailColumns| ==> DetailColumns[i] != "clerkid" && DetailColumns[i] != "hospital_name";
  }

  /** get_doctor_details: the DOCTOR guard, the details guard, then the row's
      columns with the clerk id and the name of the hospital joined on hospital_id. */
  function GetDoctorDetails(users: seq<User>, details: seq<DoctorDetails>, hospitals: seq<Hospital>,
                            clerkid: string): (r: Response<map<string, Value>>)
    ensures !HasRole(users, Some(clerkid), Doctor) ==> r == Err(400, NotADoctorMessage)
    ensures HasRole(users, Some(clerkid), Doctor) && (forall i :: 0 <= i < |details| ==> details[i].clerkid != clerkid)
            ==> r == Err(400, NoDetailsMessage)
    ensures r.Ok? <==> HasRole(users, Some(clerkid), Doctor) && DetailsIndex(details, clerkid).Some?
    ensures r.Ok? ==> && r.status == 200 && r.body.Keys == DetailSet + {"clerkid", "hospital_name"}
                      && r.body["clerkid"] == Str(clerkid)
                      && DetailsIndex(details, clerkid).Some?
                      && var row := details[DetailsIndex(details, clerkid).value].fields;
                         && (forall k :: k in DetailSet ==> r.body[k] == Get(row, k))
                         && r.body["hospital_name"] == HospitalNameOrNull(hospitals, Get(row, "hospital_id"))
  {
    if !HasRole(users, Some(clerkid), Doctor) then Err(400, NotADoctorMessage)
    else match DetailsIndex(details, clerkid)
      case None => Err(400, NoDetailsMessage)
      case Some(i) =>
        ReplyKeysAreExtra();
        var fields := details[i].fields;
        Ok(200, (map k | k in DetailSet :: Get(fields, k))
                  ["clerkid" := Str(clerkid)]
                  ["hospital_name" := HospitalNameOrNull(hospitals, Get(fields, "hospital_id"))])
  }

  /** update_doctor_details against the database: after both guards, each of
      the thirteen keys present in the body overwrites its column. */
  method UpdateDoctorDetails(db: Clinic, clerkid: string, body: Body) returns (r: Reply)
    requires db.Valid()
    modifies db
    ensures db.Valid()
    ensures !HasRole(old(db.users), Some(clerkid), Doctor) ==> r == Err(400, NotADoctorMessage) && db.doctorDetails == old(db.doctorDetails)
    ensures HasRole(old(db.users), Some(clerkid), Doctor) ==> match DetailsIndex(old(db.doctorDetails), clerkid)
      case None => r == Err(400, NoDetailsMessage) && db.doctorDetails == old(db.doctorDetails)
      case Some(i) =>
        && r == Ok(200, "Doctor details updated successfully")
        && db.doctorDetails == old(db.doctorDetails)[i := old(db.doctorDetails[i]).(fields := Overlay(old(db.doctorDetails[i].fields), body, DetailSet))]
    ensures OthersUnchanged(db, DoctorDetailsTable)
    ensures db.nextDoctorDetailsId == old(db.nextDoctorDetailsId)
  {
    if !HasRole(db.users, Some(clerkid), Doctor) {
      r := Err(400, NotADoctorMessage);
      return;
    }
    var found := DetailsIndex(db.doctorDetails, clerkid);
    if found.None? {
      r := Err(400, NoDetailsMessage);
      return;
    }
    var i := found.value;
    var patched := ApplyPresent(db.doctorDetails[i].fields, body, DetailColumns);
    db.doctorDetails := db.doctorDetails[i := db.doctorDetails[i].(fields := patched)];
    r := Ok(200, "Doctor details updated successfully");
  }

  // ---------------------------------------------------------------------------
  // get_all_users

  /** One entry of get_all_users; the name is rendered as "{first} {last}". */
  datatype UserEntry = UserEntry(clerkid: string, firstName: Value, lastName: Value, phoneNumber: Value, email: Value)

  /** The user a profile row is joined to on its clerkid column, if any. */
  function ProfileOwner(users: seq<User>, row: UserDetails): Option<User> {
    match Text(Get(row.fields, "clerkid"))
    case None => None
    case Some(c) => FindUser(users, c)
  }

  function UserEntryOf(user: User, row: UserDetails): UserEntry {
    UserEntry(user.clerkid, Get(row.fields, "first_name"), Get(row.fields, "last_name"),
              Get(row.fields, "phone_number"), Get(row.fields, "email"))
  }

  /** The entries for a sequence of profile rows, in row order. */
  function UserEntries(users: seq<User>, rows: seq<UserDetails>): (r: seq<UserEntry>)
    ensures |r| <= |rows|
  {
    if rows == [] then []
    else
      var last := rows[|rows| - 1];
      match ProfileOwner(users, last)
      case None => UserEntries(users, rows[..|rows| - 1])
      case Some(u) => UserEntries(users, rows[..|rows| - 1]) + [UserEntryOf(u, last)]
  }

  /** An entry is listed exactly when it is built from some profile row whose owner was found. */
  lemma {:induction false} UserEntriesExact(users: seq<User>, rows: seq<UserDetails>, e: UserEntry)
    ensures e in UserEntries(users, rows) <==>
      exists i :: 0 <= i < |rows| && ProfileOwner(users, rows[i]).Some?
                  && e == UserEntryOf(ProfileOwner(users, rows[i]).value, rows[i])
    decreases |rows|
  {
    if rows != [] {
      var init := rows[..|rows| - 1];
      UserEntriesExact(users, init, e);
      assert forall i :: 0 <= i < |init| ==> init[i] == rows[i];
    }
  }

  /** get_all_users: the loop over every profile row. */
  method GetAllUsers(users: seq<User>, rows: seq<UserDetails>) returns (out: seq<UserEntry>)
    ensures out == UserEntries(users, rows)
  {
    out := [];
    var i := 0;
    while i < |rows|
      invariant 0 <= i <= |rows|
      invariant out == UserEntries(users, rows[..i])
    {
      assert rows[..i + 1][..i] == rows[..i];
      var owner := ProfileOwner(users, rows[i]);
      if owner.Some? {
        out := out + [UserEntryOf(owner.value, rows[i])];
      }
      i := i + 1;
    }
    assert rows[..i] == rows;
  }

  // ---------------------------------------------------------------------------
  // get_all_doctors

  /** One entry of get_all_doctors. */
  datatype DoctorEntry = DoctorEntry(clerkid: string, firstName: Value, lastName: Value, specialization: Value,
                                     hospitalId: Value, hospitalName: Value)

  /** User.query.filter_by(clerkid=clerkid, role='DOCTOR').first() finds a user. */
  predicate RegisteredDoctor(users: seq<User>, clerkid: string) {
    exists i :: 0 <= i < |users| && users[i].clerkid == clerkid && users[i].role == Doctor
  }

  function DoctorEntryOf(hospitals: seq<Hospital>, row: DoctorDetails): DoctorEntry {
    var hospitalId := Get(row.fields, "hospital_id");
    DoctorEntry(row.clerkid, Get(row.fields, "first_name"), Get(row.fields, "last_name"),
                Get(row.fields, "specialization"), hospitalId, HospitalNameOrNull(hospitals, hospitalId))
  }

  /** The entries for a sequence of details rows, in row order. */
  function DoctorEntries(users: seq<User>, hospitals: seq<Hospital>, rows: seq<DoctorDetails>): (r: seq<DoctorEntry>)
    ensures |r| <= |rows|
  {
    if rows == [] then []
    else
      var last := rows[|rows| - 1];
      var init := DoctorEntries(users, hospitals, rows[..|rows| - 1]);
      if RegisteredDoctor(users, last.clerkid) then init + [DoctorEntryOf(hospitals, last)] else init
  }

  /** A details row is listed exactly when a user with its clerk id and role DOCTOR exists. */
  lemma {:induction false} DoctorEntriesExact(users: seq<User>, hospitals: seq<Hospital>, rows: seq<DoctorDetails>, e: DoctorEntry)
    ensures e in DoctorEntries(users, hospitals, rows) <==>
      exists i :: 0 <= i < |rows| && RegisteredDoctor(users, rows[i].clerkid) && e == DoctorEntryOf(hospitals, rows[i])
    decreases |rows|
  {
    if rows != [] {
      var init := rows[..|rows| - 1];
      DoctorEntriesExact(users, hospitals, init, e);
      assert forall i :: 0 <= i < |init| ==> init[i] == rows[i];
    }
  }

  /** get_all_doctors: the loop over every details row. */
  method GetAllDoctors(users: seq<User>, hospitals: seq<Hospital>, rows: seq<DoctorDetails>) returns (out: seq<DoctorEntry>)
    ensures out == DoctorEntries(users, hospitals, rows)
  {
    out := [];
    var i := 0;
    while i < |rows|
      invariant 0 <= i <= |rows|
      invariant out == DoctorEntries(users, hospitals, rows[..i])
    {
      assert rows[..i + 1][..i] == rows[..i];
      if RegisteredDoctor(users, rows[i].clerkid) {
        out := out + [DoctorEntryOf(hospitals, rows[i])];
      }
      i := i + 1;
    }
    assert rows[..i] == rows;
  }
}
