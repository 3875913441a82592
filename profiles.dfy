/** The patient profile handlers (user/user_bp.py): creating, reading and
    patching the user_details row of a registered user, with the two date
    columns parsed from 'YYYY-MM-DD' text. */
module Profiles {
  import opened Calendar
  import opened Outcomes
  import opened DateText
  import opened Store

  /** The columns of user_details (models.py) other than its integer key, in
      the order the handlers list them. */
  const DetailColumns: seq<string> := [
    "user_id", "first_name", "last_name", "email", "phone_number", "date_of_birth", "gender", "age",
    "address", "blood_group", "known_allergies", "chronic_conditions", "previous_major_diseases",
    "previous_major_surgeries", "family_medical_history", "height", "weight", "bmi",
    "current_medication", "current_health_conditions", "vaccination_history",
    "emergency_contact_name", "emergency_contact_phone", "emergency_contact_relationship",
    "smoking_status", "alcohol_consumption", "exercise_frequency", "dietary_preferences",
    "insurance_provider", "insurance_plan_number", "insurance_validity", "mental_health_conditions"]

  /** The columns update_user_details may overwrite: all but user_id. */
  const UpdatableColumns: seq<string> := DetailColumns[1..]
  const UpdatableSet: set<string> := set k | k in UpdatableColumns

  /** The columns get_user_details replies with: all but date_of_birth and gender. */
  const ReplyColumns: set<string> := (set k | k in DetailColumns) - {"date_of_birth", "gender"}

  const InvalidDateMessage: string := "Invalid date format. Use YYYY-MM-DD."
  const NotFoundMessage: string := "User not found"

  // ---------------------------------------------------------------------------
  // convert_to_date

  /** What convert_to_date does with a value: returns None, returns a date,
      raises ValueError, or raises the TypeError strptime raises for a value
      that is not text. */
  datatype Conversion = NoDate | Converted(date: Date) | BadFormat | NotText {
    predicate Fails() {
      BadFormat? || NotText?
    }
  }

  function ConvertToDate(v: Value): (c: Conversion)
    ensures c == NoDate <==> !Truthy(v)
    ensures c.Converted? <==> v.Str? && v.text != "" && ParseIsoDate(v.text).Some?
    ensures c.Converted? ==> c.date == ParseIsoDate(v.text).value && ValidDate(c.date)
    ensures c == BadFormat <==> v.Str? && v.text != "" && ParseIsoDate(v.text).None?
    ensures c == NotText <==> Truthy(v) && !v.Str?
  {
    if !Truthy(v) then NoDate
    else if !v.Str? then NotText
    else match ParseIsoDate(v.text)
      case Some(d) => Converted(d)
      case None => BadFormat
  }

  /** Every date isoformat writes converts back to that date. */
  lemma ConvertFormattedDate(d: Date)
    requires ValidDate(d) && d.year <= MaxYear
    ensures ConvertToDate(Str(FormatIsoDate(d))) == Converted(d)
  {
    ParseFormatRoundTrip(d);
  }

  /** The column value a conversion stores: the date, or NULL for None. */
  function Stored(c: Conversion): Value
    requires !c.Fails()
  {
    if c.Converted? then Day(c.date) else Null
  }

  /** The reply a failed conversion ends a handler with: the caught
      ValueError as a 400 whose message carries the given prefix, or the
      uncaught TypeError as a 500. */
  function ConversionFailure<T>(c: Conversion, prefix: string): (r: Response<T>)
    requires c.Fails()
    ensures c == BadFormat ==> r == Err(400, prefix + InvalidDateMessage)
    ensures c == NotText ==> r == Err(500, "TypeError")
  {
    if c == BadFormat then Err(400, prefix + InvalidDateMessage) else Err(500, "TypeError")
  }

  /** Some NOT NULL column holds NULL, so the commit raises IntegrityError. */
  predicate NullViolation(row: map<string, Value>) {
    AnyNull(row, NotNullColumns)
  }

  /** The columns declared nullable=False. */
  const NotNullColumns: seq<string> := [
    "user_id", "first_name", "last_name", "email", "phone_number", "date_of_birth", "gender", "age",
    "address", "blood_group", "height", "weight", "emergency_contact_name", "emergency_contact_phone",
    "emergency_contact_relationship", "smoking_status", "alcohol_consumption"]

  /** Some column of cols holds NULL in the row. */
  predicate AnyNull(row: map<string, Value>, cols: seq<string>) {
    if cols == [] then false else Get(row, cols[0]) == Null || AnyNull(row, cols[1..])
  }

  /** A NULL in any of the columns is found... */
  lemma {:induction false} NullFound(row: map<string, Value>, cols: seq<string>, k: string)
    requires k in cols && Get(row, k) == Null
    ensures AnyNull(row, cols)
  {
    if k != cols[0] {
      NullFound(row, cols[1..], k);
    }
  }

  /** ...and only a NULL in one of them. */
  lemma {:induction false} NotNullHolds(row: map<string, Value>, cols: seq<string>, k: string)
    requires k in cols && !AnyNull(row, cols)
    ensures Get(row, k) != Null
  {
    if k != cols[0] {
      NotNullHolds(row, cols[1..], k);
    }
  }

  // ---------------------------------------------------------------------------
  // create_user_details

  /** The row create_user_details builds: every column from data.get, the
      two dates as converted. */
  function NewDetailsRow(body: Body, dob: Conversion, insurance: Conversion): map<string, Value>
    requires !dob.Fails() && !insurance.Fails()
  {
    map k | k in DetailColumns ::
      if k == "date_of_birth" then Stored(dob)
      else if k == "insurance_validity" then Stored(insurance)
      else Get(body, k)
  }

  /** The registered user the body's user_id names, matched on clerkid. */
  predicate OwnerExists(users: seq<User>, body: Body) {
    Text(Get(body, "user_id")).Some? && FindUser(users, Text(Get(body, "user_id")).value).Some?
  }

  /** create_user_details: the reply and, on success, the row to insert. */
  function CreateUserDetails(users: seq<User>, body: Body): (r: Response<map<string, Value>>)
    ensures var dob := ConvertToDate(Get(body, "date_of_birth"));
      dob.Fails() ==> r == ConversionFailure(dob, "")
    ensures var dob, ins := ConvertToDate(Get(body, "date_of_birth")), ConvertToDate(Get(body, "insurance_validity"));
      !dob.Fails() && ins.Fails() ==> r == ConversionFailure(ins, "")
    ensures var dob, ins := ConvertToDate(Get(body, "date_of_birth")), ConvertToDate(Get(body, "insurance_validity"));
      (!dob.Fails() && !ins.Fails() && !OwnerExists(users, body)) ==> r == Err(400, NotFoundMessage)
    ensures r.Ok? <==> var dob, ins := ConvertToDate(Get(body, "date_of_birth")), ConvertToDate(Get(body, "insurance_validity"));
      !dob.Fails() && !ins.Fails() && OwnerExists(users, body) && !NullViolation(NewDetailsRow(body, dob, ins))
    ensures r.Err? && r.status == 500 && r.message != "TypeError" ==> r == Err(500, "IntegrityError")
    ensures r.Ok? ==> r.status == 201 && r.body == NewDetailsRow(body, ConvertToDate(Get(body, "date_of_birth")),
                                                              ConvertToDate(Get(body, "insurance_validity")))
  {
    var dob := ConvertToDate(Get(body, "date_of_birth"));
    if dob.Fails() then ConversionFailure(dob, "")
    else
      var ins := ConvertToDate(Get(body, "insurance_validity"));
      if ins.Fails() then ConversionFailure(ins, "")
      else if !OwnerExists(users, body) then Err(400, NotFoundMessage)
      else
        var row := NewDetailsRow(body, dob, ins);
        if NullViolation(row) then Err(500, "IntegrityError") else Ok(201, row)
  }

  /** The created row has exactly the detail columns. */
  lemma CreatedRowColumns(users: seq<User>, body: Body)
    requires CreateUserDetails(users, body).Ok?
    ensures CreateUserDetails(users, body).body.Keys == set k | k in DetailColumns
  {
  }

  /** create_user_details against the database. */
  method CreateDetails(db: Clinic, body: Body) returns (r: Reply)
    requires db.Valid()
    modifies db
    ensures db.Valid()
    ensures var c := CreateUserDetails(old(db.users), body);
      && (c.Ok? ==> && r == Ok(201, "User details created successfully")
                    && db.userDetails == old(db.userDetails) + [UserDetails(old(db.nextUserDetailsId), c.body)]
                    && db.nextUserDetailsId == old(db.nextUserDetailsId) + 1)
      && (c.Err? ==> && r == Err(c.status, c.message)
                     && db.userDetails == old(db.userDetails) && db.nextUserDetailsId == old(db.nextUserDetailsId))
    ensures OthersUnchanged(db, UserDetailsTable)
  {
    var c := CreateUserDetails(db.users, body);
    if c.Ok? {
      db.InsertUserDetails(c.body);
      r := Ok(201, "User details created successfully");
    } else {
      r := Err(c.status, c.message);
    }
  }

  // ---------------------------------------------------------------------------
  // get_user_details

  predicate Owns(row: UserDetails, userId: string) {
    Get(row.fields, "user_id") == Str(userId)
  }

  /** UserDetails.query.filter_by(user_id=user_id).first(), as a position. */
  function DetailsIndex(details: seq<UserDetails>, userId: string): (r: Option<nat>)
    ensures r.None? <==> forall i :: 0 <= i < |details| ==> !Owns(details[i], userId)
    ensures r.Some? ==> r.value < |details| && Owns(details[r.value], userId)
    ensures r.Some? ==> forall j :: 0 <= j < r.value ==> !Owns(details[j], userId)
  {
    if details == [] then None
    else if Owns(details[0], userId) then Some(0)
    else match DetailsIndex(details[1..], userId)
      case None => None
      case Some(i) => Some(i + 1)
  }

  /** The reply of get_user_details for a row. */
  function DetailsReply(fields: map<string, Value>): map<string, Value> {
    map k | k in ReplyColumns :: Get(fields, k)
  }

  /** get_user_details: 400 unless a row belongs to the user, else the first
      such row without date_of_birth and gender. */
  function GetUserDetails(details: seq<UserDetails>, userId: string): (r: Response<map<string, Value>>)
    ensures r.Err? <==> forall i :: 0 <= i < |details| ==> !Owns(details[i], userId)
    ensures r.Err? ==> r == Err(400, NotFoundMessage)
    ensures r.Ok? ==> && r.status == 200
                      && "date_of_birth" !in r.body && "gender" !in r.body && "user_id" in r.body
                      && exists i :: && 0 <= i < |details| && Owns(details[i], userId)
                                     && (forall j :: 0 <= j < i ==> !Owns(details[j], userId))
                                     && r.body == DetailsReply(details[i].fields)
  {
    match DetailsIndex(details, userId)
    case None => Err(400, NotFoundMessage)
    case Some(i) => Ok(200, DetailsReply(details[i].fields))
  }

  /** A profile created for a user who had none is the one read back. */
  lemma CreateThenGet(users: seq<User>, details: seq<UserDetails>, body: Body, id: int, userId: string)
    requires Get(body, "user_id") == Str(userId)
    requires forall i :: 0 <= i < |details| ==> !Owns(details[i], userId)
    requires CreateUserDetails(users, body).Ok?
    ensures var row := CreateUserDetails(users, body).body;
      GetUserDetails(details + [UserDetails(id, row)], userId) == Ok(200, DetailsReply(row))
  {
    var row := CreateUserDetails(users, body).body;
    assert Get(row, "user_id") == Get(body, "user_id") by {
      assert "user_id" in DetailColumns;
    }
    OnlyOwnerIsRead(details, UserDetails(id, row), userId);
  }

  /** A row appended for a user no earlier row belongs to is the one read. */
  lemma OnlyOwnerIsRead(details: seq<UserDetails>, d: UserDetails, userId: string)
    requires forall i :: 0 <= i < |details| ==> !Owns(details[i], userId)
    requires Owns(d, userId)
    ensures GetUserDetails(details + [d], userId) == Ok(200, DetailsReply(d.fields))
  {
    var after := details + [d];
    assert after[|details|] == d;
    assert forall j :: 0 <= j < |details| ==> after[j] == details[j];
    assert DetailsIndex(after, userId) == Some(|details|);
  }

  /** Read back, every column of the reply but the insurance date is the
      body's value. */
  lemma CreatedReplyColumn(body: Body, dob: Conversion, insurance: Conversion, k: string)
    requires !dob.Fails() && !insurance.Fails()
    requires k in ReplyColumns && k != "insurance_validity"
    ensures Get(DetailsReply(NewDetailsRow(body, dob, insurance)), k) == Get(body, k)
  {
    assert k in DetailColumns && k != "date_of_birth";
  }

  /** The NOT NULL constraint makes every created profile carry a birth date. */
  lemma CreatedBirthDate(users: seq<User>, body: Body)
    requires CreateUserDetails(users, body).Ok?
    ensures ConvertToDate(Get(body, "date_of_birth")).Converted?
  {
    var dob, ins := ConvertToDate(Get(body, "date_of_birth")), ConvertToDate(Get(body, "insurance_validity"));
    assert !dob.Fails() && !ins.Fails();
    var row := NewDetailsRow(body, dob, ins);
    assert !NullViolation(row);
    assert "date_of_birth" in NotNullColumns;
    NotNullHolds(row, NotNullColumns, "date_of_birth");
    assert "date_of_birth" in DetailColumns;
    assert Get(row, "date_of_birth") == Stored(dob);
  }

  // ---------------------------------------------------------------------------
  // update_user_details

  const DateColumns: set<string> := {"date_of_birth", "insurance_validity"}

  /** The first date key of the chain whose conversion fails, if any. */
  function DateFailure(body: Body): (r: Option<Conversion>)
    ensures r.Some? ==> r.value.Fails()
    ensures r.None? <==> forall k :: k in DateColumns && k in body ==> !ConvertToDate(body[k]).Fails()
  {
    if "date_of_birth" in body && ConvertToDate(body["date_of_birth"]).Fails() then
      Some(ConvertToDate(body["date_of_birth"]))
    else if "insurance_validity" in body && ConvertToDate(body["insurance_validity"]).Fails() then
      Some(ConvertToDate(body["insurance_validity"]))
    else None
  }

  /** The body with each date key replaced by what convert_to_date stores. */
  function ConvertedBody(body: Body): Body
    requires DateFailure(body).None?
  {
    map k | k in body :: if k in DateColumns then Stored(ConvertToDate(body[k])) else body[k]
  }

  /** update_user_details on one row: the reply and, on success, the new columns. */
  function PatchUserDetails(fields: map<string, Value>, body: Body): (r: Response<map<string, Value>>)
    ensures DateFailure(body).Some? ==> r == ConversionFailure(DateFailure(body).value, "Invalid date format: ")
    ensures r.Ok? <==> DateFailure(body).None? && !NullViolation(Overlay(fields, ConvertedBody(body), UpdatableSet))
    ensures r.Ok? ==> r.status == 200 && r.body == Overlay(fields, ConvertedBody(body), UpdatableSet)
    ensures r.Ok? ==> !NullViolation(r.body)
    ensures r.Err? && DateFailure(body).None? ==> r == Err(500, "Database error: IntegrityError")
  {
    match DateFailure(body)
    case Some(c) => ConversionFailure(c, "Invalid date format: ")
    case None =>
      var patched := Overlay(fields, ConvertedBody(body), UpdatableSet);
      if NullViolation(patched) then Err(500, "Database error: IntegrityError") else Ok(200, patched)
  }

  lemma UserIdNotUpdatable()
    ensures "user_id" !in UpdatableColumns
  {
    assert UpdatableColumns == DetailColumns[1..];
    assert forall i :: 1 <= i < |DetailColumns| ==> DetailColumns[i] != "user_id";
  }

  /** A key the body leaves out keeps its value, and user_id is never overwritten. */
  lemma PatchKeepsAbsent(fields: map<string, Value>, body: Body, k: string)
    requires PatchUserDetails(fields, body).Ok?
    requires k !in body || k == "user_id"
    ensures Get(PatchUserDetails(fields, body).body, k) == Get(fields, k)
  {
    UserIdNotUpdatable();
    OverlayKeepsAbsent(fields, ConvertedBody(body), UpdatableSet, k);
  }

  /** A present updatable key takes the value of the converted body. */
  lemma PatchReadsConverted(fields: map<string, Value>, body: Body, k: string)
    requires PatchUserDetails(fields, body).Ok?
    requires k in body && k in UpdatableColumns
    ensures DateFailure(body).None?
    ensures Get(PatchUserDetails(fields, body).body, k) == ConvertedBody(body)[k]
  {
    assert k in UpdatableSet;
    OverlayWritesPresent(fields, ConvertedBody(body), UpdatableSet, k);
  }

  /** A present key outside the dates is overwritten with the body's value. */
  lemma PatchWritesPresent(fields: map<string, Value>, body: Body, k: string)
    requires PatchUserDetails(fields, body).Ok?
    requires k in body && k in UpdatableColumns && k !in DateColumns
    ensures Get(PatchUserDetails(fields, body).body, k) == body[k]
  {
    PatchReadsConverted(fields, body, k);
  }

  /** A present date key is overwritten with the parsed date, and with NULL
      when the date is empty. */
  lemma PatchWritesDates(fields: map<string, Value>, body: Body, k: string)
    requires PatchUserDetails(fields, body).Ok?
    requires k in body && k in DateColumns
    ensures !Truthy(body[k]) ==> Get(PatchUserDetails(fields, body).body, k) == Null
    ensures Truthy(body[k]) ==> body[k].Str? && Get(PatchUserDetails(fields, body).body, k) == Day(ParseIsoDate(body[k].text).value)
  {
    assert k in UpdatableColumns;
    PatchReadsConverted(fields, body, k);
    assert !ConvertToDate(body[k]).Fails();
  }

  /** Repeating a successful update changes nothing further. */
  lemma PatchIdempotent(fields: map<string, Value>, body: Body)
    requires PatchUserDetails(fields, body).Ok?
    ensures PatchUserDetails(PatchUserDetails(fields, body).body, body) == PatchUserDetails(fields, body)
  {
    OverlayIdempotent(fields, ConvertedBody(body), UpdatableSet);
  }

  /** update_user_details against the database: the row found for user_id is
      patched key by key; a bad date or a failing commit leaves it as it was. */
  method UpdateUserDetails(db: Clinic, userId: string, body: Body) returns (r: Reply)
    requires db.Valid()
    modifies db
    ensures db.Valid()
    ensures match DetailsIndex(old(db.userDetails), userId)
      case None => r == Err(400, NotFoundMessage) && db.userDetails == old(db.userDetails)
      case Some(i) =>
        var p := PatchUserDetails(old(db.userDetails[i].fields), body);
        && (p.Ok? ==> && r == Ok(200, "User details updated successfully")
                      && db.userDetails == old(db.userDetails)[i := UserDetails(old(db.userDetails[i].id), p.body)])
        && (p.Err? ==> r == Err(p.status, p.message) && db.userDetails == old(db.userDetails))
    ensures OthersUnchanged(db, UserDetailsTable)
    ensures db.nextUserDetailsId == old(db.nextUserDetailsId)
  {
    var found := DetailsIndex(db.userDetails, userId);
    if found.None? {
      r := Err(400, NotFoundMessage);
      return;
    }
    var i := found.value;
    var row := db.userDetails[i];
    var failure := DateFailure(body);
    if failure.Some? {
      r := ConversionFailure(failure.value, "Invalid date format: ");
      return;
    }
    var patched := ApplyPresent(row.fields, ConvertedBody(body), UpdatableColumns);
    if NullViolation(patched) {
      r := Err(500, "Database error: IntegrityError");
      return;
    }
    db.SetUserDetails(i, patched);
    r := Ok(200, "User details updated successfully");
  }
}
