/** The clinical tables the user-facing blueprints share (models.py and the
    record types the blueprints construct), the JSON values their request
    bodies carry, and the lookups every handler starts with. */
module Store {
  import opened Calendar
  import opened Outcomes

  /** A JSON value as a handler stores it: null, a string, a number, or a
      date converted from a string. */
  datatype Value = Null | Str(text: string) | Num(number: real) | Day(date: Date)

  /** A JSON object body: the keys present and their values. */
  type Body = map<string, Value>

  /** data.get(key): the value, or null when the key is absent. */
  function Get(body: Body, key: string): (v: Value)
    ensures key in body ==> v == body[key]
    ensures key !in body ==> v == Null
  {
    if key in body then body[key] else Null
  }

  /** A JSON value used as a string key: its text, or None for null and numbers. */
  function Text(v: Value): Option<string> {
    if v.Str? then Some(v.text) else None
  }

  /** Python truthiness of a JSON value. */
  predicate Truthy(v: Value) {
    match v
    case Null => false
    case Str(s) => s != ""
    case Num(n) => n != 0.0
    case Day(_) => true
  }

  /** A string field that `not x` does not reject: present and non-empty. */
  predicate Given(s: Option<string>) {
    s.Some? && s.value != ""
  }

  datatype Role = Patient | Doctor

  /** A User row (models.py): every column is NOT NULL, email is unique. */
  datatype User = User(id: string, clerkid: string, email: string, firstName: string, lastName: string, role: Role)

  /** A Hospital row, with its integer primary key. */
  datatype Hospital = Hospital(id: int, name: Value, address: Value, phoneNumber: Value, email: Value, website: Value)

  /** An Appointment row; the date is an instant in seconds. */
  datatype Appointment = Appointment(id: int, doctorClerkid: string, patientClerkid: string, date: int,
                                     status: Value, text: Value, hospitalId: Value)

  /** A Prescription row; the date is the instant it was written. */
  datatype Prescription = Prescription(doctorClerkid: string, patientClerkid: string, text: Value, date: int)

  /** A DoctorDetails row: its key, the doctor's clerk id and the thirteen detail columns by name. */
  datatype DoctorDetails = DoctorDetails(id: int, clerkid: string, fields: map<string, Value>)

  /** A UserDetails row: its key and its columns by name, user_id among them. */
  datatype UserDetails = UserDetails(id: int, fields: map<string, Value>)

  /** A TextReport row. */
  datatype TextReport = TextReport(clerkid: string, extracted: string, summarized: string, createdAt: int)

  // ---------------------------------------------------------------------------
  // Lookups

  /** User.query.filter_by(clerkid=clerkid).first() */
  function FindUser(users: seq<User>, clerkid: string): (r: Option<User>)
    ensures r.None? <==> forall i :: 0 <= i < |users| ==> users[i].clerkid != clerkid
    ensures r.Some? ==> r.value in users && r.value.clerkid == clerkid
  {
    if users == [] then None
    else if users[0].clerkid == clerkid then Some(users[0])
    else FindUser(users[1..], clerkid)
  }

  /** The position of the row FindUser returns, for the handlers that update it in place. */
  function UserIndex(users: seq<User>, clerkid: string): (r: Option<nat>)
    ensures r.None? <==> FindUser(users, clerkid).None?
    ensures r.Some? ==> r.value < |users| && users[r.value] == FindUser(users, clerkid).value
    ensures r.Some? ==> forall j :: 0 <= j < r.value ==> users[j].clerkid != clerkid
  {
    if users == [] then None
    else if users[0].clerkid == clerkid then Some(0)
    else match UserIndex(users[1..], clerkid)
      case None => None
      case Some(i) => Some(i + 1)
  }

  /** The guard the role-checked handlers share: `not user or user.role != role`
      is false, that is, the user found for that clerk id has the role. */
  predicate HasRole(users: seq<User>, clerkid: Option<string>, role: Role) {
    clerkid.Some? && FindUser(users, clerkid.value).Some? && FindUser(users, clerkid.value).value.role == role
  }

  /** Hospital.query.get(key): the hospital whose integer key the value is. */
  function FindHospital(hospitals: seq<Hospital>, key: Value): (r: Option<Hospital>)
    ensures r.None? <==> forall i :: 0 <= i < |hospitals| ==> key != Num(hospitals[i].id as real)
    ensures r.Some? ==> r.value in hospitals && key == Num(r.value.id as real)
  {
    if hospitals == [] then None
    else if key == Num(hospitals[0].id as real) then Some(hospitals[0])
    else FindHospital(hospitals[1..], key)
  }

  /** `hospital.name if hospital else None` */
  function HospitalName(hospitals: seq<Hospital>, key: Value): (r: Option<Value>)
    ensures r.Some? <==> FindHospital(hospitals, key).Some?
    ensures r.Some? ==> r.value == FindHospital(hospitals, key).value.name
  {
    match FindHospital(hospitals, key)
    case None => None
    case Some(h) => Some(h.name)
  }

  // ---------------------------------------------------------------------------
  // Partial updates

  /** The columns after `if key in data: row.key = data[key]` has run for
      every key of cols: present keys take the body's value, the rest keep
      theirs. */
  function Overlay(fields: map<string, Value>, body: Body, cols: set<string>): (row: map<string, Value>)
    ensures fields.Keys <= row.Keys
    ensures forall k :: k in row && k !in fields ==> k in body && k in cols
  {
    map k | k in fields.Keys + (body.Keys * cols) :: if k in body && k in cols then body[k] else fields[k]
  }

  /** The chain of `if key in data` assignments, one column at a time in the
      order cols lists them. */
  method ApplyPresent(fields: map<string, Value>, body: Body, cols: seq<string>) returns (out: map<string, Value>)
    ensures out == Overlay(fields, body, set k | k in cols)
  {
    out := fields;
    var i := 0;
    while i < |cols|
      invariant 0 <= i <= |cols|
      invariant out == Overlay(fields, body, set k | k in cols[..i])
    {
      assert cols[..i + 1] == cols[..i] + [cols[i]];
      KeySetStep(cols[..i], cols[i]);
      ghost var done := set k | k in cols[..i];
      OverlayStep(fields, body, done, cols[i]);
      if cols[i] in body {
        out := out[cols[i] := body[cols[i]]];
      }
      i := i + 1;
    }
    assert cols[..i] == cols;
  }

  /** The keys of a longer prefix are those of the shorter one and the next key. */
  lemma KeySetStep(cols: seq<string>, c: string)
    ensures (set k | k in cols + [c]) == (set k | k in cols) + {c}
  {
  }

  /** Overlaying one more column is one more conditional assignment. */
  lemma OverlayStep(fields: map<string, Value>, body: Body, done: set<string>, c: string)
    ensures Overlay(fields, body, done + {c})
         == if c in body then Overlay(fields, body, done)[c := body[c]] else Overlay(fields, body, done)
  {
  }

  /** A key the body leaves out, or one outside the updatable columns, keeps its value. */
  lemma OverlayKeepsAbsent(fields: map<string, Value>, body: Body, cols: set<string>, k: string)
    requires k !in body || k !in cols
    ensures Get(Overlay(fields, body, cols), k) == Get(fields, k)
  {
  }

  /** A key the body gives, among the updatable columns, takes the body's value. */
  lemma OverlayWritesPresent(fields: map<string, Value>, body: Body, cols: set<string>, k: string)
    requires k in body && k in cols
    ensures Get(Overlay(fields, body, cols), k) == body[k]
  {
  }

  /** Sending the same update twice leaves the row as one update does. */
  lemma OverlayIdempotent(fields: map<string, Value>, body: Body, cols: set<string>)
    ensures Overlay(Overlay(fields, body, cols), body, cols) == Overlay(fields, body, cols)
  {
  }

  // ---------------------------------------------------------------------------
  // Keys and constraints

  predicate UniqueUserIds(users: seq<User>) {
    forall i, j :: 0 <= i < j < |users| ==> users[i].id != users[j].id
  }

  predicate UniqueEmails(users: seq<User>) {
    forall i, j :: 0 <= i < j < |users| ==> users[i].email != users[j].email
  }

  /** Every key lies in [1, next) and no two rows share one. */
  predicate KeysBelow(ids: seq<int>, next: int) {
    && (forall i :: 0 <= i < |ids| ==> 1 <= ids[i] < next)
    && (forall i, j :: 0 <= i < j < |ids| ==> ids[i] != ids[j])
  }

  function AppointmentIds(apps: seq<Appointment>): (ids: seq<int>)
    ensures |ids| == |apps| && forall i :: 0 <= i < |apps| ==> ids[i] == apps[i].id
  {
    seq(|apps|, i requires 0 <= i < |apps| => apps[i].id)
  }

  function HospitalIds(hs: seq<Hospital>): (ids: seq<int>)
    ensures |ids| == |hs| && forall i :: 0 <= i < |hs| ==> ids[i] == hs[i].id
  {
    seq(|hs|, i requires 0 <= i < |hs| => hs[i].id)
  }

  /** The tables of the clinic database, each with its key sequence. */
  datatype Table = Users | UserDetailsTable | DoctorDetailsTable | Appointments | Prescriptions | Hospitals | Reports

  /** Every table other than t, and its key sequence, is as it was. */
  twostate predicate OthersUnchanged(db: Clinic, t: Table)
    reads db
  {
    && (t != Users ==> db.users == old(db.users))
    && (t != UserDetailsTable ==> db.userDetails == old(db.userDetails) && db.nextUserDetailsId == old(db.nextUserDetailsId))
    && (t != DoctorDetailsTable ==> db.doctorDetails == old(db.doctorDetails) && db.nextDoctorDetailsId == old(db.nextDoctorDetailsId))
    && (t != Appointments ==> db.appointments == old(db.appointments) && db.nextAppointmentId == old(db.nextAppointmentId))
    && (t != Prescriptions ==> db.prescriptions == old(db.prescriptions))
    && (t != Hospitals ==> db.hospitals == old(db.hospitals) && db.nextHospitalId == old(db.nextHospitalId))
    && (t != Reports ==> db.reports == old(db.reports))
  }

  /** The database the user-facing blueprints share. */
  class Clinic {
    var users: seq<User>
    var userDetails: seq<UserDetails>
    var doctorDetails: seq<DoctorDetails>
    var appointments: seq<Appointment>
    var prescriptions: seq<Prescription>
    var hospitals: seq<Hospital>
    var reports: seq<TextReport>
    /** The next values of the integer key sequences. */
    var nextAppointmentId: int
    var nextHospitalId: int
    var nextDoctorDetailsId: int
    var nextUserDetailsId: int

    /** The primary-key and unique constraints the handlers rely on. */
    predicate Valid()
      reads this
    {
      && UniqueUserIds(users) && UniqueEmails(users)
      && nextAppointmentId >= 1 && KeysBelow(AppointmentIds(appointments), nextAppointmentId)
      && nextHospitalId >= 1 && KeysBelow(HospitalIds(hospitals), nextHospitalId)
      && nextDoctorDetailsId >= 1 && nextUserDetailsId >= 1
    }

    /** session.add of a user_details row under the next key. */
    method InsertUserDetails(fields: map<string, Value>)
      requires Valid()
      modifies this
      ensures Valid()
      ensures userDetails == old(userDetails) + [UserDetails(old(nextUserDetailsId), fields)]
      ensures nextUserDetailsId == old(nextUserDetailsId) + 1
      ensures OthersUnchanged(this, UserDetailsTable)
    {
      userDetails := userDetails + [UserDetails(nextUserDetailsId, fields)];
      nextUserDetailsId := nextUserDetailsId + 1;
    }

    /** session.add of an appointment under the next key. */
    method InsertAppointment(a: Appointment)
      requires Valid() && a.id == nextAppointmentId
      modifies this
      ensures Valid()
      ensures appointments == old(appointments) + [a] && nextAppointmentId == old(nextAppointmentId) + 1
      ensures OthersUnchanged(this, Appointments)
    {
      assert AppointmentIds(appointments + [a]) == AppointmentIds(appointments) + [a.id];
      appointments := appointments + [a];
      nextAppointmentId := nextAppointmentId + 1;
    }

    /** A text_reports row appended by a commit. */
    method InsertReport(rep: TextReport)
      requires Valid()
      modifies this
      ensures Valid()
      ensures reports == old(reports) + [rep]
      ensures OthersUnchanged(this, Reports)
    {
      reports := reports + [rep];
    }

    /** The user_details row at position i, committed with new columns. */
    method SetUserDetails(i: nat, fields: map<string, Value>)
      requires Valid() && i < |userDetails|
      modifies this
      ensures Valid()
      ensures userDetails == old(userDetails)[i := UserDetails(old(userDetails[i].id), fields)]
      ensures OthersUnchanged(this, UserDetailsTable) && nextUserDetailsId == old(nextUserDetailsId)
    {
      userDetails := userDetails[i := UserDetails(userDetails[i].id, fields)];
    }

    constructor ()
      ensures Valid()
      ensures users == [] && userDetails == [] && doctorDetails == [] && appointments == []
      ensures prescriptions == [] && hospitals == [] && reports == []
    {
      users, userDetails, doctorDetails, appointments := [], [], [], [];
      prescriptions, hospitals, reports := [], [], [];
      nextAppointmentId, nextHospitalId, nextDoctorDetailsId, nextUserDetailsId := 1, 1, 1, 1;
    }
  }
}
