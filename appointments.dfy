/** The appointment handlers (blueprints/appointment/appointment_bp.py):
    booking by a doctor or by a patient behind the same two role guards,
    overwriting the status, and the two listings. */
module Appointments {
  import opened Outcomes
  import opened Store

  /** Who books: add_appointment (the doctor) approves at once,
      request_appointment (the patient) leaves the request pending. */
  datatype Booking = ByDoctor | ByPatient {
    function Status(): Value {
      if ByDoctor? then Str("approved") else Str("pending")
    }
    function Message(): string {
      if ByDoctor? then "Appointment added successfully" else "Appointment request added successfully"
    }
  }

  /** The two guards both booking handlers run, doctor first. */
  function RoleGuard(users: seq<User>, doctor: Value, patient: Value): (r: Option<Reply>)
    ensures !HasRole(users, Text(doctor), Doctor) ==> r == Some(Err(400, "Doctor not found"))
    ensures HasRole(users, Text(doctor), Doctor) && !HasRole(users, Text(patient), Patient)
            ==> r == Some(Err(400, "Patient not found"))
    ensures r.None? <==> HasRole(users, Text(doctor), Doctor) && HasRole(users, Text(patient), Patient)
  {
    if !HasRole(users, Text(doctor), Doctor) then Some(Err(400, "Doctor not found"))
    else if !HasRole(users, Text(patient), Patient) then Some(Err(400, "Patient not found"))
    else None
  }

  /** add_appointment and request_appointment.  `date` is what
      datetime.fromisoformat made of appointment_date: the instant, or the
      name of the exception it raised, which surfaces as a 500 only once
      both guards have passed. */
  method Book(db: Clinic, who: Booking, body: Body, date: Result<int>) returns (r: Reply)
    requires db.Valid()
    modifies db
    ensures db.Valid()
    ensures var guard := RoleGuard(old(db.users), Get(body, "doctor_clerkid"), Get(body, "patient_clerkid"));
      && (guard.Some? ==> r == guard.value && db.appointments == old(db.appointments))
      && (guard.None? && date.Failure? ==> r == Err(500, date.exception) && db.appointments == old(db.appointments))
      && (guard.None? && date.Success? ==>
            && r == Ok(201, who.Message())
            && db.appointments == old(db.appointments) + [Appointment(
                 old(db.nextAppointmentId), Text(Get(body, "doctor_clerkid")).value, Text(Get(body, "patient_clerkid")).value,
                 date.value, who.Status(), Get(body, "text_field"), Get(body, "hospital_id"))])
    ensures db.appointments == old(db.appointments) ==> db.nextAppointmentId == old(db.nextAppointmentId)
    ensures OthersUnchanged(db, Appointments)
  {
    var guard := RoleGuard(db.users, Get(body, "doctor_clerkid"), Get(body, "patient_clerkid"));
    if guard.Some? {
      r := guard.value;
      return;
    }
    if date.Failure? {
      r := Err(500, date.exception);
      return;
    }
    var a := Appointment(db.nextAppointmentId, Text(Get(body, "doctor_clerkid")).value,
                         Text(Get(body, "patient_clerkid")).value, date.value, who.Status(),
                         Get(body, "text_field"), Get(body, "hospital_id"));
    db.InsertAppointment(a);
    r := Ok(201, who.Message());
  }

  // ---------------------------------------------------------------------------
  // update_appointment_status

  /** Appointment.query.get(id), as a position. */
  function AppointmentIndex(apps: seq<Appointment>, id: int): (r: Option<nat>)
    ensures r.None? <==> forall i :: 0 <= i < |apps| ==> apps[i].id != id
    ensures r.Some? ==> r.value < |apps| && apps[r.value].id == id
  {
    if apps == [] then None
    else if apps[0].id == id then Some(0)
    else match AppointmentIndex(apps[1..], id)
      case None => None
      case Some(i) => Some(i + 1)
  }

  /** The appointment after the update: the status is whatever was sent,
      null included, and the text changes only when a truthy one was sent. */
  function Restated(a: Appointment, status: Value, text: Value): (b: Appointment)
    ensures b.status == status
    ensures b.text == (if Truthy(text) then text else a.text)
    ensures b.(status := a.status, text := a.text) == a
  {
    if Truthy(text) then a.(status := status, text := text) else a.(status := status)
  }

  /** Restating twice with the same request is restating once. */
  lemma RestatedIdempotent(a: Appointment, status: Value, text: Value)
    ensures Restated(Restated(a, status, text), status, text) == Restated(a, status, text)
  {
  }

  /** update_appointment_status against the database. */
  method UpdateAppointmentStatus(db: Clinic, id: int, body: Body) returns (r: Reply)
    requires db.Valid()
    modifies db
    ensures db.Valid()
    ensures match AppointmentIndex(old(db.appointments), id)
      case None => r == Err(400, "Appointment not found") && db.appointments == old(db.appointments)
      case Some(i) =>
        && r == Ok(200, "Appointment status updated successfully")
        && db.appointments == old(db.appointments)[i := Restated(old(db.appointments[i]), Get(body, "status"), Get(body, "text_field"))]
    ensures OthersUnchanged(db, Appointments)
    ensures db.nextAppointmentId == old(db.nextAppointmentId)
  {
    var found := AppointmentIndex(db.appointments, id);
    if found.None? {
      r := Err(400, "Appointment not found");
      return;
    }
    var i := found.value;
    var b := Restated(db.appointments[i], Get(body, "status"), Get(body, "text_field"));
    ghost var ids := AppointmentIds(db.appointments);
    assert AppointmentIds(db.appointments[i := b]) == ids;
    db.appointments := db.appointments[i := b];
    r := Ok(200, "Appointment status updated successfully");
  }

  // ---------------------------------------------------------------------------
  // get_appointments and get_pending_appointments

  /** The filter a listing queries the table with. */
  datatype Filter = DoctorIs(doctor: string) | PatientIs(patient: string) | PendingFor(pendingDoctor: string)

  predicate Matches(a: Appointment, f: Filter) {
    match f
    case DoctorIs(c) => a.doctorClerkid == c
    case PatientIs(c) => a.patientClerkid == c
    case PendingFor(c) => a.status == Str("pending") && a.doctorClerkid == c
  }

  /** One listed appointment, with the name of its hospital or None. */
  datatype AppointmentView = AppointmentView(id: int, doctorClerkid: string, patientClerkid: string, date: int,
                                             status: Value, text: Value, hospitalId: Value, hospitalName: Option<Value>)

  function ViewOf(hospitals: seq<Hospital>, a: Appointment): AppointmentView {
    AppointmentView(a.id, a.doctorClerkid, a.patientClerkid, a.date, a.status, a.text, a.hospitalId,
                    HospitalName(hospitals, a.hospitalId))
  }

  /** The views of the matching appointments, in table order. */
  function Views(apps: seq<Appointment>, hospitals: seq<Hospital>, f: Filter): (r: seq<AppointmentView>)
    ensures |r| <= |apps|
  {
    if apps == [] then []
    else
      var last := apps[|apps| - 1];
      var init := Views(apps[..|apps| - 1], hospitals, f);
      if Matches(last, f) then init + [ViewOf(hospitals, last)] else init
  }

  /** A view is listed exactly when it is the view of a matching appointment. */
  lemma {:induction false} ViewsExact(apps: seq<Appointment>, hospitals: seq<Hospital>, f: Filter, v: AppointmentView)
    ensures v in Views(apps, hospitals, f) <==>
      exists i :: 0 <= i < |apps| && Matches(apps[i], f) && v == ViewOf(hospitals, apps[i])
    decreases |apps|
  {
    if apps != [] {
      var init := apps[..|apps| - 1];
      ViewsExact(init, hospitals, f, v);
      assert forall i :: 0 <= i < |init| ==> init[i] == apps[i];
    }
  }

  /** A view lists its appointment's hospital exactly when that hospital exists. */
  lemma ViewNamesHospital(hospitals: seq<Hospital>, a: Appointment)
    ensures ViewOf(hospitals, a).hospitalName.None? <==> forall i :: 0 <= i < |hospitals| ==> a.hospitalId != Num(hospitals[i].id as real)
  {
  }

  /** The loop both listing handlers run over the queried appointments. */
  method ListAppointments(apps: seq<Appointment>, hospitals: seq<Hospital>, f: Filter) returns (out: seq<AppointmentView>)
    ensures out == Views(apps, hospitals, f)
  {
    out := [];
    var i := 0;
    while i < |apps|
      invariant 0 <= i <= |apps|
      invariant out == Views(apps[..i], hospitals, f)
    {
      assert apps[..i + 1][..i] == apps[..i];
      if Matches(apps[i], f) {
        out := out + [ViewOf(hospitals, apps[i])];
      }
      i := i + 1;
    }
    assert apps[..i] == apps;
  }

  /** The filter get_appointments picks for a user: by doctor for a DOCTOR,
      by patient for anyone else. */
  function FilterFor(user: User): (f: Filter)
    ensures user.role == Doctor <==> f == DoctorIs(user.clerkid)
    ensures user.role != Doctor <==> f == PatientIs(user.clerkid)
  {
    if user.role == Doctor then DoctorIs(user.clerkid) else PatientIs(user.clerkid)
  }

  /** get_appointments: 400 for an unknown clerk id, else the user's appointments. */
  method GetAppointments(db: Clinic, clerkid: string) returns (r: Response<seq<AppointmentView>>)
    ensures FindUser(db.users, clerkid).None? ==> r == Err(400, "User not found")
    ensures FindUser(db.users, clerkid).Some? ==>
      r == Ok(200, Views(db.appointments, db.hospitals, FilterFor(FindUser(db.users, clerkid).value)))
  {
    var user := FindUser(db.users, clerkid);
    if user.None? {
      return Err(400, "User not found");
    }
    var views := ListAppointments(db.appointments, db.hospitals, FilterFor(user.value));
    r := Ok(200, views);
  }

  /** get_pending_appointments: the doctor's pending requests; no user check. */
  method GetPendingAppointments(db: Clinic, doctor: string) returns (r: Response<seq<AppointmentView>>)
    ensures r == Ok(200, Views(db.appointments, db.hospitals, PendingFor(doctor)))
  {
    var views := ListAppointments(db.appointments, db.hospitals, PendingFor(doctor));
    r := Ok(200, views);
  }

  /** A booked request shows in the doctor's pending list. */
  lemma RequestIsPending(apps: seq<Appointment>, hospitals: seq<Hospital>, a: Appointment)
    requires a.status == ByPatient.Status()
    ensures ViewOf(hospitals, a) in Views(apps + [a], hospitals, PendingFor(a.doctorClerkid))
  {
    assert (apps + [a])[..|apps + [a]| - 1] == apps;
  }

  /** Once restated to any status but 'pending', an appointment leaves every
      pending list; the doctor's and the patient's listings still show it. */
  lemma RestatedLeavesPending(a: Appointment, status: Value, text: Value, doctor: string)
    requires status != Str("pending")
    ensures !Matches(Restated(a, status, text), PendingFor(doctor))
    ensures Matches(Restated(a, status, text), DoctorIs(a.doctorClerkid))
    ensures Matches(Restated(a, status, text), PatientIs(a.patientClerkid))
  {
  }
}
