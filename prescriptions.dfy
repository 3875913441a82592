/** The prescription handlers (blueprints/prescription/prescription_bp.py):
    a doctor writes a prescription for a patient behind the two role guards,
    and a patient lists theirs with the prescribing doctor's name. */
module Prescriptions {
  import opened Outcomes
  import opened Store

  /** add_prescription: the guards, doctor first, and on success the row. */
  function NewPrescription(users: seq<User>, body: Body, now: int): (r: Response<Prescription>)
    ensures !HasRole(users, Text(Get(body, "doctor_clerkid")), Doctor) ==> r == Err(400, "Doctor not found")
    ensures HasRole(users, Text(Get(body, "doctor_clerkid")), Doctor) && !HasRole(users, Text(Get(body, "patient_clerkid")), Patient)
            ==> r == Err(400, "Patient not found")
    ensures r.Ok? <==> HasRole(users, Text(Get(body, "doctor_clerkid")), Doctor)
                       && HasRole(users, Text(Get(body, "patient_clerkid")), Patient)
    ensures r.Ok? ==> && r.status == 201
                      && Str(r.body.doctorClerkid) == Get(body, "doctor_clerkid")
                      && Str(r.body.patientClerkid) == Get(body, "patient_clerkid")
                      && r.body.text == Get(body, "prescription_text") && r.body.date == now
  {
    var doctor, patient := Text(Get(body, "doctor_clerkid")), Text(Get(body, "patient_clerkid"));
    if !HasRole(users, doctor, Doctor) then Err(400, "Doctor not found")
    else if !HasRole(users, patient, Patient) then Err(400, "Patient not found")
    else Ok(201, Prescription(doctor.value, patient.value, Get(body, "prescription_text"), now))
  }

  /** add_prescription against the database; `now` is the instant the row is written. */
  method AddPrescription(db: Clinic, body: Body, now: int) returns (r: Reply)
    requires db.Valid()
    modifies db
    ensures db.Valid()
    ensures var c := NewPrescription(old(db.users), body, now);
      && (c.Ok? ==> r == Ok(201, "Prescription added successfully") && db.prescriptions == old(db.prescriptions) + [c.body])
      && (c.Err? ==> r == Err(c.status, c.message) && db.prescriptions == old(db.prescriptions))
    ensures OthersUnchanged(db, Prescriptions)
  {
    var c := NewPrescription(db.users, body, now);
    if c.Ok? {
      db.prescriptions := db.prescriptions + [c.body];
      r := Ok(201, "Prescription added successfully");
    } else {
      r := Err(c.status, c.message);
    }
  }

  // ---------------------------------------------------------------------------
  // get_prescriptions

  /** doctor_name: "{first_name} {last_name}" of the doctor's details row, or "Unknown". */
  datatype DoctorName = Known(firstName: Value, lastName: Value) | Unknown

  /** One listed prescription. */
  datatype PrescriptionView = PrescriptionView(doctorClerkid: string, doctorName: DoctorName, patientClerkid: string,
                                               date: int, text: Value)

  /** The name of the first details row with the doctor's clerk id. */
  function NameOf(details: seq<DoctorDetails>, doctor: string): (n: DoctorName)
    ensures n == Unknown <==> forall i :: 0 <= i < |details| ==> details[i].clerkid != doctor
    ensures n.Known? ==> exists i :: && 0 <= i < |details| && details[i].clerkid == doctor
                                     && (forall j :: 0 <= j < i ==> details[j].clerkid != doctor)
                                     && n == Known(Get(details[i].fields, "first_name"), Get(details[i].fields, "last_name"))
  {
    if details == [] then Unknown
    else if details[0].clerkid == doctor then Known(Get(details[0].fields, "first_name"), Get(details[0].fields, "last_name"))
    else
      var n := NameOf(details[1..], doctor);
      assert n.Known? ==> exists i :: && 0 <= i < |details| - 1 && details[1..][i].clerkid == doctor
                                      && (forall j :: 0 <= j < i ==> details[1..][j].clerkid != doctor)
                                      && n == Known(Get(details[1..][i].fields, "first_name"), Get(details[1..][i].fields, "last_name"));
      n
  }

  function ViewOf(details: seq<DoctorDetails>, p: Prescription): PrescriptionView {
    PrescriptionView(p.doctorClerkid, NameOf(details, p.doctorClerkid), p.patientClerkid, p.date, p.text)
  }

  /** The views of the patient's prescriptions, in table order. */
  function Views(rows: seq<Prescription>, details: seq<DoctorDetails>, patient: string): (r: seq<PrescriptionView>)
    ensures |r| <= |rows|
  {
    if rows == [] then []
    else
      var last := rows[|rows| - 1];
      var init := Views(rows[..|rows| - 1], details, patient);
      if last.patientClerkid == patient then init + [ViewOf(details, last)] else init
  }

  /** A view is listed exactly when it is the view of one of the patient's prescriptions. */
  lemma {:induction false} ViewsExact(rows: seq<Prescription>, details: seq<DoctorDetails>, patient: string, v: PrescriptionView)
    ensures v in Views(rows, details, patient) <==>
      exists i :: 0 <= i < |rows| && rows[i].patientClerkid == patient && v == ViewOf(details, rows[i])
    decreases |rows|
  {
    if rows != [] {
      var n := |rows| - 1;
      var init := rows[..n];
      ViewsExact(init, details, patient, v);
      var last := if rows[n].patientClerkid == patient then [ViewOf(details, rows[n])] else [];
      assert Views(rows, details, patient) == Views(init, details, patient) + last;
      if v in Views(rows, details, patient) && v !in last {
        var i :| 0 <= i < n && init[i].patientClerkid == patient && v == ViewOf(details, init[i]);
        assert rows[i] == init[i];
      }
      if i :| 0 <= i < n && rows[i].patientClerkid == patient && v == ViewOf(details, rows[i]) {
        assert init[i] == rows[i];
      }
    }
  }

  /** A written prescription is the last one its patient sees. */
  lemma AddedIsListedLast(rows: seq<Prescription>, details: seq<DoctorDetails>, p: Prescription)
    ensures var vs := Views(rows + [p], details, p.patientClerkid);
      vs == Views(rows, details, p.patientClerkid) + [ViewOf(details, p)]
  {
    assert (rows + [p])[..|rows + [p]| - 1] == rows;
  }

  /** get_prescriptions: the PATIENT guard, then the loop over the patient's rows. */
  method GetPrescriptions(db: Clinic, patient: string) returns (r: Response<seq<PrescriptionView>>)
    ensures !HasRole(db.users, Some(patient), Patient) ==> r == Err(400, "Patient not found")
    ensures HasRole(db.users, Some(patient), Patient) ==> r == Ok(200, Views(db.prescriptions, db.doctorDetails, patient))
  {
    if !HasRole(db.users, Some(patient), Patient) {
      return Err(400, "Patient not found");
    }
    var rows := db.prescriptions;
    var out: seq<PrescriptionView> := [];
    var i := 0;
    while i < |rows|
      invariant 0 <= i <= |rows|
      invariant out == Views(rows[..i], db.doctorDetails, patient)
    {
      assert rows[..i + 1][..i] == rows[..i];
      if rows[i].patientClerkid == patient {
        out := out + [ViewOf(db.doctorDetails, rows[i])];
      }
      i := i + 1;
    }
    assert rows[..i] == rows;
    r := Ok(200, out);
  }
}
