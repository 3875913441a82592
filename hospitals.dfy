/** The hospital handlers (blueprints/hospital/hospital_bp.py): registering a
    hospital without validation, listing them, and listing the doctors whose
    details name a hospital. */
module Hospitals {
  import opened Outcomes
  import opened Store

  /** add_hospital against the database: the five columns as data.get gives
      them, under the next integer key. */
  method AddHospital(db: Clinic, body: Body) returns (r: Reply)
    requires db.Valid()
    modifies db
    ensures db.Valid()
    ensures r == Ok(201, "Hospital added successfully")
    ensures db.hospitals == old(db.hospitals) + [Hospital(old(db.nextHospitalId), Get(body, "name"), Get(body, "address"),
                                                          Get(body, "phone_number"), Get(body, "email"), Get(body, "website"))]
    ensures db.nextHospitalId == old(db.nextHospitalId) + 1
    ensures OthersUnchanged(db, Hospitals)
  {
    var h := Hospital(db.nextHospitalId, Get(body, "name"), Get(body, "address"), Get(body, "phone_number"),
                      Get(body, "email"), Get(body, "website"));
    assert HospitalIds(db.hospitals + [h]) == HospitalIds(db.hospitals) + [h.id];
    db.hospitals := db.hospitals + [h];
    db.nextHospitalId := db.nextHospitalId + 1;
    r := Ok(201, "Hospital added successfully");
  }

  /** A hospital just added is the one Hospital.query.get finds under its key. */
  lemma AddedHospitalIsFound(hospitals: seq<Hospital>, next: int, h: Hospital)
    requires KeysBelow(HospitalIds(hospitals), next) && h.id == next
    ensures FindHospital(hospitals + [h], Num(next as real)) == Some(h)
  {
    FindHospitalAppend(hospitals, h, Num(next as real));
  }

  lemma {:induction false} FindHospitalAppend(hospitals: seq<Hospital>, h: Hospital, key: Value)
    requires forall i :: 0 <= i < |hospitals| ==> key != Num(hospitals[i].id as real)
    requires key == Num(h.id as real)
    ensures FindHospital(hospitals + [h], key) == Some(h)
    decreases |hospitals|
  {
    if hospitals != [] {
      assert (hospitals + [h])[1..] == hospitals[1..] + [h];
      FindHospitalAppend(hospitals[1..], h, key);
    }
  }

  /** get_hospitals: one entry per stored hospital, in table order, with all six columns. */
  function GetHospitals(hospitals: seq<Hospital>): (r: Response<seq<Hospital>>)
    ensures r.Ok? && r.status == 200
    ensures |r.body| == |hospitals| && forall i :: 0 <= i < |hospitals| ==> r.body[i] == hospitals[i]
  {
    Ok(200, seq(|hospitals|, i requires 0 <= i < |hospitals| => hospitals[i]))
  }

  // ---------------------------------------------------------------------------
  // get_doctors_by_hospital

  /** One listed doctor: the details row's key and five of its columns. */
  datatype DoctorListing = DoctorListing(id: int, firstName: Value, lastName: Value, specialization: Value,
                                         email: Value, phoneNumber: Value)

  function ListingOf(d: DoctorDetails): DoctorListing {
    DoctorListing(d.id, Get(d.fields, "first_name"), Get(d.fields, "last_name"), Get(d.fields, "specialization"),
                  Get(d.fields, "email"), Get(d.fields, "phone_number"))
  }

  predicate WorksAt(d: DoctorDetails, id: int) {
    Get(d.fields, "hospital_id") == Num(id as real)
  }

  /** DoctorDetails.query.filter_by(hospital_id=id), listed in table order. */
  function DoctorsAt(details: seq<DoctorDetails>, id: int): (r: seq<DoctorListing>)
    ensures |r| <= |details|
    ensures r == [] <==> forall i :: 0 <= i < |details| ==> !WorksAt(details[i], id)
  {
    if details == [] then []
    else
      var last := details[|details| - 1];
      var init := details[..|details| - 1];
      assert forall i :: 0 <= i < |init| ==> init[i] == details[i];
      if WorksAt(last, id) then DoctorsAt(init, id) + [ListingOf(last)] else DoctorsAt(init, id)
  }

  /** A doctor is listed exactly when their details row names the hospital. */
  lemma {:induction false} DoctorsAtExact(details: seq<DoctorDetails>, id: int, l: DoctorListing)
    ensures l in DoctorsAt(details, id) <==> exists i :: 0 <= i < |details| && WorksAt(details[i], id) && l == ListingOf(details[i])
    decreases |details|
  {
    if details != [] {
      var init := details[..|details| - 1];
      DoctorsAtExact(init, id, l);
      assert forall i :: 0 <= i < |init| ==> init[i] == details[i];
    }
  }

  /** get_doctors_by_hospital: 400 for an unknown hospital, 404 when no
      details row names it, else the doctors who work there. */
  function GetDoctorsByHospital(hospitals: seq<Hospital>, details: seq<DoctorDetails>, id: int): (r: Response<seq<DoctorListing>>)
    ensures r == Err(400, "Hospital not found") <==> forall i :: 0 <= i < |hospitals| ==> hospitals[i].id != id
    ensures r == Err(404, "No doctors found for this hospital") <==>
      (exists i :: 0 <= i < |hospitals| && hospitals[i].id == id) && forall i :: 0 <= i < |details| ==> !WorksAt(details[i], id)
    ensures r.Ok? <==> (exists i :: 0 <= i < |hospitals| && hospitals[i].id == id)
                       && exists i :: 0 <= i < |details| && WorksAt(details[i], id)
    ensures r.Ok? ==> r.status == 200 && r.body == DoctorsAt(details, id) && r.body != []
  {
    match FindHospital(hospitals, Num(id as real))
    case None => Err(400, "Hospital not found")
    case Some(h) =>
      assert h.id == id;
      var doctors := DoctorsAt(details, h.id);
      if doctors == [] then Err(404, "No doctors found for this hospital") else Ok(200, doctors)
  }
}
