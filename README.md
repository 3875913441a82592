# MediVerse backend — a Dafny model of its handlers

MediVerse is a Flask/SQLAlchemy backend for a hospital. This project models
its request handlers as Dafny functions and methods, over tables kept as
sequences of rows.

- **Management blueprints.** Sensors register themselves. Parking sensors
  report whether a lot is empty. Garbage and fire sensors raise alerts that
  also send an SMS. Water and energy meters record readings, and the model
  drops readings older than two years on every write. Monthly usage is
  aggregated over the month as seen in India Standard Time (UTC+05:30). Water
  is billed at 0.5 INR per liter and energy at 8.5 INR per kWh.
- **Clinical blueprints.** Users register as PATIENT or DOCTOR through two
  variants of the auth handler. Patients keep a detail profile. Doctors get
  promoted and keep a details row that names their hospital. Appointments
  are booked by a doctor (approved at once) or requested by a patient
  (pending), and the doctor can restate the status. Doctors write
  prescriptions. Hospitals are registered and list the doctors who work
  there.
- **AI blueprint.** An uploaded medical report has its text extracted and
  summarised, then stored. Stored reports are listed newest first. A
  routine generator answers only health-related goals.

Modelling choices:

- Instants are whole seconds since 0001-01-01 00:00, naive, as Python's
  `datetime` counts them.
  - `Calendar` holds the proleptic Gregorian arithmetic.
  - `DateText` models `strptime(s, '%Y-%m-%d')`.
- A JSON body is a map from keys to `Value` (`Null`, `Str`, `Num`, `Day`).
  `data.get(k)` is `Store.Get`.
- A reply is `Ok(status, body)` or `Err(status, message)`. A 500 produced by
  an exception carries the exception's class name.
- Handlers that write to the database are methods on two classes:
  - `Facility.FacilityDb` holds the management tables;
  - `Store.Clinic` holds the clinical tables.

  Each method's contract ties its new state to a pure function of the old
  state. The lemmas are stated about those functions.
- Outside calls become parameters of the handlers:
  - the SMS gateway (`Facility.SmsOutcome`);
  - `datetime.fromisoformat`;
  - OCR and summarisation (`Outcomes.Result<string>`);
  - the Gemini routine generator (a function from the query text to a result);
  - the clock (`now`).

## Model

| member | source | states |
|---|---|---|
| Usage.Select | blueprints/management/management_bp.py:375-378 | the query keeps no more readings than the table has, and each kept reading lies inside the closed window |
| Usage.SelectExact | blueprints/management/management_bp.py:374-377 | the window query keeps every reading whose timestamp lies in the closed window, with its multiplicity, and nothing else |
| Usage.SelectAppend | blueprints/management/management_bp.py:374-377 | the window query keeps table order: it distributes over concatenation |
| Usage.SumAppend | blueprints/management/management_bp.py:380 | the usage total of two tables laid end to end is the sum of their totals |
| Usage.Sum | blueprints/management/management_bp.py:381 | the usage total; a table of non-negative readings has a non-negative total |
| Usage.RecordTotalIsSum | blueprints/management/management_bp.py:380-384 | the sum over "usage_records" equals "total_usage_liters" |
| Usage.IstMonthWindow | blueprints/management/management_bp.py:364-371 | the IST month window spans exactly the month's days less one second |
| Usage.IstMonthWindowInUtc | blueprints/management/management_bp.py:364-371 | in naive UTC the window runs from 18:30:00 on the day before the 1st to 18:29:59 on the last day |
| Usage.IstMonthWindowIsIstMonth | blueprints/management/management_bp.py:364-377 | a UTC instant is selected iff its IST calendar date falls in the requested year and month |
| Usage.IstMonthWindowsAbut | blueprints/management/management_bp.py:364-371 | consecutive months' windows leave no gap and do not overlap, December to January included |
| Usage.ConsecutiveMonthTotals | blueprints/management/management_bp.py:374-380 | the totals of two consecutive months add up to the total over their joint window, so no reading is counted twice |
| Usage.MonthUsageData | blueprints/management/management_bp.py:360-390 | succeeds iff the month exists and is not January of year 1; otherwise ValueError or OverflowError; one record per selected reading, in table order, carrying its quantity and dated by its naive UTC date; the total is the sum of the selected readings' quantities, which is also the records' sum |
| Usage.MonthlyUsage | blueprints/management/management_bp.py:407-412 | 200 with the helper's data iff the helper succeeds, else 500; also covers the inline copy at blueprints/management/management_bp.py:501-525 |
| Usage.WaterBill | blueprints/management/management_bp.py:427-438 | succeeds exactly when the monthly usage does; the bill is its total at 0.5 INR per liter, rate 0.5, currency INR; otherwise 500 |
| Usage.MonthlyUsageNonNegative | blueprints/management/management_bp.py:380 | with non-negative readings the monthly total is non-negative |
| Usage.EnergyBill | blueprints/management/management_bp.py:540-556 | as written: succeeds iff 1 <= year <= 9999 and month is 1..11; December is always 500 ValueError; bill = total × 8.5 |
| Usage.EnergyBillWindowIsUtcMonth | blueprints/management/management_bp.py:543-546 | for January..November the bill sums the IST usage window moved 5h30 later, i.e. the naive UTC month |
| Usage.EnergyBillDisagreesWithUsage | blueprints/management/management_bp.py:540-556 | a reading at 2025-03-31 20:00 UTC is April usage but is billed in March |
| Usage.EnergyBillCorrected | blueprints/management/management_bp.py:540-556 | the intended bill: succeeds iff the monthly energy usage does, and bills its total at 8.5 INR |
| Usage.DecemberEnergyBill | blueprints/management/management_bp.py:545 | for every valid year, the December bill fails as written and succeeds when corrected |
| Usage.ShadowedMonthUsageData | blueprints/management/management_bp.py:53-74 | the first, shadowed helper succeeds iff the month is valid, is not January of year 1, and is not December 9999 |
| Usage.ShadowedHelperAgrees | blueprints/management/management_bp.py:53-74 | where both helpers succeed they select the same readings: equal totals and record counts |
| Usage.ShadowedWindow | blueprints/management/management_bp.py:56-62 | the shadowed helper totals and lists exactly the readings of the IST month window |
| Facility.FindSensor | blueprints/management/models.py:7-15 | finds a sensor iff one with that name is stored, and returns a stored sensor of that name |
| Facility.FindSensorFindsStored | blueprints/management/models.py:9 | with sensor_name as primary key, the lookup returns exactly the stored sensor |
| Facility.LotIndex | blueprints/management/management_bp.py:165 | the position of the first lot with that sensor id, or None when no lot has it |
| Facility.Prune | blueprints/management/management_bp.py:348-350 | pruning keeps only rows at or after the cutoff and never adds rows |
| Facility.PruneExact | blueprints/management/management_bp.py:348-350 | a row survives pruning iff it was stored and its timestamp is not before the cutoff |
| Facility.PruneAppend | blueprints/management/management_bp.py:348-350 | pruning keeps table order: it distributes over concatenation |
| Facility.PruneKeepsLaterWindows | blueprints/management/management_bp.py:348-350 | any window starting at or after the cutoff selects the same readings before and after pruning |
| Facility.PruneIdempotent | blueprints/management/management_bp.py:348-350 | pruning twice with one cutoff equals pruning once |
| Facility.RecordUsage | blueprints/management/management_bp.py:336-358 | succeeds iff the sensor name is given and names a stored sensor, the quantity is given and the cutoff is representable; a missing name raises KeyError, an unknown sensor AttributeError; the new table is the old table pruned at now − 730 days plus the new reading at the sensor's location |
| Facility.RecordUsageKeepsRecentMonths | blueprints/management/management_bp.py:336-358 | a window inside the retention period selects the same readings as before, plus the new one when it falls inside |
| Facility.ParkingReply | blueprints/management/management_bp.py:161-181 | 404 "Parking lot not found" iff no lot has the id; otherwise 200 with the message chosen by the new status ("Car parked" iff not empty) |
| Facility.ParkingStatus | blueprints/management/management_bp.py:193-207 | 200 iff every lot's sensor exists (else 500); one entry per lot in order, with the sensor's location and "Empty"/"Occupied" by status |
| Facility.Notify | blueprints/management/management_bp.py:27-50 | the SMS step raises iff a contact is configured and the gateway raises; it reports delivery iff a contact is configured and the message is delivered |
| Facility.ParkingReplyMatchesListing | blueprints/management/management_bp.py:161-207 | after an update the listing still succeeds, and shows the lot "Occupied" exactly when the reply was "Car parked" |
| Facility.FacilityDb.constructor | blueprints/management/models.py:7-78 | all six management tables start empty |
| Facility.FacilityDb.AddSensor | blueprints/management/management_bp.py:108-124 | a missing key is a 400 naming the first missing field; with all three keys present, a JSON null in any of them (a null primary key or NOT NULL column) or an existing name fails the commit (500 IntegrityError); otherwise the sensor is appended and 201 "Sensor added successfully!"; other tables unchanged |
| Facility.FacilityDb.RecordWaterUsage | blueprints/management/management_bp.py:336-358 | the water table becomes the RecordUsage result on success (201 "Water usage recorded"), unchanged with a 500 otherwise |
| Facility.FacilityDb.RecordEnergyUsage | blueprints/management/management_bp.py:464-486 | the energy table becomes the RecordUsage result on success (201 "Energy usage recorded"), unchanged with a 500 otherwise |
| Facility.FacilityDb.UpdateParkingStatus | blueprints/management/management_bp.py:161-181 | the reply is ParkingReply; on success only that lot's status (default True) and last-updated time change |
| Facility.FacilityDb.ReceiveGarbageAlert | blueprints/management/management_bp.py:234-256 | a missing or unknown sensor is 404 "Sensor not found" with no row; otherwise the alert row is committed before the SMS, so it persists even when the SMS raises (500); 201 "Alert logged." otherwise |
| Facility.FacilityDb.ReceiveFireAlert | blueprints/management/management_bp.py:283-311 | a missing or unknown sensor is 404 "Sensor not found"; the "fire" report is committed (201) only when the SMS step does not raise, else 500 with no row |
| Store.Get | blueprints/hospital/hospital_bp.py:46-52 | data.get(k): the stored value for a present key, null for an absent one |
| Store.FindUser | models.py:3-15 | finds a user iff one with that clerk id is stored, and returns a stored user with that clerk id |
| Store.UserIndex | blueprints/doctor/doctor_bp.py:36 | the position of the first user with the clerk id, agreeing with FindUser |
| Store.FindHospital | blueprints/hospital/hospital_bp.py:138 | Hospital.query.get(id): found iff a hospital has that key, and the hospital found has it |
| Store.HospitalName | blueprints/appointment/appointment_bp.py:245-257 | a hospital name is given iff the appointment's hospital exists, and it is that hospital's name |
| Store.Overlay | user/user_bp.py:221-288 | the row after the `if key in data` assignments keeps every old column and gains only updatable columns the body sends |
| Store.ApplyPresent | blueprints/doctor/doctor_bp.py:262-287 | the loop of `if key in data` assignments yields the overlay of the body's present updatable keys on the old row |
| Store.OverlayKeepsAbsent | user/user_bp.py:221-288 | a column the body does not carry, or that is not updatable, keeps its value |
| Store.OverlayWritesPresent | user/user_bp.py:221-288 | an updatable column the body carries takes the body's value |
| Store.OverlayIdempotent | user/user_bp.py:221-288 | sending the same update twice has the effect of sending it once |
| Store.Clinic.constructor | models.py:3-67 | all clinical tables start empty |
| Store.Clinic.InsertUserDetails | user/user_bp.py:129-130 | the profile row is appended under the next key and no other table changes |
| Store.Clinic.SetUserDetails | user/user_bp.py:292 | the profile at the position gets the new columns, keeps its key, and no other table changes |
| Store.Clinic.InsertAppointment | blueprints/appointment/appointment_bp.py:71-72 | the appointment is appended under the next key and no other table changes |
| Store.Clinic.InsertReport | blueprints/ai/ai_bp.py:51-58 | the report is appended and no other table changes |
| Auth.RoleNamed | auth/auth_bp.py:55-56 | a role is accepted iff it is "PATIENT" or "DOCTOR", and maps to that role |
| Auth.CreateUser | auth/auth_bp.py:41-68 | missing fields → 400, bad role → 400, taken id → 400 "User already exists"; a null last name or a taken email fails the commit (500 IntegrityError); otherwise 201 with the new user |
| Auth.CreateUserKeepsKeys | auth/auth_bp.py:59-66 | a successful registration keeps ids and emails unique |
| Auth.Register | auth/auth_bp.py:41-68 | the user table grows by the created user exactly when CreateUser succeeds; other tables unchanged |
| BlueprintAuth.CreateUser | blueprints/auth/auth_bp.py:43-78 | the same ladder with the email guard before the id guard and messages naming them; the commit failure is 500 "Failed to register user: IntegrityError" |
| BlueprintAuth.VariantsAgree | blueprints/auth/auth_bp.py:43-78 | the two variants accept exactly the same requests and create the same user |
| BlueprintAuth.CreateUserKeepsKeys | blueprints/auth/auth_bp.py:61-75 | a successful registration keeps ids and emails unique |
| BlueprintAuth.Register | blueprints/auth/auth_bp.py:43-78 | the user table grows by the created user exactly when CreateUser succeeds |
| DateText.ParseIsoDate | user/user_bp.py:10-16 | strptime '%Y-%m-%d' yields only valid dates with year 1..9999 |
| DateText.FormatIsoDate | user/user_bp.py:13 | the '%Y-%m-%d' rendering of a date is ten characters with dashes at 4 and 7 |
| DateText.ParseFormatRoundTrip | user/user_bp.py:10-16 | parsing the ISO rendering of any valid date returns that date |
| DateText.ParseAcceptsShortForms | user/user_bp.py:13 | strptime also accepts one-digit month and day fields, including a space-padded day |
| DateText.ParseRejects | user/user_bp.py:13-16 | 29 February of a common year, year 0, month 13 and trailing characters are rejected |
| Profiles.ConvertToDate | user/user_bp.py:10-16 | a falsy value gives no date; a string gives its date iff it parses, else the format error; a truthy non-string makes strptime raise TypeError |
| Profiles.ConvertFormattedDate | user/user_bp.py:10-16 | converting the ISO rendering of a date yields that date |
| Profiles.ConversionFailure | user/user_bp.py:80-84 | a format error is a 400 with the fixed message, a non-string a 500 TypeError |
| Profiles.CreateUserDetails | user/user_bp.py:77-132 | a date failure answers first (birth date, then insurance), then a 400 "User not found"; success iff no failure, the owner exists and no NOT NULL column of the built row is null, and then the row inserted is the one built from the body and the converted dates |
| Profiles.CreatedRowColumns | user/user_bp.py:94-126 | a created row has exactly the 32 columns of user_details |
| Profiles.CreatedBirthDate | models.py:26 | since date_of_birth is NOT NULL, a profile is created only when the body's birth date converts to a date |
| Profiles.NullFound | models.py:21-54 | a null in any NOT NULL column makes the commit fail |
| Profiles.NotNullHolds | models.py:21-54 | a row that commits holds a value in every NOT NULL column |
| Profiles.CreateDetails | user/user_bp.py:77-132 | the details table grows by the created row exactly when CreateUserDetails succeeds |
| Profiles.DetailsIndex | user/user_bp.py:161 | the position of the first profile of the user, or None when there is none |
| Profiles.GetUserDetails | user/user_bp.py:159-196 | 400 "User not found" iff the user has no profile; otherwise 200 with the first profile's reply columns |
| Profiles.CreateThenGet | user/user_bp.py:77-196 | reading back a newly created profile returns the reply columns of what was created |
| Profiles.OnlyOwnerIsRead | user/user_bp.py:159-196 | a profile appended for a user who had none is the one get_user_details replies with |
| Profiles.CreatedReplyColumn | user/user_bp.py:94-196 | read back, every reply column except insurance_validity holds what the create body sent |
| Profiles.DateFailure | user/user_bp.py:229-233 | a date failure is reported iff a date column present in the body fails to convert |
| Profiles.PatchUserDetails | user/user_bp.py:212-297 | a date failure answers with its error; success iff no date fails and the overlay of the converted body's updatable keys on the row leaves no NOT NULL column null, and then 200 with exactly that overlay; otherwise 500 "Database error: IntegrityError" |
| Profiles.UserIdNotUpdatable | user/user_bp.py:221-288 | user_id is not among the updatable columns |
| Profiles.PatchKeepsAbsent | user/user_bp.py:221-288 | a successful update keeps every column the body does not carry |
| Profiles.PatchReadsConverted | user/user_bp.py:221-288 | a successful update had no date failure and writes every updatable column the body carries with its converted value |
| Profiles.PatchWritesPresent | user/user_bp.py:221-288 | a successful update writes every updatable non-date column the body carries as sent |
| Profiles.PatchWritesDates | user/user_bp.py:229-286 | a date column the body carries becomes null for a falsy value and the parsed date otherwise |
| Profiles.PatchIdempotent | user/user_bp.py:212-297 | applying the same update twice equals applying it once |
| Profiles.UpdateUserDetails | user/user_bp.py:212-297 | 400 for a missing profile; otherwise the first profile becomes the patched row exactly when the patch succeeds |
| Doctors.SameClerkidsSameIndex | blueprints/doctor/doctor_bp.py:36 | tables with the same clerk ids in the same order locate a user at the same position |
| Doctors.Promoted | blueprints/doctor/doctor_bp.py:40 | the promoted table has the same users, each with only its role possibly changed; an unknown clerk id changes nothing |
| Doctors.PromotedChangesOnlyRole | blueprints/doctor/doctor_bp.py:35-43 | promotion sets the role of the first user with the clerk id to DOCTOR, leaves every other user as it was and changes no other modelled column (the clock-set `updatedat` is not modelled), after which the clerk id passes the DOCTOR guard |
| Doctors.PromotedKeepsKeys | blueprints/doctor/doctor_bp.py:35-43 | promotion keeps user ids and emails unique |
| Doctors.PromotedIdempotent | blueprints/doctor/doctor_bp.py:35-43 | promoting twice equals promoting once |
| Doctors.CreateDoctor | blueprints/doctor/doctor_bp.py:35-43 | 400 "User not found" for an unknown clerk id, else 200; the users become the promoted table |
| Doctors.NewDoctorDetails | blueprints/doctor/doctor_bp.py:92-120 | succeeds iff the clerk id names a DOCTOR, else 400 "User not found or not a doctor"; the row carries the 13 detail columns from the body |
| Doctors.PostDoctorDetails | blueprints/doctor/doctor_bp.py:92-120 | the details table grows by the new row exactly when NewDoctorDetails succeeds |
| Doctors.DetailsIndex | blueprints/doctor/doctor_bp.py:171-176 | the position of the first details row of the clerk id, or None |
| Doctors.GetDoctorDetails | blueprints/doctor/doctor_bp.py:165-200 | 400 "Doctor not found" unless the clerk id names a DOCTOR, 400 "Doctor details not found" without a row; 200 iff the clerk id names a DOCTOR who has a row, with the first row's columns; the reply has the detail columns, clerkid and hospital_name |
| Doctors.UpdateDoctorDetails | blueprints/doctor/doctor_bp.py:251-291 | the same guards; on success the first details row becomes the overlay of the body's present columns |
| Doctors.UserEntriesExact | blueprints/doctor/doctor_bp.py:320-332 | an entry is listed iff it is built from a profile row whose owner exists |
| Doctors.GetAllUsers | blueprints/doctor/doctor_bp.py:320-332 | the loop produces exactly UserEntries, in table order |
| Doctors.DoctorEntriesExact | blueprints/doctor/doctor_bp.py:357-372 | an entry is listed iff it is built from a details row whose clerk id names a DOCTOR |
| Doctors.GetAllDoctors | blueprints/doctor/doctor_bp.py:357-372 | the loop produces exactly DoctorEntries, in table order |
| Appointments.RoleGuard | blueprints/appointment/appointment_bp.py:54-60 | "Doctor not found" unless the doctor is a DOCTOR, then "Patient not found" unless the patient is a PATIENT; passes iff both hold |
| Appointments.Book | blueprints/appointment/appointment_bp.py:45-139 | guards first, then a bad date is a 500; otherwise one appointment is appended, approved when a doctor books and pending when a patient requests |
| Appointments.AppointmentIndex | blueprints/appointment/appointment_bp.py:181 | Appointment.query.get(id): found iff an appointment has the key, at a position holding it |
| Appointments.Restated | blueprints/appointment/appointment_bp.py:189-193 | the status becomes the sent value; the text changes only for a truthy one; nothing else changes |
| Appointments.RestatedIdempotent | blueprints/appointment/appointment_bp.py:189-193 | restating twice with the same request equals restating once |
| Appointments.UpdateAppointmentStatus | blueprints/appointment/appointment_bp.py:179-195 | 400 "Appointment not found", or that appointment restated and 200 |
| Appointments.ViewsExact | blueprints/appointment/appointment_bp.py:235-312 | a view is listed iff it is the view of an appointment matching the filter |
| Appointments.ViewNamesHospital | blueprints/appointment/appointment_bp.py:245-257 | a view has no hospital name iff its hospital id names no hospital |
| Appointments.ListAppointments | blueprints/appointment/appointment_bp.py:243-259 | the loop produces exactly the views of the matching appointments, in table order |
| Appointments.FilterFor | blueprints/appointment/appointment_bp.py:240-243 | a DOCTOR lists by doctor clerk id, anyone else by patient clerk id |
| Appointments.GetAppointments | blueprints/appointment/appointment_bp.py:235-259 | 400 "User not found" for an unknown clerk id, else 200 with that user's appointments |
| Appointments.GetPendingAppointments | blueprints/appointment/appointment_bp.py:295-312 | 200 with exactly the doctor's pending appointments; no user check |
| Appointments.RequestIsPending | blueprints/appointment/appointment_bp.py:110-139 | a requested appointment appears in its doctor's pending list |
| Appointments.RestatedLeavesPending | blueprints/appointment/appointment_bp.py:179-195 | restated to any other status, an appointment leaves every pending list but stays in the doctor's and patient's listings |
| Prescriptions.NewPrescription | blueprints/prescription/prescription_bp.py:40-64 | doctor guard, then patient guard; success iff both hold, with the body's fields and the current instant |
| Prescriptions.AddPrescription | blueprints/prescription/prescription_bp.py:40-64 | the prescription table grows by the new row exactly when NewPrescription succeeds |
| Prescriptions.NameOf | blueprints/prescription/prescription_bp.py:110-111 | "Unknown" iff no details row has the doctor's clerk id; otherwise the first such row's names |
| Prescriptions.ViewsExact | blueprints/prescription/prescription_bp.py:106-118 | a view is listed iff it is the view of one of the patient's prescriptions |
| Prescriptions.AddedIsListedLast | blueprints/prescription/prescription_bp.py:40-120 | a newly written prescription is the last one its patient sees |
| Prescriptions.GetPrescriptions | blueprints/prescription/prescription_bp.py:101-120 | 400 "Patient not found" unless the clerk id is a PATIENT; otherwise the loop produces exactly the patient's views |
| Hospitals.AddHospital | blueprints/hospital/hospital_bp.py:43-57 | appends the hospital with the body's five columns under the next key; always 201 |
| Hospitals.AddedHospitalIsFound | blueprints/hospital/hospital_bp.py:43-57 | a hospital just added is found under its key |
| Hospitals.GetHospitals | blueprints/hospital/hospital_bp.py:82-96 | 200 with every stored hospital, in table order |
| Hospitals.DoctorsAt | blueprints/hospital/hospital_bp.py:144-157 | the listing is empty iff no details row names the hospital |
| Hospitals.DoctorsAtExact | blueprints/hospital/hospital_bp.py:144-157 | a doctor is listed iff their details row names the hospital |
| Hospitals.GetDoctorsByHospital | blueprints/hospital/hospital_bp.py:137-159 | 400 iff the hospital is unknown, 404 iff it exists but no doctor works there, 200 iff it exists and some details row names it, with exactly the doctors who work there |
| Reports.Lower | blueprints/ai/ai_bp.py:30 | lower-casing maps exactly the ASCII capitals and keeps length |
| Reports.LowerAppend | blueprints/ai/ai_bp.py:197 | lower-casing distributes over concatenation |
| Reports.ContainsWithin | blueprints/ai/ai_bp.py:197 | a needle found in a string is found in any extension of it |
| Reports.LastSegment | blueprints/ai/ai_bp.py:30 | the part after the last dot: a dot-free suffix preceded by a dot or the whole name |
| Reports.Extension | blueprints/ai/ai_bp.py:30 | the lower-cased extension holds no dot and is no longer than the file name |
| Reports.ExtensionAfterLastDot | blueprints/ai/ai_bp.py:30-32 | the extension of stem.ext is ext lower-cased when ext has no dot |
| Reports.ExtensionWithoutDot | blueprints/ai/ai_bp.py:30-32 | a name with no dot is its own (lower-cased) extension |
| Reports.UploadAndProcess | blueprints/ai/ai_bp.py:25-61 | "No file uploaded", then the unsupported-format 400, then extraction/summary failures as 500, then the clerk id and user checks; success stores one report and returns text and summary |
| Reports.Insert | blueprints/ai/ai_bp.py:113 | inserting adds exactly the one report |
| Reports.InsertKeepsOrder | blueprints/ai/ai_bp.py:113 | inserting into a newest-first list keeps it newest first |
| Reports.SortNewestFirst | blueprints/ai/ai_bp.py:113 | sorting is a permutation |
| Reports.SortNewestFirstOrders | blueprints/ai/ai_bp.py:113 | the sorted list is newest first |
| Reports.ReportsOf | blueprints/ai/ai_bp.py:113 | the filter keeps every report of the clerk id, with its multiplicity, and nothing else |
| Reports.GetReports | blueprints/ai/ai_bp.py:106-125 | 400 "User not found" iff the user is unknown; otherwise 200 with exactly that user's reports, newest first |
| Reports.HealthRelated | blueprints/ai/ai_bp.py:197 | a goal passes the keyword gate only if it is at least as long as the shortest keyword (4 characters) |
| Reports.HealthRelatedWithin | blueprints/ai/ai_bp.py:197 | a goal that is health related stays so when extended |
| Reports.HealthRelatedIgnoresCase | blueprints/ai/ai_bp.py:197 | the keyword gate gives the same answer for a goal and its lower-cased form |
| Reports.LowerIdempotent | blueprints/ai/ai_bp.py:197 | lower-casing an already lower-cased goal changes nothing |
| Reports.Query | blueprints/ai/ai_bp.py:200 | the query embeds the goal verbatim at a fixed offset |
| Reports.GenerateRoutine | blueprints/ai/ai_bp.py:190-206 | missing goal → 400, non-string goal → 500, unrelated goal → 400; otherwise the generator's answer as 200, or its error as 500 |

## Left out

- HTTP routing, JSON serialisation, sessions, `swag_from` documentation and logging are not modelled. Handlers take the parsed body as a map and return a status with a body.
- The SMS gateway, OCR, summarisation and Gemini calls, and `datetime.fromisoformat`, are not modelled inside. Their outcomes are parameters; utils/gemini.py and utils/file_upload.py are not part of this model.
- The clock is a parameter (`now`). Timestamps are whole seconds; microseconds are not modelled.
- JSON booleans, lists and nested objects in bodies are not modelled: `Value` has only null, strings, numbers and dates. A non-boolean parking status is not modelled.
- Names rendered with `f"{first} {last}"` stay structured (first and last) rather than as strings. Instants stay integers rather than `isoformat()` text.
- Floating-point rounding is not modelled: quantities and bills are `real`.
- Unicode digits in dates, and Unicode case folding in `lower()`, are not modelled (ASCII only).
- Commit failures are modelled only where the shown schema decides them: NOT NULL columns, the unique email, primary keys. Column type mismatches and the user_details.user_id → users.id foreign key are not modelled.
- Sequence values consumed by failed inserts are not modelled: keys count up only on successful inserts.
- `first()` and unordered `all()` return the first rows in table order. Ties in the newest-first report listing stay in table order, where the database leaves them unspecified.
- The Appointment, Prescription, DoctorDetails, TextReport and Hospital models are not part of the shown source. Their columns follow what the handlers read and write. `prescription_date` and `created_at` are assumed to default to the instant of the insert.
- Doctors.GetAllUsers: the handler reads `user_details.clerkid`, a column the shown UserDetails model lacks. The model joins on a "clerkid" column of the profile row, which is null when absent. It does not model the AttributeError that the shown schema would raise.
- Non-numeric ids in URLs (appointment and hospital ids arrive as strings) are not modelled: ids are integers.
- The `convert_to_date` defined in blueprints/doctor/doctor_bp.py:11-17 is never called there, so it has no model of its own. The user profile version is modelled as Profiles.ConvertToDate.
- Which blueprints app.py registers is not modelled; every handler is modelled as if reachable.
- Facility.RecordUsage: an absent key and a JSON null are the same missing value, so a null sensor_name or quantity is reported as KeyError, where the source raises AttributeError (null sensor_name) or IntegrityError at commit (null quantity); the status (500) and the unchanged table are the same.
- User.createdat and User.updatedat are not modelled: the database clock sets them, and any commit that changes a user row (promotion to DOCTOR included) also bumps `updatedat`.
- Facility.FacilityDb.ReceiveGarbageAlert: the message text of the SMS and its contact number are not modelled, only whether a contact is configured.
- Usage.ShadowedHelperAgrees: states agreement of totals and record counts, not record dates, because the shadowed helper dates records in IST.

## Findings

| source | as written | input that shows it | evidently intended | confidence | as-written member | corrected member |
|---|---|---|---|---|---|---|
| blueprints/management/management_bp.py:540-556 | the energy bill window is the naive UTC month [datetime(y, m, 1), datetime(y, m + 1, 1)), which raises for December and ignores IST | any year with month 12 (always 500); a reading at 2025-03-31 20:00 UTC billed in March but reported as April usage | bill the same IST month that get_monthly_energy_usage reports, December included | not executed | Usage.EnergyBill (shown by Usage.EnergyBillDisagreesWithUsage and Usage.DecemberEnergyBill) | Usage.EnergyBillCorrected |
