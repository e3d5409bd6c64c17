/** The assignment ledger: the patient-doctor mapping record, its status choices, `clean` and
    `__str__` (mappings/models.py); the create validator, the update serializer and the
    rendering serializer's validator (mappings/serializers.py); and the owner-scoped reads of
    mappings/views.py. The writes are methods of Clinic.Store. */
module Mappings {
  import opened Common
  import Patients
  import Doctors

  datatype Status = Active | Inactive | Completed

  /** The status a mapping gets when none is given. */
  const DefaultStatus := Active

  function StatusValue(s: Status): string {
    match s
    case Active => "active"
    case Inactive => "inactive"
    case Completed => "completed"
  }

  function StatusDisplay(s: Status): string {
    match s
    case Active => "Active"
    case Inactive => "Inactive"
    case Completed => "Completed"
  }

  function ParseStatus(v: string): (r: Option<Status>)
    ensures r.Some? ==> StatusValue(r.value) == v
    ensures r.None? ==> forall s :: StatusValue(s) != v
  {
    if v == "active" then Some(Active)
    else if v == "inactive" then Some(Inactive)
    else if v == "completed" then Some(Completed)
    else None
  }

  predicate IsStatusValue(v: string) {
    ParseStatus(v).Some?
  }

  /** The status-choices endpoint: the three declared pairs in declaration order, each value
      reading back as its status. */
  function StatusChoices(): (r: seq<Choice>)
    ensures |r| == 3
    ensures ParseStatus(r[0].value) == Some(Active) && ParseStatus(r[1].value) == Some(Inactive)
    ensures ParseStatus(r[2].value) == Some(Completed)
    ensures forall i :: 0 <= i < 3 ==> r[i].display == StatusDisplay(ParseStatus(r[i].value).value)
  {
    [Choice("active", "Active"), Choice("inactive", "Inactive"), Choice("completed", "Completed")]
  }

  /** An assignment of a doctor to a patient. `assignedDate` is the day of creation, from an
      abstract clock. */
  datatype Mapping = Mapping(
    patient: nat,
    doctor: nat,
    assignedDate: nat,
    status: Status,
    notes: Option<string>,
    createdBy: nat)

  /** The (patient, doctor, status) triple the store keeps unique. */
  function Triple(m: Mapping): (nat, nat, Status) {
    (m.patient, m.doctor, m.status)
  }

  /** The store's unique constraint: no two mappings share a triple, whatever the status. */
  ghost predicate UniqueTriples(mappings: map<nat, Mapping>) {
    forall i, j :: i in mappings && j in mappings && i != j ==> Triple(mappings[i]) != Triple(mappings[j])
  }

  /** No mapping other than `except` holds this triple: saving a row with it keeps the
      constraint. */
  predicate TripleFree(mappings: map<nat, Mapping>, t: (nat, nat, Status), except: Option<nat>) {
    forall k :: k in mappings && Some(k) != except ==> Triple(mappings[k]) != t
  }

  lemma TripleFreeKeepsUnique(mappings: map<nat, Mapping>, id: nat, m: Mapping)
    requires UniqueTriples(mappings)
    requires TripleFree(mappings, Triple(m), Some(id))
    ensures UniqueTriples(mappings[id := m])
  {
  }

  /** A create request body; absent keys are None. */
  datatype CreateRequest = CreateRequest(patient: Option<nat>, doctor: Option<nat>, status: Option<string>, notes: Option<string>)

  /** The data the create serializer hands to `validate`: the patient and doctor resolved. */
  datatype Attrs = Attrs(patient: nat, doctor: nat, status: Option<Status>, notes: Option<string>)

  /** `attrs.get('status', 'active')`: an omitted status is taken as active. */
  function RequestedStatus(a: Attrs): (s: Status)
    ensures a.status.None? ==> s == Active
    ensures a.status.Some? ==> s == a.status.value
  {
    if a.status.Some? then a.status.value else DefaultStatus
  }

  function InvalidPkMessage(pk: nat): string {
    "Invalid pk \"" + NatToString(pk) + "\" - object does not exist."
  }

  /** A related-record field: required, and it must name an existing record of any owner. */
  function RelationErrors(field: string, v: Option<nat>, keys: set<nat>): (r: seq<FieldError>)
    ensures r == [] <==> v.Some? && v.value in keys
  {
    if v.None? then [FieldError(field, RequiredMessage)]
    else if v.value !in keys then [FieldError(field, InvalidPkMessage(v.value))]
    else []
  }

  /** The status field: optional, since the model gives it a default. */
  function StatusErrors(v: Option<string>): (r: seq<FieldError>)
    ensures r == [] <==> v.None? || IsStatusValue(v.value)
  {
    ChoiceErrors(Create, false, "status", v, IsStatusValue)
  }

  /** The notes field: optional free text, blank allowed. */
  const NotesRule := TextRule(false, true, None)

  /** Field-level validation of a create request, in field order. */
  function CreateFieldErrors(req: CreateRequest, patients: map<nat, Patients.Patient>, doctors: map<nat, Doctors.Doctor>): (r: seq<FieldError>)
    ensures r == [] <==> && req.patient.Some? && req.patient.value in patients
                         && req.doctor.Some? && req.doctor.value in doctors
                         && (req.status.None? || IsStatusValue(req.status.value))
                         && TextAcceptable(Create, req.notes, NotesRule)
  {
    RelationErrors("patient", req.patient, patients.Keys)
    + RelationErrors("doctor", req.doctor, doctors.Keys)
    + StatusErrors(req.status)
    + TextErrors(Create, "notes", req.notes, NotesRule)
  }

  /** A mapping for this pair with this status exists. */
  predicate HasMapping(mappings: map<nat, Mapping>, patient: nat, doctor: nat, status: Status) {
    exists k :: k in mappings && Triple(mappings[k]) == (patient, doctor, status)
  }

  const OwnPatientsOnlyMessage := "You can only assign doctors to your own patients."
  const InactiveDoctorMessage := "Cannot assign an inactive doctor."

  /** The duplicate-assignment message as both serializers build it, and as the validators
      below send it. The doctor's full name already begins with "Dr. ", so the title is printed
      twice. */
  function AlreadyAssignedMessageAsWritten(p: Patients.Patient, d: Doctors.Doctor): string {
    "Patient " + Patients.FullName(p) + " is already actively assigned to Dr. " + Doctors.FullName(d)
  }

  lemma AsWrittenMessageDoublesTitle(p: Patients.Patient, d: Doctors.Doctor)
    ensures var at := |"Patient " + Patients.FullName(p) + " is already actively assigned to "|;
            var s := AlreadyAssignedMessageAsWritten(p, d);
            at + 8 <= |s| && s[at..at + 8] == "Dr. Dr. "
  {
    var head := "Patient " + Patients.FullName(p) + " is already actively assigned to ";
    var s := AlreadyAssignedMessageAsWritten(p, d);
    assert s == head + ("Dr. " + Doctors.FullName(d));
    assert ("Dr. " + Doctors.FullName(d))[..8] == "Dr. Dr. ";
    assert s[|head|..|head| + 8] == ("Dr. " + Doctors.FullName(d))[..8];
  }

  /** The duplicate-assignment message with the title once, as evidently intended; the
      reference the as-written text is measured against. */
  function AlreadyAssignedMessage(p: Patients.Patient, d: Doctors.Doctor): (r: string)
    ensures r == "Patient " + p.firstName + " " + p.lastName + " is already actively assigned to Dr. "
                 + d.firstName + " " + d.lastName
  {
    "Patient " + Patients.FullName(p) + " is already actively assigned to " + Doctors.FullName(d)
  }

  /** The confirmation of a mapping delete as the view builds it and Clinic.Store.DeleteMapping
      sends it: the title is printed twice here too. */
  function RemovedMessageAsWritten(p: Patients.Patient, d: Doctors.Doctor): string {
    "Removed Dr. " + Doctors.FullName(d) + " from patient " + Patients.FullName(p)
  }

  lemma AsWrittenRemovalDoublesTitle(p: Patients.Patient, d: Doctors.Doctor)
    ensures var s := RemovedMessageAsWritten(p, d);
            16 <= |s| && s[..16] == "Removed Dr. Dr. "
  {
    var s := RemovedMessageAsWritten(p, d);
    assert s == "Removed " + ("Dr. " + Doctors.FullName(d)) + " from patient " + Patients.FullName(p);
    assert ("Dr. " + Doctors.FullName(d))[..8] == "Dr. Dr. ";
  }

  /** The confirmation of a mapping delete with the title once, as evidently intended. */
  function RemovedMessage(p: Patients.Patient, d: Doctors.Doctor): (r: string)
    ensures r == "Removed Dr. " + d.firstName + " " + d.lastName + " from patient " + p.firstName + " " + p.lastName
  {
    "Removed " + Doctors.FullName(d) + " from patient " + Patients.FullName(p)
  }

  function Reject<T>(message: string): Validated<T> {
    Failed([FieldError(NonFieldErrors, message)])
  }

  /** The create serializer's `validate`, three checks in order: the patient must be the
      caller's, the doctor must be active, and an active request must not repeat an active
      mapping for the pair. Accepted data is returned unchanged. */
  function ValidateCreateAttrs(a: Attrs, caller: nat, patients: map<nat, Patients.Patient>,
                               doctors: map<nat, Doctors.Doctor>, mappings: map<nat, Mapping>): (r: Validated<Attrs>)
    requires a.patient in patients && a.doctor in doctors
    ensures r.Passed? ==> r.value == a
    ensures r.Failed? ==> |r.errors| == 1 && r.errors[0].field == NonFieldErrors
    ensures patients[a.patient].createdBy != caller ==> r == Reject(OwnPatientsOnlyMessage)
    ensures patients[a.patient].createdBy == caller && !doctors[a.doctor].isActive ==> r == Reject(InactiveDoctorMessage)
    ensures patients[a.patient].createdBy == caller && doctors[a.doctor].isActive ==>
              (r.Failed? <==> RequestedStatus(a) == Active && HasMapping(mappings, a.patient, a.doctor, Active))
    ensures r.Failed? && patients[a.patient].createdBy == caller && doctors[a.doctor].isActive ==>
              r == Reject(AlreadyAssignedMessageAsWritten(patients[a.patient], doctors[a.doctor]))
  {
    var p := patients[a.patient];
    var d := doctors[a.doctor];
    if p.createdBy != caller then Reject(OwnPatientsOnlyMessage)
    else if !d.isActive then Reject(InactiveDoctorMessage)
    else if HasMapping(mappings, a.patient, a.doctor, Active) && RequestedStatus(a) == Active then
      Reject(AlreadyAssignedMessageAsWritten(p, d))
    else Passed(a)
  }

  /** A request for an inactive or completed mapping is never refused as a duplicate. */
  lemma NonActiveNeverDuplicate(a: Attrs, caller: nat, patients: map<nat, Patients.Patient>,
                                doctors: map<nat, Doctors.Doctor>, mappings: map<nat, Mapping>)
    requires a.patient in patients && a.doctor in doctors
    requires a.status == Some(Inactive) || a.status == Some(Completed)
    requires patients[a.patient].createdBy == caller && doctors[a.doctor].isActive
    ensures ValidateCreateAttrs(a, caller, patients, doctors, mappings) == Passed(a)
  {
  }

  /** The attributes of a request that passed field-level validation. */
  function ToAttrs(req: CreateRequest): (a: Attrs)
    requires req.patient.Some? && req.doctor.Some? && (req.status.None? || IsStatusValue(req.status.value))
    ensures a.patient == req.patient.value && a.doctor == req.doctor.value && a.notes == req.notes
    ensures a.status.None? <==> req.status.None?
    ensures a.status.Some? ==> StatusValue(a.status.value) == req.status.value
  {
    Attrs(req.patient.value, req.doctor.value,
          if req.status.Some? then ParseStatus(req.status.value) else None, req.notes)
  }

  /** `is_valid()` of the create serializer: field checks first, then `validate`. What it
      accepts names the caller's own patient, an active doctor, and, when active, a pair with no
      active mapping. */
  function ValidateCreate(req: CreateRequest, caller: nat, patients: map<nat, Patients.Patient>,
                          doctors: map<nat, Doctors.Doctor>, mappings: map<nat, Mapping>): (r: Validated<Attrs>)
    ensures CreateFieldErrors(req, patients, doctors) != [] ==> r == Failed(CreateFieldErrors(req, patients, doctors))
    ensures CreateFieldErrors(req, patients, doctors) == [] ==>
              r == ValidateCreateAttrs(ToAttrs(req), caller, patients, doctors, mappings)
    ensures r.Passed? ==> r.value == ToAttrs(req)
    ensures r.Passed? ==> && r.value.patient in patients && patients[r.value.patient].createdBy == caller
                          && r.value.doctor in doctors && doctors[r.value.doctor].isActive
                          && (RequestedStatus(r.value) == Active ==> !HasMapping(mappings, r.value.patient, r.value.doctor, Active))
  {
    var errs := CreateFieldErrors(req, patients, doctors);
    if errs != [] then Failed(errs)
    else ValidateCreateAttrs(ToAttrs(req), caller, patients, doctors, mappings)
  }

  /** The row a validated create saves: stamped with the caller and the day, status defaulting
      to active. */
  function NewMapping(a: Attrs, caller: nat, today: nat): (m: Mapping)
    ensures m.patient == a.patient && m.doctor == a.doctor && m.notes == a.notes
    ensures m.createdBy == caller && m.assignedDate == today && m.status == RequestedStatus(a)
  {
    Mapping(a.patient, a.doctor, today, RequestedStatus(a), a.notes, caller)
  }

  /** The validator admits a second inactive mapping for a pair, but the store's constraint on
      the full triple refuses to save it: saving a validated create can fail. */
  lemma SecondInactiveMappingPassesValidatorButNotStore(caller: nat, patient: nat, doctor: nat, notes: Option<string>,
                                                         today: nat, patients: map<nat, Patients.Patient>,
                                                         doctors: map<nat, Doctors.Doctor>, mappings: map<nat, Mapping>)
    requires patient in patients && patients[patient].createdBy == caller
    requires doctor in doctors && doctors[doctor].isActive
    requires HasMapping(mappings, patient, doctor, Inactive)
    requires TextAcceptable(Create, notes, NotesRule)
    ensures var v := ValidateCreate(CreateRequest(Some(patient), Some(doctor), Some("inactive"), notes), caller, patients, doctors, mappings);
            && v == Passed(Attrs(patient, doctor, Some(Inactive), notes))
            && !TripleFree(mappings, Triple(NewMapping(v.value, caller, today)), None)
  {
    var req := CreateRequest(Some(patient), Some(doctor), Some("inactive"), notes);
    assert CreateFieldErrors(req, patients, doctors) == [];
    assert ToAttrs(req) == Attrs(patient, doctor, Some(Inactive), notes);
    var k :| k in mappings && Triple(mappings[k]) == (patient, doctor, Inactive);
    assert Triple(mappings[k]) == Triple(NewMapping(Attrs(patient, doctor, Some(Inactive), notes), caller, today));
  }

  /** The rendering serializer's `validate`, which no write path calls. Its checks differ from
      the create validator's: the ownership check is skipped without a request, the duplicate
      search looks for the requested status, and it leaves out the mapping being edited. */
  function ValidateForRendering(a: Attrs, caller: Option<nat>, instance: Option<nat>,
                                patients: map<nat, Patients.Patient>, doctors: map<nat, Doctors.Doctor>,
                                mappings: map<nat, Mapping>): (r: Validated<Attrs>)
    requires a.patient in patients && a.doctor in doctors
    ensures r.Passed? ==> r.value == a
    ensures caller.Some? && patients[a.patient].createdBy != caller.value ==> r == Reject(OwnPatientsOnlyMessage)
    ensures (caller.None? || patients[a.patient].createdBy == caller.value) && doctors[a.doctor].isActive ==>
              (r.Failed? <==> RequestedStatus(a) == Active
                              && !TripleFree(mappings, (a.patient, a.doctor, Active), instance))
    ensures (caller.None? || patients[a.patient].createdBy == caller.value) && !doctors[a.doctor].isActive ==>
              r == Reject(InactiveDoctorMessage)
    ensures r.Failed? && (caller.None? || patients[a.patient].createdBy == caller.value) && doctors[a.doctor].isActive ==>
              r == Reject(AlreadyAssignedMessageAsWritten(patients[a.patient], doctors[a.doctor]))
  {
    var p := patients[a.patient];
    var d := doctors[a.doctor];
    var status := RequestedStatus(a);
    if caller.Some? && p.createdBy != caller.value then Reject(OwnPatientsOnlyMessage)
    else if !d.isActive then Reject(InactiveDoctorMessage)
    else if !TripleFree(mappings, (a.patient, a.doctor, status), instance) && status == Active then
      Reject(AlreadyAssignedMessageAsWritten(p, d))
    else Passed(a)
  }

  /** For a new mapping with a request present, the rendering validator decides exactly as the
      create validator does. */
  lemma RenderingAgreesWithCreate(a: Attrs, caller: nat, patients: map<nat, Patients.Patient>,
                                  doctors: map<nat, Doctors.Doctor>, mappings: map<nat, Mapping>)
    requires a.patient in patients && a.doctor in doctors
    ensures ValidateForRendering(a, Some(caller), None, patients, doctors, mappings)
            == ValidateCreateAttrs(a, caller, patients, doctors, mappings)
  {
    if RequestedStatus(a) == Active {
      if HasMapping(mappings, a.patient, a.doctor, Active) {
        var k :| k in mappings && Triple(mappings[k]) == (a.patient, a.doctor, Active);
        assert !TripleFree(mappings, (a.patient, a.doctor, Active), None);
      }
    }
  }

  /** The mapping being edited never counts as its own duplicate. */
  lemma RenderingExcludesInstance(id: nat, patients: map<nat, Patients.Patient>,
                                  doctors: map<nat, Doctors.Doctor>, mappings: map<nat, Mapping>)
    requires id in mappings && UniqueTriples(mappings)
    requires mappings[id].patient in patients && mappings[id].doctor in doctors
    requires doctors[mappings[id].doctor].isActive
    ensures var m := mappings[id];
            var a := Attrs(m.patient, m.doctor, Some(m.status), m.notes);
            ValidateForRendering(a, None, Some(id), patients, doctors, mappings) == Passed(a)
  {
  }

  /** An update body: only status and notes, both optional. */
  datatype UpdateRequest = UpdateRequest(status: Option<string>, notes: Option<string>)

  /** `is_valid()` of the update serializer. It consults no table: no ownership, activity or
      duplicate check; only the status must be a declared choice and the notes free of null
      characters, when given. */
  function ValidateUpdate(req: UpdateRequest): (r: Validated<UpdateRequest>)
    ensures r.Passed? <==> (req.status.None? || IsStatusValue(req.status.value)) && TextAcceptable(Update, req.notes, NotesRule)
    ensures r.Passed? ==> r.value == req
  {
    var errs := StatusErrors(req.status) + TextErrors(Update, "notes", req.notes, NotesRule);
    if errs != [] then Failed(errs) else Passed(req)
  }

  /** A partial update of status and notes; patient, doctor, owner and assignment date stay. */
  function ApplyUpdate(m: Mapping, req: UpdateRequest): (n: Mapping)
    requires req.status.Some? ==> IsStatusValue(req.status.value)
    ensures n.patient == m.patient && n.doctor == m.doctor
    ensures n.createdBy == m.createdBy && n.assignedDate == m.assignedDate
    ensures n.status == (if req.status.Some? then ParseStatus(req.status.value).value else m.status)
    ensures n.notes == (if req.notes.Some? then req.notes else m.notes)
  {
    m.(status := if req.status.Some? then ParseStatus(req.status.value).value else m.status,
       notes := if req.notes.Some? then req.notes else m.notes)
  }

  /** `__str__`: "<patient full name> -> <doctor full name> (<status value>)". */
  function Describe(m: Mapping, patients: map<nat, Patients.Patient>, doctors: map<nat, Doctors.Doctor>): (r: string)
    requires m.patient in patients && m.doctor in doctors
    ensures var pn := Patients.FullName(patients[m.patient]);
            var tail := " (" + StatusValue(m.status) + ")";
            |r| > |pn| + 4 + |tail| && r[..|pn|] == pn && r[|pn|..|pn| + 4] == " -> "
            && r[|pn| + 4..|r| - |tail|] == Doctors.FullName(doctors[m.doctor])
            && r[|r| - |tail|..] == tail
  {
    Patients.FullName(patients[m.patient]) + " -> " + Doctors.FullName(doctors[m.doctor]) + " (" + StatusValue(m.status) + ")"
  }

  /** `clean`: a mapping must be owned by its patient's owner. */
  function Clean(m: Mapping, patients: map<nat, Patients.Patient>): (r: Option<string>)
    requires m.patient in patients
    ensures r.None? <==> patients[m.patient].createdBy == m.createdBy
  {
    if patients[m.patient].createdBy != m.createdBy then Some(OwnPatientsOnlyMessage) else None
  }

  /** An empty status filter is ignored; any other keeps mappings whose stored value equals it. */
  predicate Selected(m: Mapping, statusFilter: string) {
    statusFilter == "" || StatusValue(m.status) == statusFilter
  }

  /** The list endpoint: exactly the caller's mappings, narrowed by the status filter. */
  function ListOwned(mappings: map<nat, Mapping>, caller: nat, statusFilter: string): (r: Listing<Mapping>)
    ensures r.count == |r.items|
    ensures forall k :: k in r.items <==> k in mappings && mappings[k].createdBy == caller && Selected(mappings[k], statusFilter)
    ensures forall k :: k in r.items ==> r.items[k] == mappings[k]
  {
    var owned := map k | k in mappings && mappings[k].createdBy == caller :: mappings[k];
    var filtered := if statusFilter != "" then map k | k in owned && StatusValue(owned[k].status) == statusFilter :: owned[k] else owned;
    ListingOf(filtered)
  }

  /** A status filter that names no declared status selects nothing. */
  lemma UnknownStatusFilterSelectsNothing(mappings: map<nat, Mapping>, caller: nat, statusFilter: string)
    requires statusFilter != "" && !IsStatusValue(statusFilter)
    ensures ListOwned(mappings, caller, statusFilter).items == map[]
  {
  }

  /** The body of the per-patient listing: the patient's full name and its mappings. */
  datatype PatientMappings = PatientMappings(patientName: string, listing: Listing<Mapping>)

  /** The per-patient endpoint: not found unless the patient exists and is the caller's; else
      that patient's mappings created by the caller, narrowed by the status filter. */
  function ByPatient(patients: map<nat, Patients.Patient>, mappings: map<nat, Mapping>, caller: nat,
                     patientId: nat, statusFilter: string): (r: Outcome<PatientMappings>)
    ensures r.Ok? <==> patientId in patients && patients[patientId].createdBy == caller
    ensures !r.Ok? ==> r == NotFound
    ensures r.Ok? ==> && r.value.patientName == Patients.FullName(patients[patientId])
                      && r.value.listing.count == |r.value.listing.items|
                      && forall k :: k in r.value.listing.items <==>
                           k in mappings && mappings[k].patient == patientId && mappings[k].createdBy == caller
                           && Selected(mappings[k], statusFilter)
    ensures r.Ok? ==> forall k :: k in r.value.listing.items ==> r.value.listing.items[k] == mappings[k]
  {
    if patientId in patients && patients[patientId].createdBy == caller then
      var own := map k | k in mappings && mappings[k].patient == patientId && mappings[k].createdBy == caller :: mappings[k];
      var filtered := if statusFilter != "" then map k | k in own && StatusValue(own[k].status) == statusFilter :: own[k] else own;
      Ok(PatientMappings(Patients.FullName(patients[patientId]), ListingOf(filtered)))
    else NotFound
  }

  /** The cascades of the patient, doctor and creator foreign keys. */
  function WithoutPatient(mappings: map<nat, Mapping>, patientId: nat): (r: map<nat, Mapping>)
    ensures forall k :: k in r <==> k in mappings && mappings[k].patient != patientId
    ensures forall k :: k in r ==> r[k] == mappings[k]
  {
    map k | k in mappings && mappings[k].patient != patientId :: mappings[k]
  }

  function WithoutDoctor(mappings: map<nat, Mapping>, doctorId: nat): (r: map<nat, Mapping>)
    ensures forall k :: k in r <==> k in mappings && mappings[k].doctor != doctorId
    ensures forall k :: k in r ==> r[k] == mappings[k]
  {
    map k | k in mappings && mappings[k].doctor != doctorId :: mappings[k]
  }
}
