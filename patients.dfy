/** The patient registry: the Patient record (patients/models.py), the field and e-mail
    validation of its serializers (patients/serializers.py), and the owner-scoped reads of its
    views (patients/views.py). The writes are methods of Clinic.Store. */
module Patients {
  import opened Common

  datatype Gender = Male | Female | Other

  /** The one-letter code stored for a gender. */
  function GenderCode(g: Gender): string {
    match g
    case Male => "M"
    case Female => "F"
    case Other => "O"
  }

  function GenderDisplay(g: Gender): string {
    match g
    case Male => "Male"
    case Female => "Female"
    case Other => "Other"
  }

  /** The declared gender choices, in declaration order. */
  const GenderChoices: seq<Choice> := [Choice("M", "Male"), Choice("F", "Female"), Choice("O", "Other")]

  function ParseGender(s: string): (r: Option<Gender>)
    ensures r.Some? ==> GenderCode(r.value) == s
    ensures r.None? ==> forall g :: GenderCode(g) != s
  {
    if s == "M" then Some(Male) else if s == "F" then Some(Female) else if s == "O" then Some(Other) else None
  }

  predicate IsGenderCode(s: string) {
    ParseGender(s).Some?
  }

  lemma GenderChoicesMatchCodes(g: Gender)
    ensures ParseGender(GenderCode(g)) == Some(g)
    ensures Choice(GenderCode(g), GenderDisplay(g)) in GenderChoices
  {
  }

  datatype Patient = Patient(
    firstName: string,
    lastName: string,
    email: string,
    phone: string,
    dateOfBirth: string,
    gender: Gender,
    address: string,
    city: string,
    state: string,
    zipCode: string,
    bloodGroup: Option<string>,
    allergies: Option<string>,
    medicalHistory: Option<string>,
    createdBy: nat)

  /** `full_name`: first name, one space, last name. */
  function FullName(p: Patient): (r: string)
    ensures |r| == |p.firstName| + 1 + |p.lastName|
    ensures r[..|p.firstName|] == p.firstName && r[|p.firstName|] == ' '
    ensures r[|p.firstName| + 1..] == p.lastName
  {
    p.firstName + " " + p.lastName
  }

  /** A request body for create or update. The read-only fields (id, created_by, created_at,
      updated_at) have no place in it: whatever the client sends for them is ignored. */
  datatype PatientRequest = PatientRequest(
    firstName: Option<string>,
    lastName: Option<string>,
    email: Option<string>,
    phone: Option<string>,
    dateOfBirth: Option<string>,
    gender: Option<string>,
    address: Option<string>,
    city: Option<string>,
    state: Option<string>,
    zipCode: Option<string>,
    bloodGroup: Option<string>,
    allergies: Option<string>,
    medicalHistory: Option<string>)

  const EmptyRequest := PatientRequest(None, None, None, None, None, None, None, None, None, None, None, None, None)

  const NameRule := TextRule(true, false, Some(50))
  const EmailRule := TextRule(true, false, None)
  const PhoneRule := TextRule(true, false, Some(15))
  const DateRule := TextRule(true, false, None)
  const AddressRule := TextRule(true, false, None)
  const PlaceRule := TextRule(true, false, Some(50))
  const ZipRule := TextRule(true, false, Some(10))
  const BloodGroupRule := TextRule(false, true, Some(5))
  const MedicalTextRule := TextRule(false, true, None)

  const EmailTakenMessage := "A patient with this email already exists."

  /** `validate_email`: the record's own current address is always kept; any other address
      already held by a patient of any owner is refused. */
  predicate EmailAvailable(patients: map<nat, Patient>, instance: Option<Patient>, email: string) {
    (instance.Some? && instance.value.email == email)
    || forall id :: id in patients ==> patients[id].email != email
  }

  function EmailErrors(email: Option<string>, patients: map<nat, Patient>, instance: Option<Patient>): (r: seq<FieldError>)
    ensures |r| <= 2 && forall e :: e in r ==> e.field == "email"
    ensures r == [] <==> TextAcceptable(OpOf(instance), email, EmailRule) && (email.Some? ==> EmailAvailable(patients, instance, email.value))
  {
    var basic := TextErrors(OpOf(instance), "email", email, EmailRule);
    if basic != [] || email.None? then basic
    else if instance.Some? && instance.value.email == email.value then []
    else if exists id :: id in patients && patients[id].email == email.value then [FieldError("email", EmailTakenMessage)]
    else []
  }

  /** Every field's own checks, e-mail aside. */
  predicate FieldsAcceptable(op: Op, req: PatientRequest) {
    && TextAcceptable(op, req.firstName, NameRule)
    && TextAcceptable(op, req.lastName, NameRule)
    && TextAcceptable(op, req.phone, PhoneRule)
    && TextAcceptable(op, req.dateOfBirth, DateRule)
    && ChoiceAcceptable(op, true, req.gender, IsGenderCode)
    && TextAcceptable(op, req.address, AddressRule)
    && TextAcceptable(op, req.city, PlaceRule)
    && TextAcceptable(op, req.state, PlaceRule)
    && TextAcceptable(op, req.zipCode, ZipRule)
    && TextAcceptable(op, req.bloodGroup, BloodGroupRule)
    && TextAcceptable(op, req.allergies, MedicalTextRule)
    && TextAcceptable(op, req.medicalHistory, MedicalTextRule)
  }

  /** What the patient serializer accepts, for a create (no instance) or an update. */
  predicate Acceptable(req: PatientRequest, patients: map<nat, Patient>, instance: Option<Patient>) {
    && FieldsAcceptable(OpOf(instance), req)
    && TextAcceptable(OpOf(instance), req.email, EmailRule)
    && (req.email.Some? ==> EmailAvailable(patients, instance, req.email.value))
  }

  /** The serializer's validation report, in field order; empty exactly when it accepts. */
  function PatientErrors(req: PatientRequest, patients: map<nat, Patient>, instance: Option<Patient>): (r: seq<FieldError>)
    ensures r == [] <==> Acceptable(req, patients, instance)
  {
    var op := OpOf(instance);
    TextErrors(op, "first_name", req.firstName, NameRule)
    + TextErrors(op, "last_name", req.lastName, NameRule)
    + EmailErrors(req.email, patients, instance)
    + TextErrors(op, "phone", req.phone, PhoneRule)
    + TextErrors(op, "date_of_birth", req.dateOfBirth, DateRule)
    + ChoiceErrors(op, true, "gender", req.gender, IsGenderCode)
    + TextErrors(op, "address", req.address, AddressRule)
    + TextErrors(op, "city", req.city, PlaceRule)
    + TextErrors(op, "state", req.state, PlaceRule)
    + TextErrors(op, "zip_code", req.zipCode, ZipRule)
    + TextErrors(op, "blood_group", req.bloodGroup, BloodGroupRule)
    + TextErrors(op, "allergies", req.allergies, MedicalTextRule)
    + TextErrors(op, "medical_history", req.medicalHistory, MedicalTextRule)
  }

  /** An e-mail address held by any patient, of any owner, is refused on create. */
  lemma TakenEmailRefusedOnCreate(req: PatientRequest, patients: map<nat, Patient>, holder: nat)
    requires req.email.Some? && req.email.value != "" && '\0' !in req.email.value
    requires holder in patients && patients[holder].email == req.email.value
    ensures FieldError("email", EmailTakenMessage) in PatientErrors(req, patients, None)
  {
    var op := OpOf<Patient>(None);
    var before := TextErrors(op, "first_name", req.firstName, NameRule) + TextErrors(op, "last_name", req.lastName, NameRule);
    var e := EmailErrors(req.email, patients, None);
    assert e == [FieldError("email", EmailTakenMessage)];
    assert PatientErrors(req, patients, None)[|before|] == e[0];
  }

  /** On update, an address held by another patient is refused unless it is the record's own. */
  lemma TakenEmailRefusedOnUpdate(req: PatientRequest, patients: map<nat, Patient>, current: Patient, holder: nat)
    requires req.email.Some? && req.email.value != "" && '\0' !in req.email.value && req.email.value != current.email
    requires holder in patients && patients[holder].email == req.email.value
    ensures FieldError("email", EmailTakenMessage) in PatientErrors(req, patients, Some(current))
  {
    var op := OpOf(Some(current));
    var before := TextErrors(op, "first_name", req.firstName, NameRule) + TextErrors(op, "last_name", req.lastName, NameRule);
    var e := EmailErrors(req.email, patients, Some(current));
    assert e == [FieldError("email", EmailTakenMessage)];
    assert FieldError("email", EmailTakenMessage) in before + e;
  }

  /** Resubmitting the record's own current address never draws an e-mail error. */
  lemma OwnEmailKeptOnUpdate(req: PatientRequest, patients: map<nat, Patient>, current: Patient)
    requires req.email == Some(current.email) && current.email != "" && '\0' !in current.email
    ensures forall e :: e in PatientErrors(req, patients, Some(current)) ==> e.field != "email"
  {
  }

  /** A partial update may leave every field out; a create may not leave out a required one. */
  lemma UpdateMayOmitAllButCreateMayNot(patients: map<nat, Patient>, current: Patient)
    ensures PatientErrors(EmptyRequest, patients, Some(current)) == []
    ensures FieldError("first_name", RequiredMessage) in PatientErrors(EmptyRequest, patients, None)
  {
    assert PatientErrors(EmptyRequest, patients, None)[0] == FieldError("first_name", RequiredMessage);
  }

  /** The fields a create must carry for the record to be built. */
  predicate Complete(req: PatientRequest) {
    && req.firstName.Some? && req.lastName.Some? && req.email.Some? && req.phone.Some?
    && req.dateOfBirth.Some? && req.gender.Some? && IsGenderCode(req.gender.value)
    && req.address.Some? && req.city.Some? && req.state.Some? && req.zipCode.Some?
  }

  lemma AcceptedCreateIsComplete(req: PatientRequest, patients: map<nat, Patient>)
    requires PatientErrors(req, patients, None) == []
    ensures Complete(req)
  {
  }

  /** The record a validated create saves, owned by the caller whatever the body says. */
  function NewPatient(req: PatientRequest, owner: nat): (p: Patient)
    requires Complete(req)
    ensures p.createdBy == owner && p.email == req.email.value
    ensures p.firstName == req.firstName.value && p.lastName == req.lastName.value
    ensures GenderCode(p.gender) == req.gender.value
    ensures p.phone == req.phone.value && p.dateOfBirth == req.dateOfBirth.value
    ensures p.address == req.address.value && p.city == req.city.value
    ensures p.state == req.state.value && p.zipCode == req.zipCode.value
    ensures p.bloodGroup == req.bloodGroup && p.allergies == req.allergies && p.medicalHistory == req.medicalHistory
  {
    Patient(req.firstName.value, req.lastName.value, req.email.value, req.phone.value, req.dateOfBirth.value,
            ParseGender(req.gender.value).value, req.address.value, req.city.value, req.state.value,
            req.zipCode.value, req.bloodGroup, req.allergies, req.medicalHistory, owner)
  }

  function PickOptional<T>(given: Option<T>, current: Option<T>): Option<T> {
    if given.Some? then given else current
  }

  /** A partial update: a supplied field replaces the stored value, an omitted one keeps it, and
      the owner never changes. */
  function ApplyUpdate(p: Patient, req: PatientRequest): (q: Patient)
    requires req.gender.Some? ==> IsGenderCode(req.gender.value)
    ensures q.createdBy == p.createdBy
    ensures q.email == (if req.email.Some? then req.email.value else p.email)
    ensures q.firstName == (if req.firstName.Some? then req.firstName.value else p.firstName)
    ensures q.lastName == (if req.lastName.Some? then req.lastName.value else p.lastName)
    ensures q.gender == (if req.gender.Some? then ParseGender(req.gender.value).value else p.gender)
    ensures q.phone == (if req.phone.Some? then req.phone.value else p.phone)
    ensures q.dateOfBirth == (if req.dateOfBirth.Some? then req.dateOfBirth.value else p.dateOfBirth)
    ensures q.address == (if req.address.Some? then req.address.value else p.address)
    ensures q.city == (if req.city.Some? then req.city.value else p.city)
    ensures q.state == (if req.state.Some? then req.state.value else p.state)
    ensures q.zipCode == (if req.zipCode.Some? then req.zipCode.value else p.zipCode)
    ensures q.bloodGroup == (if req.bloodGroup.Some? then req.bloodGroup else p.bloodGroup)
    ensures q.allergies == (if req.allergies.Some? then req.allergies else p.allergies)
    ensures q.medicalHistory == (if req.medicalHistory.Some? then req.medicalHistory else p.medicalHistory)
    ensures req == EmptyRequest ==> q == p
  {
    Patient(Pick(req.firstName, p.firstName), Pick(req.lastName, p.lastName), Pick(req.email, p.email),
            Pick(req.phone, p.phone), Pick(req.dateOfBirth, p.dateOfBirth),
            if req.gender.Some? then ParseGender(req.gender.value).value else p.gender,
            Pick(req.address, p.address), Pick(req.city, p.city), Pick(req.state, p.state),
            Pick(req.zipCode, p.zipCode), PickOptional(req.bloodGroup, p.bloodGroup),
            PickOptional(req.allergies, p.allergies), PickOptional(req.medicalHistory, p.medicalHistory),
            p.createdBy)
  }

  /** The store's unique constraint on the e-mail column. */
  ghost predicate UniqueEmails(patients: map<nat, Patient>) {
    forall i, j :: i in patients && j in patients && i != j ==> patients[i].email != patients[j].email
  }

  /** Saving a validated create never breaks e-mail uniqueness. */
  lemma AcceptedCreateKeepsEmailsUnique(patients: map<nat, Patient>, req: PatientRequest, id: nat, owner: nat)
    requires UniqueEmails(patients) && id !in patients
    requires PatientErrors(req, patients, None) == []
    ensures Complete(req)
    ensures UniqueEmails(patients[id := NewPatient(req, owner)])
  {
  }

  /** Saving a validated update never breaks e-mail uniqueness: either the address is the
      record's own, or no other patient holds it. */
  lemma AcceptedUpdateKeepsEmailsUnique(patients: map<nat, Patient>, req: PatientRequest, id: nat)
    requires UniqueEmails(patients) && id in patients
    requires PatientErrors(req, patients, Some(patients[id])) == []
    ensures UniqueEmails(patients[id := ApplyUpdate(patients[id], req)])
  {
    var q := ApplyUpdate(patients[id], req);
    forall i | i in patients && i != id
      ensures patients[i].email != q.email
    {
      if req.email.Some? && req.email.value != patients[id].email {
        assert EmailAvailable(patients, Some(patients[id]), req.email.value);
      }
    }
  }

  /** The list endpoint: exactly the caller's patients. */
  function OwnedBy(patients: map<nat, Patient>, caller: nat): (r: Listing<Patient>)
    ensures r.count == |r.items|
    ensures forall id :: id in r.items <==> id in patients && patients[id].createdBy == caller
    ensures forall id :: id in r.items ==> r.items[id] == patients[id]
  {
    ListingOf(map id | id in patients && patients[id].createdBy == caller :: patients[id])
  }

  /** The detail lookup: a record that does not exist and one owned by someone else are both
      not found. */
  function GetOwned(patients: map<nat, Patient>, caller: nat, pk: nat): (r: Outcome<Patient>)
    ensures r.Ok? <==> pk in patients && patients[pk].createdBy == caller
    ensures r.Ok? ==> r.value == patients[pk]
    ensures !r.Ok? ==> r == NotFound
  {
    if pk in patients && patients[pk].createdBy == caller then Ok(patients[pk]) else NotFound
  }

  /** The confirmation a successful delete returns. */
  function DeletedMessage(p: Patient): (r: string)
    ensures r == "Patient " + p.firstName + " " + p.lastName + " deleted successfully"
  {
    "Patient " + FullName(p) + " deleted successfully"
  }
}
