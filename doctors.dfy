/** The doctor directory: the Doctor record and its specialization choices (doctors/models.py),
    the field, e-mail and licence validation of its serializers and the list projection
    (doctors/serializers.py), and the reads of its views (doctors/views.py). The writes are
    methods of Clinic.Store. */
module Doctors {
  import opened Common

  datatype Specialization =
    | Cardiology | Dermatology | Endocrinology | Gastroenterology | GeneralMedicine
    | Neurology | Oncology | Orthopedics | Pediatrics | Psychiatry | Radiology
    | Surgery | Urology | Other

  /** Every specialization, in declaration order. */
  const AllSpecializations: seq<Specialization> := [
    Cardiology, Dermatology, Endocrinology, Gastroenterology, GeneralMedicine,
    Neurology, Oncology, Orthopedics, Pediatrics, Psychiatry, Radiology,
    Surgery, Urology, Other]

  /** The value stored for a specialization. */
  function SpecializationValue(s: Specialization): string {
    match s
    case Cardiology => "cardiology"
    case Dermatology => "dermatology"
    case Endocrinology => "endocrinology"
    case Gastroenterology => "gastroenterology"
    case GeneralMedicine => "general_medicine"
    case Neurology => "neurology"
    case Oncology => "oncology"
    case Orthopedics => "orthopedics"
    case Pediatrics => "pediatrics"
    case Psychiatry => "psychiatry"
    case Radiology => "radiology"
    case Surgery => "surgery"
    case Urology => "urology"
    case Other => "other"
  }

  function SpecializationDisplay(s: Specialization): string {
    match s
    case Cardiology => "Cardiology"
    case Dermatology => "Dermatology"
    case Endocrinology => "Endocrinology"
    case Gastroenterology => "Gastroenterology"
    case GeneralMedicine => "General Medicine"
    case Neurology => "Neurology"
    case Oncology => "Oncology"
    case Orthopedics => "Orthopedics"
    case Pediatrics => "Pediatrics"
    case Psychiatry => "Psychiatry"
    case Radiology => "Radiology"
    case Surgery => "Surgery"
    case Urology => "Urology"
    case Other => "Other"
  }

  function ParseSpecialization(v: string): (r: Option<Specialization>)
    ensures r.Some? ==> SpecializationValue(r.value) == v
    ensures r.None? ==> forall s :: SpecializationValue(s) != v
  {
    if v == "cardiology" then Some(Cardiology)
    else if v == "dermatology" then Some(Dermatology)
    else if v == "endocrinology" then Some(Endocrinology)
    else if v == "gastroenterology" then Some(Gastroenterology)
    else if v == "general_medicine" then Some(GeneralMedicine)
    else if v == "neurology" then Some(Neurology)
    else if v == "oncology" then Some(Oncology)
    else if v == "orthopedics" then Some(Orthopedics)
    else if v == "pediatrics" then Some(Pediatrics)
    else if v == "psychiatry" then Some(Psychiatry)
    else if v == "radiology" then Some(Radiology)
    else if v == "surgery" then Some(Surgery)
    else if v == "urology" then Some(Urology)
    else if v == "other" then Some(Other)
    else None
  }

  predicate IsSpecializationValue(v: string) {
    ParseSpecialization(v).Some?
  }

  /** The specializations endpoint: the declared (value, label) pairs, fourteen of them, each
      specialization at its place in declaration order. */
  function Specializations(): (r: seq<Choice>)
    ensures |r| == 14
    ensures forall s :: r[SpecializationIndex(s)] == Choice(SpecializationValue(s), SpecializationDisplay(s))
  {
    seq(14, i requires 0 <= i < 14 => Choice(SpecializationValue(AllSpecializations[i]), SpecializationDisplay(AllSpecializations[i])))
  }

  /** Each stored value reads back as its specialization, so no two share a value. */
  lemma SpecializationValuesRoundTrip(s: Specialization)
    ensures ParseSpecialization(SpecializationValue(s)) == Some(s)
  {
  }

  /** Position of a specialization in the declared list. */
  function SpecializationIndex(s: Specialization): (i: nat)
    ensures i < 14 && AllSpecializations[i] == s
  {
    match s
    case Cardiology => 0
    case Dermatology => 1
    case Endocrinology => 2
    case Gastroenterology => 3
    case GeneralMedicine => 4
    case Neurology => 5
    case Oncology => 6
    case Orthopedics => 7
    case Pediatrics => 8
    case Psychiatry => 9
    case Radiology => 10
    case Surgery => 11
    case Urology => 12
    case Other => 13
  }

  datatype Doctor = Doctor(
    firstName: string,
    lastName: string,
    email: string,
    phone: string,
    licenseNumber: string,
    specialization: Specialization,
    experienceYears: nat,
    qualification: string,
    hospitalName: string,
    hospitalAddress: string,
    city: string,
    state: string,
    consultationFee: int,
    availability: string,
    bio: Option<string>,
    createdBy: nat,
    isActive: bool)

  /** `full_name`: the title "Dr. ", first name, one space, last name. */
  function FullName(d: Doctor): (r: string)
    ensures |r| == 5 + |d.firstName| + |d.lastName|
    ensures r[..4] == "Dr. " && r[4..] == d.firstName + " " + d.lastName
  {
    "Dr. " + d.firstName + " " + d.lastName
  }

  /** `__str__`: the full name, " - ", and the stored specialization value. */
  function Describe(d: Doctor): (r: string)
    ensures |r| == |FullName(d)| + 3 + |SpecializationValue(d.specialization)|
    ensures var n := |FullName(d)|; r[..n] == FullName(d) && r[n..n + 3] == " - "
    ensures r[|r| - |SpecializationValue(d.specialization)|..] == SpecializationValue(d.specialization)
  {
    FullName(d) + " - " + SpecializationValue(d.specialization)
  }

  /** A create or update body; the consultation fee is in cents. The read-only fields (id,
      created_by, created_at, updated_at) have no place in it; is_active does. */
  datatype DoctorRequest = DoctorRequest(
    firstName: Option<string>,
    lastName: Option<string>,
    email: Option<string>,
    phone: Option<string>,
    licenseNumber: Option<string>,
    specialization: Option<string>,
    experienceYears: Option<int>,
    qualification: Option<string>,
    hospitalName: Option<string>,
    hospitalAddress: Option<string>,
    city: Option<string>,
    state: Option<string>,
    consultationFee: Option<int>,
    availability: Option<string>,
    bio: Option<string>,
    isActive: Option<bool>)

  const EmptyRequest := DoctorRequest(None, None, None, None, None, None, None, None, None, None, None, None, None, None, None, None)

  const NameRule := TextRule(true, false, Some(50))
  const EmailRule := TextRule(true, false, None)
  const PhoneRule := TextRule(true, false, Some(15))
  const LicenseRule := TextRule(true, false, Some(50))
  const QualificationRule := TextRule(true, false, Some(200))
  const HospitalNameRule := TextRule(true, false, Some(100))
  const LongTextRule := TextRule(true, false, None)
  const PlaceRule := TextRule(true, false, Some(50))
  const BioRule := TextRule(false, true, None)

  /** A fee of ten digits with two decimal places: below 10^8 in whole units. */
  const FeeBoundCents := 10000000000

  const EmailTakenMessage := "A doctor with this email already exists."
  const LicenseTakenMessage := "A doctor with this license number already exists."
  const NegativeMessage := "Ensure this value is greater than or equal to 0."
  const FeeDigitsMessage := "Ensure that there are no more than 10 digits in total."

  /** `validate_email`: the record's own current address is kept; any other address held by a
      doctor of any owner is refused. */
  predicate EmailAvailable(doctors: map<nat, Doctor>, instance: Option<Doctor>, email: string) {
    (instance.Some? && instance.value.email == email)
    || forall id :: id in doctors ==> doctors[id].email != email
  }

  /** `validate_license_number`: the same rule for the licence number. */
  predicate LicenseAvailable(doctors: map<nat, Doctor>, instance: Option<Doctor>, license: string) {
    (instance.Some? && instance.value.licenseNumber == license)
    || forall id :: id in doctors ==> doctors[id].licenseNumber != license
  }

  function EmailErrors(email: Option<string>, doctors: map<nat, Doctor>, instance: Option<Doctor>): (r: seq<FieldError>)
    ensures |r| <= 2 && forall e :: e in r ==> e.field == "email"
    ensures r == [] <==> TextAcceptable(OpOf(instance), email, EmailRule) && (email.Some? ==> EmailAvailable(doctors, instance, email.value))
  {
    var basic := TextErrors(OpOf(instance), "email", email, EmailRule);
    if basic != [] || email.None? then basic
    else if instance.Some? && instance.value.email == email.value then []
    else if exists id :: id in doctors && doctors[id].email == email.value then [FieldError("email", EmailTakenMessage)]
    else []
  }

  function LicenseErrors(license: Option<string>, doctors: map<nat, Doctor>, instance: Option<Doctor>): (r: seq<FieldError>)
    ensures |r| <= 2 && forall e :: e in r ==> e.field == "license_number"
    ensures r == [] <==> TextAcceptable(OpOf(instance), license, LicenseRule) && (license.Some? ==> LicenseAvailable(doctors, instance, license.value))
  {
    var basic := TextErrors(OpOf(instance), "license_number", license, LicenseRule);
    if basic != [] || license.None? then basic
    else if instance.Some? && instance.value.licenseNumber == license.value then []
    else if exists id :: id in doctors && doctors[id].licenseNumber == license.value then [FieldError("license_number", LicenseTakenMessage)]
    else []
  }

  predicate ExperienceAcceptable(op: Op, v: Option<int>) {
    if v.None? then op == Update else v.value >= 0
  }

  function ExperienceErrors(op: Op, v: Option<int>): (r: seq<FieldError>)
    ensures r == [] <==> ExperienceAcceptable(op, v)
  {
    if v.None? then (if op == Create then [FieldError("experience_years", RequiredMessage)] else [])
    else if v.value < 0 then [FieldError("experience_years", NegativeMessage)]
    else []
  }

  predicate FeeAcceptable(op: Op, v: Option<int>) {
    if v.None? then op == Update else -FeeBoundCents < v.value < FeeBoundCents
  }

  function FeeErrors(op: Op, v: Option<int>): (r: seq<FieldError>)
    ensures r == [] <==> FeeAcceptable(op, v)
  {
    if v.None? then (if op == Create then [FieldError("consultation_fee", RequiredMessage)] else [])
    else if !(-FeeBoundCents < v.value < FeeBoundCents) then [FieldError("consultation_fee", FeeDigitsMessage)]
    else []
  }

  /** Every field's own checks, e-mail and licence number aside. */
  predicate FieldsAcceptable(op: Op, req: DoctorRequest) {
    && TextAcceptable(op, req.firstName, NameRule)
    && TextAcceptable(op, req.lastName, NameRule)
    && TextAcceptable(op, req.phone, PhoneRule)
    && ChoiceAcceptable(op, true, req.specialization, IsSpecializationValue)
    && ExperienceAcceptable(op, req.experienceYears)
    && TextAcceptable(op, req.qualification, QualificationRule)
    && TextAcceptable(op, req.hospitalName, HospitalNameRule)
    && TextAcceptable(op, req.hospitalAddress, LongTextRule)
    && TextAcceptable(op, req.city, PlaceRule)
    && TextAcceptable(op, req.state, PlaceRule)
    && FeeAcceptable(op, req.consultationFee)
    && TextAcceptable(op, req.availability, LongTextRule)
    && TextAcceptable(op, req.bio, BioRule)
  }

  /** What the doctor serializer accepts, for a create (no instance) or an update. */
  predicate Acceptable(req: DoctorRequest, doctors: map<nat, Doctor>, instance: Option<Doctor>) {
    && FieldsAcceptable(OpOf(instance), req)
    && TextAcceptable(OpOf(instance), req.email, EmailRule)
    && (req.email.Some? ==> EmailAvailable(doctors, instance, req.email.value))
    && TextAcceptable(OpOf(instance), req.licenseNumber, LicenseRule)
    && (req.licenseNumber.Some? ==> LicenseAvailable(doctors, instance, req.licenseNumber.value))
  }

  /** The serializer's validation report, in field order; empty exactly when it accepts. The
      create serializer adds nothing to this, the update serializer only makes every field
      optional. */
  function DoctorErrors(req: DoctorRequest, doctors: map<nat, Doctor>, instance: Option<Doctor>): (r: seq<FieldError>)
    ensures r == [] <==> Acceptable(req, doctors, instance)
  {
    var op := OpOf(instance);
    TextErrors(op, "first_name", req.firstName, NameRule)
    + TextErrors(op, "last_name", req.lastName, NameRule)
    + EmailErrors(req.email, doctors, instance)
    + TextErrors(op, "phone", req.phone, PhoneRule)
    + LicenseErrors(req.licenseNumber, doctors, instance)
    + ChoiceErrors(op, true, "specialization", req.specialization, IsSpecializationValue)
    + ExperienceErrors(op, req.experienceYears)
    + TextErrors(op, "qualification", req.qualification, QualificationRule)
    + TextErrors(op, "hospital_name", req.hospitalName, HospitalNameRule)
    + TextErrors(op, "hospital_address", req.hospitalAddress, LongTextRule)
    + TextErrors(op, "city", req.city, PlaceRule)
    + TextErrors(op, "state", req.state, PlaceRule)
    + FeeErrors(op, req.consultationFee)
    + TextErrors(op, "availability", req.availability, LongTextRule)
    + TextErrors(op, "bio", req.bio, BioRule)
  }

  /** A licence number held by another doctor is refused, on create and on update alike, unless
      it is the edited record's own. */
  lemma TakenLicenseRefused(req: DoctorRequest, doctors: map<nat, Doctor>, instance: Option<Doctor>, holder: nat)
    requires req.licenseNumber.Some? && req.licenseNumber.value != "" && |req.licenseNumber.value| <= 50
    requires '\0' !in req.licenseNumber.value
    requires instance.Some? ==> instance.value.licenseNumber != req.licenseNumber.value
    requires holder in doctors && doctors[holder].licenseNumber == req.licenseNumber.value
    ensures FieldError("license_number", LicenseTakenMessage) in DoctorErrors(req, doctors, instance)
  {
    var op := OpOf(instance);
    var before := TextErrors(op, "first_name", req.firstName, NameRule) + TextErrors(op, "last_name", req.lastName, NameRule)
      + EmailErrors(req.email, doctors, instance) + TextErrors(op, "phone", req.phone, PhoneRule);
    var e := LicenseErrors(req.licenseNumber, doctors, instance);
    assert e == [FieldError("license_number", LicenseTakenMessage)];
    assert DoctorErrors(req, doctors, instance)[|before|] == e[0];
  }

  /** An e-mail address held by another doctor is refused unless it is the edited record's own. */
  lemma TakenEmailRefused(req: DoctorRequest, doctors: map<nat, Doctor>, instance: Option<Doctor>, holder: nat)
    requires req.email.Some? && req.email.value != "" && '\0' !in req.email.value
    requires instance.Some? ==> instance.value.email != req.email.value
    requires holder in doctors && doctors[holder].email == req.email.value
    ensures FieldError("email", EmailTakenMessage) in DoctorErrors(req, doctors, instance)
  {
    var op := OpOf(instance);
    var before := TextErrors(op, "first_name", req.firstName, NameRule) + TextErrors(op, "last_name", req.lastName, NameRule);
    var e := EmailErrors(req.email, doctors, instance);
    assert e == [FieldError("email", EmailTakenMessage)];
    assert FieldError("email", EmailTakenMessage) in before + e;
  }

  /** Resubmitting the record's own e-mail and licence number never draws an error on them. */
  lemma OwnEmailAndLicenseKept(req: DoctorRequest, doctors: map<nat, Doctor>, current: Doctor)
    requires req.email == Some(current.email) && current.email != "" && '\0' !in current.email
    requires req.licenseNumber == Some(current.licenseNumber) && current.licenseNumber != "" && |current.licenseNumber| <= 50
    requires '\0' !in current.licenseNumber
    ensures forall e :: e in DoctorErrors(req, doctors, Some(current)) ==> e.field != "email" && e.field != "license_number"
  {
    // The report is built up piece by piece, so that each step only adds one field's errors.
    var op := OpOf(Some(current));
    assert EmailErrors(req.email, doctors, Some(current)) == [];
    assert LicenseErrors(req.licenseNumber, doctors, Some(current)) == [];
    var s := TextErrors(op, "first_name", req.firstName, NameRule) + TextErrors(op, "last_name", req.lastName, NameRule);
    assert SparesIdentity(s);
    s := s + EmailErrors(req.email, doctors, Some(current)) + TextErrors(op, "phone", req.phone, PhoneRule)
      + LicenseErrors(req.licenseNumber, doctors, Some(current));
    assert SparesIdentity(s);
    s := s + ChoiceErrors(op, true, "specialization", req.specialization, IsSpecializationValue)
      + ExperienceErrors(op, req.experienceYears);
    assert SparesIdentity(s);
    s := s + TextErrors(op, "qualification", req.qualification, QualificationRule)
      + TextErrors(op, "hospital_name", req.hospitalName, HospitalNameRule)
      + TextErrors(op, "hospital_address", req.hospitalAddress, LongTextRule);
    assert SparesIdentity(s);
    s := s + TextErrors(op, "city", req.city, PlaceRule) + TextErrors(op, "state", req.state, PlaceRule)
      + FeeErrors(op, req.consultationFee);
    assert SparesIdentity(s);
    s := s + TextErrors(op, "availability", req.availability, LongTextRule) + TextErrors(op, "bio", req.bio, BioRule);
    assert SparesIdentity(s);
    assert s == DoctorErrors(req, doctors, Some(current));
  }

  /** No error of `errs` is about the e-mail or the licence number. */
  predicate SparesIdentity(errs: seq<FieldError>) {
    forall e :: e in errs ==> e.field != "email" && e.field != "license_number"
  }

  /** A partial update may leave every field out. */
  lemma UpdateMayOmitAll(doctors: map<nat, Doctor>, current: Doctor)
    ensures DoctorErrors(EmptyRequest, doctors, Some(current)) == []
  {
  }

  predicate Complete(req: DoctorRequest) {
    && req.firstName.Some? && req.lastName.Some? && req.email.Some? && req.phone.Some?
    && req.licenseNumber.Some? && req.specialization.Some? && IsSpecializationValue(req.specialization.value)
    && req.experienceYears.Some? && req.experienceYears.value >= 0
    && req.qualification.Some? && req.hospitalName.Some? && req.hospitalAddress.Some?
    && req.city.Some? && req.state.Some? && req.consultationFee.Some? && req.availability.Some?
  }

  lemma AcceptedCreateIsComplete(req: DoctorRequest, doctors: map<nat, Doctor>)
    requires DoctorErrors(req, doctors, None) == []
    ensures Complete(req)
  {
  }

  /** The record a validated create saves: owned by the caller, and active unless the body says
      otherwise. */
  function NewDoctor(req: DoctorRequest, owner: nat): (d: Doctor)
    requires Complete(req)
    ensures d.createdBy == owner && d.email == req.email.value && d.licenseNumber == req.licenseNumber.value
    ensures d.isActive == (req.isActive != Some(false))
    ensures SpecializationValue(d.specialization) == req.specialization.value
    ensures d.firstName == req.firstName.value && d.lastName == req.lastName.value && d.phone == req.phone.value
    ensures d.experienceYears == req.experienceYears.value && d.qualification == req.qualification.value
    ensures d.hospitalName == req.hospitalName.value && d.hospitalAddress == req.hospitalAddress.value
    ensures d.city == req.city.value && d.state == req.state.value
    ensures d.consultationFee == req.consultationFee.value && d.availability == req.availability.value
    ensures d.bio == req.bio
  {
    Doctor(req.firstName.value, req.lastName.value, req.email.value, req.phone.value, req.licenseNumber.value,
           ParseSpecialization(req.specialization.value).value, req.experienceYears.value as nat,
           req.qualification.value, req.hospitalName.value, req.hospitalAddress.value, req.city.value,
           req.state.value, req.consultationFee.value, req.availability.value, req.bio, owner,
           if req.isActive.Some? then req.isActive.value else true)
  }

  /** A partial update: supplied fields replace the stored ones, omitted ones are kept, and the
      owner never changes; is_active is among the writable fields. */
  function ApplyUpdate(d: Doctor, req: DoctorRequest): (e: Doctor)
    requires req.specialization.Some? ==> IsSpecializationValue(req.specialization.value)
    requires req.experienceYears.Some? ==> req.experienceYears.value >= 0
    ensures e.createdBy == d.createdBy
    ensures e.email == (if req.email.Some? then req.email.value else d.email)
    ensures e.licenseNumber == (if req.licenseNumber.Some? then req.licenseNumber.value else d.licenseNumber)
    ensures e.isActive == (if req.isActive.Some? then req.isActive.value else d.isActive)
    ensures e.firstName == (if req.firstName.Some? then req.firstName.value else d.firstName)
    ensures e.lastName == (if req.lastName.Some? then req.lastName.value else d.lastName)
    ensures e.phone == (if req.phone.Some? then req.phone.value else d.phone)
    ensures e.specialization == (if req.specialization.Some? then ParseSpecialization(req.specialization.value).value else d.specialization)
    ensures e.experienceYears == (if req.experienceYears.Some? then req.experienceYears.value else d.experienceYears)
    ensures e.qualification == (if req.qualification.Some? then req.qualification.value else d.qualification)
    ensures e.hospitalName == (if req.hospitalName.Some? then req.hospitalName.value else d.hospitalName)
    ensures e.hospitalAddress == (if req.hospitalAddress.Some? then req.hospitalAddress.value else d.hospitalAddress)
    ensures e.city == (if req.city.Some? then req.city.value else d.city)
    ensures e.state == (if req.state.Some? then req.state.value else d.state)
    ensures e.consultationFee == (if req.consultationFee.Some? then req.consultationFee.value else d.consultationFee)
    ensures e.availability == (if req.availability.Some? then req.availability.value else d.availability)
    ensures e.bio == (if req.bio.Some? then req.bio else d.bio)
    ensures req == EmptyRequest ==> e == d
  {
    Doctor(Pick(req.firstName, d.firstName), Pick(req.lastName, d.lastName), Pick(req.email, d.email),
           Pick(req.phone, d.phone), Pick(req.licenseNumber, d.licenseNumber),
           if req.specialization.Some? then ParseSpecialization(req.specialization.value).value else d.specialization,
           if req.experienceYears.Some? then req.experienceYears.value as nat else d.experienceYears,
           Pick(req.qualification, d.qualification), Pick(req.hospitalName, d.hospitalName),
           Pick(req.hospitalAddress, d.hospitalAddress), Pick(req.city, d.city), Pick(req.state, d.state),
           Pick(req.consultationFee, d.consultationFee), Pick(req.availability, d.availability),
           if req.bio.Some? then req.bio else d.bio, d.createdBy, Pick(req.isActive, d.isActive))
  }

  /** The store's unique constraints on the e-mail and licence-number columns. */
  ghost predicate UniqueEmails(doctors: map<nat, Doctor>) {
    forall i, j :: i in doctors && j in doctors && i != j ==> doctors[i].email != doctors[j].email
  }

  ghost predicate UniqueLicenses(doctors: map<nat, Doctor>) {
    forall i, j :: i in doctors && j in doctors && i != j ==> doctors[i].licenseNumber != doctors[j].licenseNumber
  }

  /** Saving a validated create never breaks either uniqueness constraint. */
  lemma AcceptedCreateKeepsUnique(doctors: map<nat, Doctor>, req: DoctorRequest, id: nat, owner: nat)
    requires UniqueEmails(doctors) && UniqueLicenses(doctors) && id !in doctors
    requires DoctorErrors(req, doctors, None) == []
    ensures Complete(req)
    ensures UniqueEmails(doctors[id := NewDoctor(req, owner)]) && UniqueLicenses(doctors[id := NewDoctor(req, owner)])
  {
  }

  /** Saving a validated update never breaks either uniqueness constraint. */
  lemma AcceptedUpdateKeepsUnique(doctors: map<nat, Doctor>, req: DoctorRequest, id: nat)
    requires UniqueEmails(doctors) && UniqueLicenses(doctors) && id in doctors
    requires DoctorErrors(req, doctors, Some(doctors[id])) == []
    ensures UniqueEmails(doctors[id := ApplyUpdate(doctors[id], req)])
    ensures UniqueLicenses(doctors[id := ApplyUpdate(doctors[id], req)])
  {
    var e := ApplyUpdate(doctors[id], req);
    forall i | i in doctors && i != id
      ensures doctors[i].email != e.email && doctors[i].licenseNumber != e.licenseNumber
    {
      if req.email.Some? && req.email.value != doctors[id].email {
        assert EmailAvailable(doctors, Some(doctors[id]), req.email.value);
      }
      if req.licenseNumber.Some? && req.licenseNumber.value != doctors[id].licenseNumber {
        assert LicenseAvailable(doctors, Some(doctors[id]), req.licenseNumber.value);
      }
    }
  }

  /** The list serializer's view of a doctor: only these fields. */
  datatype DoctorSummary = DoctorSummary(
    id: nat,
    fullName: string,
    specialization: string,
    specializationDisplay: string,
    hospitalName: string,
    city: string,
    consultationFee: int,
    experienceYears: nat,
    isActive: bool)

  function Summary(id: nat, d: Doctor): (s: DoctorSummary)
    ensures s.id == id && s.fullName == FullName(d) && s.isActive == d.isActive
    ensures ParseSpecialization(s.specialization) == Some(d.specialization)
    ensures s.specializationDisplay == SpecializationDisplay(d.specialization)
    ensures s.hospitalName == d.hospitalName && s.city == d.city
    ensures s.consultationFee == d.consultationFee && s.experienceYears == d.experienceYears
  {
    DoctorSummary(id, FullName(d), SpecializationValue(d.specialization), SpecializationDisplay(d.specialization),
                  d.hospitalName, d.city, d.consultationFee, d.experienceYears, d.isActive)
  }

  function ActiveOnly(doctors: map<nat, Doctor>): map<nat, Doctor> {
    map id | id in doctors && doctors[id].isActive :: doctors[id]
  }

  function WithSpecialization(doctors: map<nat, Doctor>, specialization: string): map<nat, Doctor> {
    map id | id in doctors && SpecializationValue(doctors[id].specialization) == specialization :: doctors[id]
  }

  function InCity(doctors: map<nat, Doctor>, city: string): map<nat, Doctor> {
    map id | id in doctors && ContainsIgnoringCase(doctors[id].city, city) :: doctors[id]
  }

  /** Whether a doctor appears in the list for the given query parameters (empty = not given). */
  predicate Listed(d: Doctor, specialization: string, city: string) {
    && d.isActive
    && (specialization == "" || SpecializationValue(d.specialization) == specialization)
    && (city == "" || ContainsIgnoringCase(d.city, city))
  }

  /** The list endpoint: active doctors of every owner, narrowed by an exact specialization and a
      case-insensitive city substring when those are given. */
  function ListDoctors(doctors: map<nat, Doctor>, specialization: string, city: string): (r: Listing<DoctorSummary>)
    ensures r.count == |r.items|
    ensures forall id :: id in r.items <==> id in doctors && Listed(doctors[id], specialization, city)
    ensures forall id :: id in r.items ==> r.items[id] == Summary(id, doctors[id])
  {
    var active := ActiveOnly(doctors);
    var bySpecialization := if specialization != "" then WithSpecialization(active, specialization) else active;
    var byCity := if city != "" then InCity(bySpecialization, city) else bySpecialization;
    ListingOf(map id | id in byCity :: Summary(id, byCity[id]))
  }

  /** The city filter compares after ASCII case folding: a city appears for a query that differs
      from part of its name only in letter case. */
  lemma CityFilterIgnoresCase(doctors: map<nat, Doctor>, id: nat, query: string, at: nat)
    requires id in doctors && doctors[id].isActive && query != ""
    requires at + |query| <= |doctors[id].city| && Lower(doctors[id].city[at..at + |query|]) == Lower(query)
    ensures id in ListDoctors(doctors, "", query).items
  {
    var c := doctors[id].city;
    assert Lower(c)[at..at + |query|] == Lower(c[at..at + |query|]);
    assert OccursAt(Lower(c), Lower(query), at);
    ContainsIffOccurs(Lower(c), Lower(query));
  }

  /** The detail read: any active doctor, whoever owns it; an inactive or missing one is not
      found. */
  function GetActive(doctors: map<nat, Doctor>, pk: nat): (r: Outcome<Doctor>)
    ensures r.Ok? <==> pk in doctors && doctors[pk].isActive
    ensures r.Ok? ==> r.value == doctors[pk]
    ensures !r.Ok? ==> r == NotFound
  {
    if pk in doctors && doctors[pk].isActive then Ok(doctors[pk]) else NotFound
  }

  /** The lookup behind update and delete: the caller's own doctor, active or not. */
  function GetOwned(doctors: map<nat, Doctor>, caller: nat, pk: nat): (r: Outcome<Doctor>)
    ensures r.Ok? <==> pk in doctors && doctors[pk].createdBy == caller
    ensures r.Ok? ==> r.value == doctors[pk]
    ensures !r.Ok? ==> r == NotFound
  {
    if pk in doctors && doctors[pk].createdBy == caller then Ok(doctors[pk]) else NotFound
  }

  /** The confirmation a successful delete returns; "Doctor" precedes the titled full name. */
  function DeletedMessage(d: Doctor): (r: string)
    ensures r == "Doctor Dr. " + d.firstName + " " + d.lastName + " deleted successfully"
  {
    "Doctor " + FullName(d) + " deleted successfully"
  }
}
