# HealthCare record store, modelled in Dafny

The HealthCare service is a Django REST API. Users register and log in. Each user keeps their own
patients and doctors and assigns doctors to patients through "mappings". A mapping carries a status
(active, inactive or completed) and optional notes. This project models the rules that decide what
each endpoint accepts, and the store that holds the four tables.

Modules:

- **Common**: the shared vocabulary.
  - The validation report (`FieldError`, `Validated`) and an endpoint's outcome (`Outcome`: ok,
    validation errors, not found, or a store constraint refusing the save).
  - The checks a model field declaration implies for its serializer field: required, blank and
    maximum length.
  - Case-insensitive substring search (`icontains`).
- **Auth**: the registration serializer (field checks, `validate_email`, `validate`, `create`) and
  the login serializer (field checks and `validate`).
- **Patients**: the patient record with its gender choices and `full_name`.
  - The patient serializer's field checks and `validate_email`.
  - The owner-scoped list and detail lookups.
- **Doctors**: the doctor record with its 14 specializations, `full_name` and `__str__`.
  - The serializer's field checks, `validate_email` and `validate_license_number`.
  - The list projection.
  - The active-doctor list with its specialization and city filters.
  - The active-only detail read and the owner-only write lookup, and the specializations endpoint.
- **Mappings**: the mapping record and its status choices, `clean` and `__str__`.
  - The create serializer's `validate`, the update serializer, and the rendering serializer's
    `validate`. No write path calls the last one.
  - The owner-scoped list and per-patient reads, and the cascades of the foreign keys.
- **Clinic**: the store.
  - `Db` holds the four tables. `Consistent` is the conjunction of the unique constraints, the
    foreign keys, and "a mapping is owned by its patient's owner".
  - One lemma per write proves that the write keeps the store consistent.
  - `Store` is a class with the four tables as fields. Every write endpoint is a method. Each
    method keeps `Valid()` and states its new tables in terms of the old ones. A refused request
    changes nothing.

The store checks its unique columns when it saves, as the database does:

- username;
- patient e-mail;
- doctor e-mail and licence number;
- the mapping triple (patient, doctor, status).

For patients and doctors the serializers already refuse a taken e-mail or licence. Lemmas prove
that a validated save therefore never breaks those constraints. For users the only unique column is
the username. The registration serializer as modelled does not check it, so the store refuses a
taken username at save (`Outcome.ConstraintViolation`). The registration serializer does refuse a
taken e-mail, but it compares the address as submitted while the account stores it normalised
(see "## Findings"). For mappings, the create
validator only refuses a second *active* mapping for a pair. The store refuses any repeated triple,
so a validated create can still be refused at save (`Outcome.ConstraintViolation`). The update
serializer checks only the status choice and the notes field, so for an update the triple
constraint is the only refusal that depends on the tables.

Three facts about the code that are easy to misread:

- **Repeated inactive or completed mapping.** The `unique_together` at mappings/models.py:34 covers
  the whole (patient, doctor, status) triple. It therefore forbids a second inactive mapping for a
  pair, even though the create validator lets one through.
  `Mappings.SecondInactiveMappingPassesValidatorButNotStore` shows the validator passing and the
  store refusing.
- **Doctor `is_active` on create.** The serializer lets the client set `is_active`
  (doctors/serializers.py:21-23), and the model field only defaults to true (doctors/models.py:54).
  `Doctors.NewDoctor` keeps the client's value.
- **Gender.** The stored gender values are the codes "M", "F" and "O" (patients/models.py:10-14),
  not the words.

The clock and the authentication backend are parameters:

- The assignment date of a new mapping is `today`.
- Login receives `authenticate` as a function.

## Model

| member | source | states |
|---|---|---|
| Common.TextErrors | patients/models.py:17-33 | A text field is refused exactly when it is missing on create while required, blank while blank is not allowed, longer than its maximum length, or holding a null character; a missing or blank value draws one error, otherwise each failing validator adds one (at most two), keyed by the field |
| Common.ChoiceErrors | patients/models.py:22 | A choice field is refused exactly when it is missing on create while required (no model default), or not one of the declared values |
| Common.ContainsIffOccurs | doctors/views.py:32-34 | The substring search used for `icontains` succeeds exactly when the query sits in the text at some offset |
| Auth.EmailErrors | authentication/serializers.py:30-36 | The e-mail passes exactly when it is given, free of null characters and held by no user as submitted; a held address draws exactly "A user with this email already exists." |
| Auth.PasswordErrors | authentication/serializers.py:12 | The password passes exactly when it is given with at least 8 characters and no null character; a non-blank shorter one draws the 8-character minimum message first |
| Auth.ValidateRegistration | authentication/serializers.py:12-36 | Registration passes exactly when every field passes its checks, the e-mail is not held as submitted, the password has at least 8 characters and equals the confirmation; accepted data is returned unchanged; a taken e-mail and a short password each produce their message |
| Auth.MismatchRejected | authentication/serializers.py:22-28 | Once every field passes, differing passwords are refused with "Passwords don't match" alone |
| Auth.NewUser | authentication/serializers.py:38-53 | The created account takes the username from the request and stores the e-mail in normal form (domain lowercased), drops the confirmation, defaults absent names to "", and is active |
| Auth.LastAt | authentication/serializers.py:46-52 | The position found is an '@' with none after it; none is found exactly when the address has no '@' |
| Auth.LastAtIs | authentication/serializers.py:46-52 | An '@' with no '@' after it is the one the normalisation splits at |
| Auth.NormalizeEmail | authentication/serializers.py:46-52 | The stored address keeps everything up to the last '@' and lowercases what follows; an address without '@' is kept; the length never changes |
| Auth.NormalizeEmailIdempotent | authentication/serializers.py:46-52 | Normalising a normalised address changes nothing |
| Auth.DomainCaseVariantStoredTwice | authentication/serializers.py:30-52 | With "ann@example.com" stored, registering "ann@Example.COM" passes validation and stores "ann@example.com" a second time |
| Auth.NormalizedEmailErrors | authentication/serializers.py:30-36 | The intended e-mail check: passes exactly when the address is given, free of null characters, and its normal form is held by no user |
| Auth.NormalizedCheckKeepsEmailsUnique | authentication/serializers.py:30-52 | With the intended check, adding the created account keeps user e-mails distinct |
| Auth.ValidateLogin | authentication/serializers.py:64-81 | Missing field, then unknown credentials, then disabled account, in that order; otherwise the authenticated user is returned, and a returned user is always active |
| Auth.LoginFieldErrors | authentication/serializers.py:61-62 | The login fields pass exactly when both username and password are present, non-blank and free of null characters |
| Auth.Login | authentication/serializers.py:56-81 | A login succeeds exactly when both fields pass their checks and the backend returns an active user, and it yields that user; field errors come first |
| Auth.MissingFieldsNeverReported | authentication/serializers.py:78-79 | Behind the field checks the "Must include username and password" refusal never reaches a client |
| Auth.DisabledNeverReportedWithActiveOnlyBackend | authentication/serializers.py:75-76 | With a backend that returns only active users, "User account is disabled" never occurs |
| Patients.ParseGender | patients/models.py:10-14 | A code parses exactly when it is one of "M", "F", "O", and parses back to itself |
| Patients.GenderChoicesMatchCodes | patients/models.py:10-22 | Every gender's code reads back as that gender and its (code, label) pair is among the declared choices |
| Patients.FullName | patients/models.py:46-48 | The first name, one space, then the last name |
| Patients.EmailErrors | patients/serializers.py:23-33 | The e-mail passes exactly when its field checks pass and it is the record's own current address or held by no patient |
| Patients.PatientErrors | patients/serializers.py:13-33 | The report is empty exactly when every field's declared checks pass and the e-mail is available |
| Patients.TakenEmailRefusedOnCreate | patients/serializers.py:31-32 | On create, a well-formed address (no null character) held by any patient of any owner draws "A patient with this email already exists." |
| Patients.TakenEmailRefusedOnUpdate | patients/serializers.py:27-33 | On update, an address free of null characters, other than the record's own, that another patient holds is refused |
| Patients.OwnEmailKeptOnUpdate | patients/serializers.py:27-30 | On update, resubmitting the record's own (well-formed) address never draws an e-mail error |
| Patients.UpdateMayOmitAllButCreateMayNot | patients/serializers.py:36-53 | An empty body passes as an update but is refused as a create, first name required |
| Patients.AcceptedCreateIsComplete | patients/models.py:17-33 | A create that passes carries every required field and a valid gender code |
| Patients.NewPatient | patients/views.py:31 | The saved patient is owned by the caller and holds each of the request's thirteen values, the gender by its code and the optional medical fields as given |
| Patients.ApplyUpdate | patients/views.py:56-58 | Each of the thirteen fields takes the supplied value or keeps the stored one; the owner never changes; an empty body changes nothing |
| Patients.AcceptedCreateKeepsEmailsUnique | patients/models.py:19 | Saving a validated create keeps patient e-mails unique |
| Patients.AcceptedUpdateKeepsEmailsUnique | patients/models.py:19 | Saving a validated update keeps patient e-mails unique |
| Patients.OwnedBy | patients/views.py:19-24 | The list holds exactly the caller's patients, unchanged, and its count is its size |
| Patients.GetOwned | patients/views.py:49 | Found exactly when the patient exists and is the caller's; otherwise not found |
| Patients.DeletedMessage | patients/views.py:67-71 | "Patient first last deleted successfully" |
| Doctors.ParseSpecialization | doctors/models.py:10-25 | A value parses exactly when it is one of the 14 declared values, and parses back to itself |
| Doctors.SpecializationValuesRoundTrip | doctors/models.py:10-25 | Each specialization's stored value parses back to it, so no two share a value |
| Doctors.Specializations | doctors/views.py:95-105 | The 14 declared (value, label) pairs, each specialization at its declared position |
| Doctors.FullName | doctors/models.py:62-64 | "Dr. ", the first name, one space, the last name |
| Doctors.Describe | doctors/models.py:59-60 | The full name, " - ", then the stored specialization value |
| Doctors.EmailErrors | doctors/serializers.py:25-35 | The e-mail passes exactly when its field checks pass and it is the record's own or held by no doctor |
| Doctors.LicenseErrors | doctors/serializers.py:37-47 | The licence number passes exactly when its field checks pass and it is the record's own or held by no doctor |
| Doctors.ExperienceErrors | doctors/models.py:36 | Years of experience pass exactly when present on create (optional on update) and not negative |
| Doctors.FeeErrors | doctors/models.py:46 | The fee passes exactly when present on create (optional on update) and within ten digits at two decimal places |
| Doctors.DoctorErrors | doctors/serializers.py:14-23 | The report is empty exactly when every field's declared checks pass and the e-mail and licence are available |
| Doctors.TakenLicenseRefused | doctors/serializers.py:37-47 | A licence free of null characters held by another doctor draws "A doctor with this license number already exists." unless it is the edited record's own |
| Doctors.TakenEmailRefused | doctors/serializers.py:25-35 | An e-mail free of null characters held by another doctor draws "A doctor with this email already exists." unless it is the edited record's own |
| Doctors.OwnEmailAndLicenseKept | doctors/serializers.py:25-47 | Resubmitting the record's own well-formed e-mail and licence never draws an error on them |
| Doctors.UpdateMayOmitAll | doctors/serializers.py:57-66 | An empty body passes as an update |
| Doctors.AcceptedCreateIsComplete | doctors/models.py:28-47 | A create that passes carries every required field, a declared specialization and non-negative experience |
| Doctors.NewDoctor | doctors/views.py:44-47 | The saved doctor is owned by the caller, holds each of the request's fifteen values (the specialization by its value), and is active unless the body says false |
| Doctors.ApplyUpdate | doctors/views.py:75-77 | Each of the sixteen writable fields, is_active included, takes the supplied value or keeps the stored one; the owner never changes; an empty body changes nothing |
| Doctors.AcceptedCreateKeepsUnique | doctors/models.py:30-34 | Saving a validated create keeps doctor e-mails and licences unique |
| Doctors.AcceptedUpdateKeepsUnique | doctors/models.py:30-34 | Saving a validated update keeps doctor e-mails and licences unique |
| Doctors.Summary | doctors/serializers.py:69-82 | The list projection carries the id, full name, specialization value and label, hospital name, city, fee, years of experience and activity |
| Doctors.ListDoctors | doctors/views.py:22-40 | Exactly the active doctors of every owner, narrowed by an exact specialization and a case-insensitive city substring when those are given; count is the list's size |
| Doctors.CityFilterIgnoresCase | doctors/views.py:32-34 | An active doctor whose city contains the query up to letter case is listed |
| Doctors.GetActive | doctors/views.py:64-68 | Found exactly when the doctor exists and is active, whoever owns it |
| Doctors.GetOwned | doctors/views.py:70-72 | Found exactly when the doctor exists and is the caller's, active or not |
| Doctors.DeletedMessage | doctors/views.py:85-90 | "Doctor Dr. first last deleted successfully" |
| Mappings.ParseStatus | mappings/models.py:12-16 | A status value parses exactly when it is "active", "inactive" or "completed", and parses back to itself |
| Mappings.StatusChoices | mappings/views.py:117-129 | The three declared pairs in declaration order, each value reading back as its status with its label |
| Mappings.RequestedStatus | mappings/serializers.py:78 | An omitted status is taken as active |
| Mappings.TripleFreeKeepsUnique | mappings/models.py:34 | Saving a row whose triple no other row holds keeps triples unique |
| Mappings.RelationErrors | mappings/serializers.py:68-70 | A patient or doctor reference passes exactly when it is given and names an existing record of any owner |
| Mappings.StatusErrors | mappings/models.py:24 | A status passes exactly when omitted or one of the declared values |
| Mappings.CreateFieldErrors | mappings/serializers.py:64-70 | A create body passes the field checks exactly when patient and doctor exist, the status, if given, is declared, and the notes hold no null character |
| Mappings.AlreadyAssignedMessage | mappings/serializers.py:95-97 | The intended duplicate message, "Patient first last is already actively assigned to Dr. first last", with the title once |
| Mappings.AsWrittenMessageDoublesTitle | mappings/serializers.py:95-97 | The message as written prints "Dr. Dr. " before the doctor's name |
| Mappings.RemovedMessage | mappings/views.py:108-114 | The intended delete confirmation, "Removed Dr. first last from patient first last", with the title once |
| Mappings.AsWrittenRemovalDoublesTitle | mappings/views.py:108-114 | The delete confirmation as written begins "Removed Dr. Dr. " |
| Mappings.ValidateCreateAttrs | mappings/serializers.py:72-99 | Foreign patient refused first, then an inactive doctor, then an active request for a pair with an active mapping, and nothing else; one non-field error, the duplicate one with the title twice as written; accepted data unchanged |
| Mappings.NonActiveNeverDuplicate | mappings/serializers.py:89-94 | An inactive or completed request is never refused as a duplicate |
| Mappings.ToAttrs | mappings/serializers.py:64-70 | The validated attributes carry the request's patient, doctor, notes and status |
| Mappings.ValidateCreate | mappings/serializers.py:64-99 | Field errors are reported first; a body that passes them is decided by `validate` alone; an accepted create names the caller's own patient, an active doctor and, when active, a pair with no active mapping |
| Mappings.NewMapping | mappings/views.py:43-45 | The saved mapping is owned by the caller, dated today, with the requested status defaulting to active |
| Mappings.SecondInactiveMappingPassesValidatorButNotStore | mappings/models.py:34 | In every store where the caller owns the patient, the doctor is active and an inactive mapping of the pair exists, a second inactive request passes the validator but its triple is taken, so the save is refused |
| Mappings.ValidateForRendering | mappings/serializers.py:28-61 | Ownership is checked only with a request; then an inactive doctor is refused; the duplicate search is for the requested status and leaves out the edited mapping; only an active request is refused as a duplicate, with the title twice as written |
| Mappings.RenderingAgreesWithCreate | mappings/serializers.py:28-61 | With a request and no instance, the rendering validator decides as the create validator does |
| Mappings.RenderingExcludesInstance | mappings/serializers.py:46-54 | A stored mapping never counts as its own duplicate |
| Mappings.ValidateUpdate | mappings/serializers.py:102-114 | An update passes exactly when its status is omitted or declared and its notes hold no null character; no ownership, activity or duplicate check |
| Mappings.ApplyUpdate | mappings/views.py:92-100 | Only status and notes change, each only when supplied; patient, doctor, owner and assignment date stay |
| Mappings.Describe | mappings/models.py:37-38 | The patient's full name, " -> ", the doctor's full name, then the status value in parentheses |
| Mappings.Clean | mappings/models.py:40-46 | A mapping is refused exactly when its owner differs from its patient's owner |
| Mappings.ListOwned | mappings/views.py:22-35 | Exactly the caller's mappings, narrowed to an equal status when a filter is given; count is the list's size |
| Mappings.UnknownStatusFilterSelectsNothing | mappings/views.py:27-29 | A filter naming no declared status selects nothing |
| Mappings.ByPatient | mappings/views.py:54-79 | Not found unless the patient is the caller's; else that patient's name and its mappings created by the caller, narrowed by the status filter |
| Mappings.WithoutPatient | mappings/models.py:19 | Removes exactly the mappings of the deleted patient |
| Mappings.WithoutDoctor | mappings/models.py:20 | Removes exactly the mappings of the deleted doctor |
| Clinic.ConsistentMappingsAreClean | mappings/models.py:40-46 | In a consistent store every mapping's patient exists and the mapping passes `clean` |
| Clinic.RemovePatientKeepsConsistent | mappings/models.py:19 | Deleting a patient with its mappings keeps the store consistent and leaves no mapping of it |
| Clinic.RemoveDoctorKeepsConsistent | mappings/models.py:20 | Deleting a doctor with its mappings keeps the store consistent and leaves no mapping of it |
| Clinic.RemoveMappingKeepsConsistent | mappings/views.py:111 | Deleting one mapping keeps the store consistent |
| Clinic.RemoveUserKeepsConstraints | mappings/models.py:28 | Deleting a user keeps every unique constraint |
| Clinic.RemoveUserKeepsIntegrity | patients/models.py:36 | Deleting a user with its cascades leaves every foreign key resolving and owners agreeing |
| Clinic.RemoveUserKeepsConsistent | doctors/models.py:51 | After a user is deleted the store is consistent and no patient, doctor or mapping of theirs remains |
| Clinic.RemoveUserKeepsKeysBelow | mappings/models.py:28 | Deleting a user only removes ids |
| Clinic.RemoveUserKeepsOthersMappings | mappings/models.py:19-28 | A mapping the user did not create survives exactly when its doctor was not theirs |
| Clinic.AddUserKeepsConsistent | authentication/serializers.py:46-52 | Adding an account with a free username keeps the store consistent |
| Clinic.AddPatientKeepsConsistent | patients/views.py:28-31 | Saving a validated patient create keeps the store consistent |
| Clinic.UpdatePatientKeepsConsistent | patients/views.py:56-58 | Saving a validated patient update keeps the store consistent |
| Clinic.AddDoctorKeepsConsistent | doctors/views.py:44-47 | Saving a validated doctor create keeps the store consistent |
| Clinic.UpdateDoctorKeepsConsistent | doctors/views.py:75-77 | Saving a validated doctor update keeps the store consistent |
| Clinic.AddMappingKeepsConsistent | mappings/views.py:39-45 | Saving a validated mapping create whose triple is free keeps the store consistent, and the new mapping's owner is its patient's owner |
| Clinic.UpdateMappingKeepsConsistent | mappings/views.py:93-100 | Saving a mapping update whose triple is free keeps the store consistent |
| Clinic.Store.Register | authentication/serializers.py:38-53 | Invalid registrations change nothing; a taken username is a constraint violation; otherwise exactly one new account, holding the normalised e-mail, is added |
| Clinic.Store.CreatePatient | patients/views.py:26-37 | An invalid body changes nothing; otherwise exactly one patient, owned by the caller, is added |
| Clinic.Store.UpdatePatient | patients/views.py:49-64 | A missing or foreign patient is not found and an invalid body is refused, both without change; otherwise only that patient is updated |
| Clinic.Store.DeletePatient | patients/views.py:66-71 | Only the owner can delete; the patient and its mappings go, and the confirmation names the patient |
| Clinic.Store.CreateDoctor | doctors/views.py:42-53 | An invalid body changes nothing; otherwise exactly one doctor, owned by the caller, is added |
| Clinic.Store.UpdateDoctor | doctors/views.py:72-83 | A doctor not the caller's is not found and an invalid body is refused, both without change; otherwise only that doctor is updated |
| Clinic.Store.DeleteDoctor | doctors/views.py:85-90 | Only the owner can delete; the doctor and all its mappings go, and the confirmation names the doctor |
| Clinic.Store.CreateMapping | mappings/views.py:37-51 | An invalid request changes nothing; a validated one whose triple is taken is a constraint violation; otherwise exactly one mapping, owned by the caller, is added |
| Clinic.Store.UpdateMapping | mappings/views.py:89-106 | A mapping not the caller's is not found; an undeclared status or notes with a null character are refused; a taken triple is a constraint violation; otherwise only status and notes of that mapping change |
| Clinic.Store.DeleteMapping | mappings/views.py:108-114 | Only the owner can delete; exactly that mapping goes, and the confirmation is the view's text, "Removed Dr. Dr. …" |
| Clinic.Store.DeleteUser | mappings/models.py:28 | Deleting a user removes their patients, doctors and mappings and every mapping of those patients and doctors |

## Left out

- Token issuance (`RefreshToken.for_user`) and the response envelopes of the register and login views: a foreign JWT library and presentation.
- Password hashing and the authentication backend: the user record keeps no credential, and login takes `authenticate` as a function.
- Auth.Login: does not model Django's default backend, which refuses inactive accounts; `Auth.DisabledNeverReportedWithActiveOnlyBackend` states the consequence under that assumption.
- The unique validators that DRF generates from the model are framework code and are not modelled:
  - the `UniqueValidator`s of the username, Patient.email, Doctor.email and Doctor.license_number
    (all declared unique). They run before `validate_email` and `validate_license_number`, so a
    client that submits a taken value receives the framework's text ("patient with this email
    already exists." and the like), not the custom message. `Patients.TakenEmailRefusedOnCreate`,
    `Patients.TakenEmailRefusedOnUpdate`, `Doctors.TakenEmailRefused` and
    `Doctors.TakenLicenseRefused` state the custom messages that the source's own validators
    produce;
  - the `UniqueTogetherValidator` of (patient, doctor, status) on the mapping create serializer.
    With it, a repeated triple on create is refused with a validation report before the custom
    `validate` runs. The model reports `ConstraintViolation` at save instead. In both cases nothing
    is stored.
- Auth.NewUser: does not model the NFKC normalisation `create_user` applies to the username, and lowercases only ASCII letters of the e-mail domain where Python's `str.lower` folds all of Unicode.
- Clinic.Store.Register: tests the username as submitted against the stored ones; the program stores the NFKC form, so a username that differs from a stored one only by compatibility characters passes the test but fails at save in the program.
- Username rules of Django's user model (allowed characters, 150-character limit) and the 150-character limits of the user name fields: not part of this source.
- E-mail format and length checks of `EmailField`, date parsing of `date_of_birth`, and decimal parsing of the fee: library-defined. Dates are kept as text, and the fee is an integer number of cents bounded by ten digits.
- Whitespace trimming that DRF character fields apply before validation: request values are taken as already trimmed. The same holds for the `strip()` in the e-mail normalisation.
- Doctors.ExperienceErrors: does not model the upper bound that the database backend's integer range may give a `PositiveIntegerField`; only the lower bound 0 is checked.
- Case folding of `icontains`: the database backend decides it (and for non-ASCII text it differs between backends). `Common.LowerChar` folds ASCII letters only, so `Doctors.ListDoctors` and `Doctors.CityFilterIgnoresCase` describe the ASCII case.
- Absent versus explicit null for the nullable fields: an `Option` cannot tell them apart, so an update cannot clear an optional field.
- Timestamps (`created_at`, `updated_at`) and the `-created_at` ordering of every list: clock-dependent. Lists are maps keyed by id, and the assignment date is a `today` parameter.
- The nested patient and doctor details the mapping serializer renders, and the GET detail response bodies: presentation only.
- Admin configuration and URL routing: UI and framework dispatch.
- Concurrent requests racing on a unique column: requests are applied one at a time, and each unique constraint is checked at save.

## Findings

| source | as written | input that shows it | evidently intended | confidence | as-written member | corrected member |
|---|---|---|---|---|---|---|
| mappings/serializers.py:95-97 | The duplicate-assignment message puts "Dr. " before `doctor.full_name`, which already begins with "Dr. " (the rendering validator repeats it at line 58) | Calling the create serializer's `validate` directly with a pair whose doctor is Ann Lee and which has an active mapping gives "… is already actively assigned to Dr. Dr. Ann Lee". Through the API this branch is not reached: the generated `UniqueTogetherValidator` refuses the repeated (patient, doctor, active) triple first | The title once: "… assigned to Dr. Ann Lee" | not executed | Mappings.AsWrittenMessageDoublesTitle | Mappings.AlreadyAssignedMessage |
| mappings/views.py:113 | The delete confirmation puts "Dr. " before `doctor.full_name` | Deleting a mapping to Ann Lee gives "Removed Dr. Dr. Ann Lee from patient …" | "Removed Dr. Ann Lee from patient …" | not executed | Mappings.AsWrittenRemovalDoublesTitle | Mappings.RemovedMessage |
| authentication/serializers.py:34 | `validate_email` looks the address up exactly as submitted, but `create_user` (line 46) stores it with the part after the last "@" lowercased | With "ann@example.com" stored and a database whose text comparison is case-sensitive (SQLite, PostgreSQL), registering "ann@Example.COM" passes and stores "ann@example.com" again | Look up the normalised address, the one that will be stored | not executed | Auth.DomainCaseVariantStoredTwice | Auth.NormalizedEmailErrors |
