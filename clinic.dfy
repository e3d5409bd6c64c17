/** The record store behind the four apps: the user, patient, doctor and mapping tables, the
    constraints the schema declares on them (unique columns, foreign keys with cascading
    deletes), and the endpoints that write to them. The reads are functions of the entity
    modules over these tables. */
module Clinic {
  import opened Common
  import Auth
  import Patients
  import Doctors
  import Mappings

  /** The four tables, keyed by id. */
  datatype Db = Db(
    users: map<nat, Auth.User>,
    patients: map<nat, Patients.Patient>,
    doctors: map<nat, Doctors.Doctor>,
    mappings: map<nat, Mappings.Mapping>)

  /** The unique columns: username, patient e-mail, doctor e-mail and licence, and the mapping
      triple. */
  ghost predicate Constraints(db: Db) {
    && Auth.UniqueUsernames(db.users)
    && Patients.UniqueEmails(db.patients)
    && Doctors.UniqueEmails(db.doctors)
    && Doctors.UniqueLicenses(db.doctors)
    && Mappings.UniqueTriples(db.mappings)
  }

  ghost predicate MappingResolves(db: Db, m: Mappings.Mapping) {
    m.patient in db.patients && m.doctor in db.doctors && m.createdBy in db.users
  }

  /** Every foreign key names an existing row. */
  ghost predicate Integrity(db: Db) {
    && (forall id :: id in db.patients ==> db.patients[id].createdBy in db.users)
    && (forall id :: id in db.doctors ==> db.doctors[id].createdBy in db.users)
    && (forall id :: id in db.mappings ==> MappingResolves(db, db.mappings[id]))
  }

  /** A mapping is owned by the owner of its patient. */
  ghost predicate OwnersAgree(db: Db) {
    forall id :: id in db.mappings && db.mappings[id].patient in db.patients ==>
      db.mappings[id].createdBy == db.patients[db.mappings[id].patient].createdBy
  }

  ghost predicate Consistent(db: Db) {
    Constraints(db) && Integrity(db) && OwnersAgree(db)
  }

  /** In a consistent store every mapping passes the model's `clean`. */
  lemma ConsistentMappingsAreClean(db: Db, id: nat)
    requires Consistent(db) && id in db.mappings
    ensures db.mappings[id].patient in db.patients
    ensures Mappings.Clean(db.mappings[id], db.patients).None?
  {
    assert MappingResolves(db, db.mappings[id]);
  }

  /** Deleting a patient cascades to the mappings that reference it. */
  function RemovePatient(db: Db, patientId: nat): Db {
    db.(patients := db.patients - {patientId}, mappings := Mappings.WithoutPatient(db.mappings, patientId))
  }

  /** Deleting a doctor cascades to the mappings that reference it, whoever created them. */
  function RemoveDoctor(db: Db, doctorId: nat): Db {
    db.(doctors := db.doctors - {doctorId}, mappings := Mappings.WithoutDoctor(db.mappings, doctorId))
  }

  function RemoveMapping(db: Db, mappingId: nat): Db {
    db.(mappings := db.mappings - {mappingId})
  }

  /** Deleting a user cascades to the patients, doctors and mappings they created, and on from
      those patients and doctors to every mapping that references them. */
  function RemoveUser(db: Db, userId: nat): Db {
    var patients := map id | id in db.patients && db.patients[id].createdBy != userId :: db.patients[id];
    var doctors := map id | id in db.doctors && db.doctors[id].createdBy != userId :: db.doctors[id];
    var mappings := map k | k in db.mappings && SurvivesUser(db, db.mappings[k], userId) :: db.mappings[k];
    Db(db.users - {userId}, patients, doctors, mappings)
  }

  /** A mapping survives its creator's, its patient's owner's and its doctor's owner's account. */
  predicate SurvivesUser(db: Db, m: Mappings.Mapping, userId: nat) {
    && m.createdBy != userId
    && m.patient in db.patients && db.patients[m.patient].createdBy != userId
    && m.doctor in db.doctors && db.doctors[m.doctor].createdBy != userId
  }

  lemma RemovePatientKeepsConsistent(db: Db, patientId: nat)
    requires Consistent(db)
    ensures Consistent(RemovePatient(db, patientId))
    ensures forall k :: k in RemovePatient(db, patientId).mappings ==> RemovePatient(db, patientId).mappings[k].patient != patientId
  {
  }

  lemma RemoveDoctorKeepsConsistent(db: Db, doctorId: nat)
    requires Consistent(db)
    ensures Consistent(RemoveDoctor(db, doctorId))
    ensures forall k :: k in RemoveDoctor(db, doctorId).mappings ==> RemoveDoctor(db, doctorId).mappings[k].doctor != doctorId
  {
  }

  lemma RemoveMappingKeepsConsistent(db: Db, mappingId: nat)
    requires Consistent(db)
    ensures Consistent(RemoveMapping(db, mappingId))
  {
  }

  lemma RemoveUserKeepsConstraints(db: Db, userId: nat)
    requires Constraints(db)
    ensures Constraints(RemoveUser(db, userId))
  {
    var after := RemoveUser(db, userId);
    assert Auth.UniqueUsernames(after.users);
    assert Patients.UniqueEmails(after.patients);
    assert Doctors.UniqueEmails(after.doctors);
    assert Doctors.UniqueLicenses(after.doctors);
    assert Mappings.UniqueTriples(after.mappings);
  }

  lemma RemoveUserKeepsIntegrity(db: Db, userId: nat)
    requires Integrity(db) && OwnersAgree(db)
    ensures Integrity(RemoveUser(db, userId)) && OwnersAgree(RemoveUser(db, userId))
  {
    var after := RemoveUser(db, userId);
    forall k | k in after.mappings
      ensures MappingResolves(after, after.mappings[k])
    {
      assert MappingResolves(db, db.mappings[k]);
    }
  }

  /** After a user is deleted nothing refers to them, and the store is still consistent. */
  lemma RemoveUserKeepsConsistent(db: Db, userId: nat)
    requires Consistent(db)
    ensures var after := RemoveUser(db, userId);
            && Consistent(after)
            && userId !in after.users
            && (forall id :: id in after.patients ==> after.patients[id].createdBy != userId)
            && (forall id :: id in after.doctors ==> after.doctors[id].createdBy != userId)
            && (forall k :: k in after.mappings ==> after.mappings[k].createdBy != userId)
  {
    RemoveUserKeepsConstraints(db, userId);
    RemoveUserKeepsIntegrity(db, userId);
  }

  lemma RemoveUserKeepsKeysBelow(db: Db, userId: nat, nu: nat, np: nat, nd: nat, nm: nat)
    requires KeysBelow(db, nu, np, nd, nm)
    ensures KeysBelow(RemoveUser(db, userId), nu, np, nd, nm)
  {
  }

  /** A mapping the deleted user did not create survives exactly when the user owned neither
      its patient nor its doctor. */
  lemma RemoveUserKeepsOthersMappings(db: Db, userId: nat, k: nat)
    requires Consistent(db) && k in db.mappings && db.mappings[k].createdBy != userId
    ensures k in RemoveUser(db, userId).mappings <==>
              db.doctors[db.mappings[k].doctor].createdBy != userId
  {
    assert MappingResolves(db, db.mappings[k]);
  }

  /** Registering a user whose username is free keeps the store consistent. */
  lemma AddUserKeepsConsistent(db: Db, id: nat, u: Auth.User)
    requires Consistent(db) && id !in db.users
    requires !Auth.UsernameTaken(db.users, u.username)
    ensures Consistent(db.(users := db.users[id := u]))
  {
    var after := db.(users := db.users[id := u]);
    forall i, j | i in after.users && j in after.users && i != j
      ensures after.users[i].username != after.users[j].username
    {
      if i == id {
        assert db.users[j].username != u.username;
      } else if j == id {
        assert db.users[i].username != u.username;
      }
    }
  }

  /** Saving a validated patient create keeps the store consistent. */
  lemma AddPatientKeepsConsistent(db: Db, id: nat, req: Patients.PatientRequest, owner: nat)
    requires Consistent(db) && id !in db.patients && owner in db.users
    requires Patients.PatientErrors(req, db.patients, None) == []
    ensures Patients.Complete(req)
    ensures Consistent(db.(patients := db.patients[id := Patients.NewPatient(req, owner)]))
  {
    Patients.AcceptedCreateKeepsEmailsUnique(db.patients, req, id, owner);
    var after := db.(patients := db.patients[id := Patients.NewPatient(req, owner)]);
    forall k | k in after.mappings
      ensures MappingResolves(after, after.mappings[k])
    {
      assert MappingResolves(db, db.mappings[k]);
    }
  }

  /** Saving a validated patient update keeps the store consistent: the owner is read-only, so
      the mappings still agree with it. */
  lemma UpdatePatientKeepsConsistent(db: Db, id: nat, req: Patients.PatientRequest)
    requires Consistent(db) && id in db.patients
    requires Patients.PatientErrors(req, db.patients, Some(db.patients[id])) == []
    ensures Consistent(db.(patients := db.patients[id := Patients.ApplyUpdate(db.patients[id], req)]))
  {
    Patients.AcceptedUpdateKeepsEmailsUnique(db.patients, req, id);
    var after := db.(patients := db.patients[id := Patients.ApplyUpdate(db.patients[id], req)]);
    forall k | k in after.mappings
      ensures MappingResolves(after, after.mappings[k])
    {
      assert MappingResolves(db, db.mappings[k]);
    }
  }

  lemma AddDoctorKeepsConsistent(db: Db, id: nat, req: Doctors.DoctorRequest, owner: nat)
    requires Consistent(db) && id !in db.doctors && owner in db.users
    requires Doctors.DoctorErrors(req, db.doctors, None) == []
    ensures Doctors.Complete(req)
    ensures Consistent(db.(doctors := db.doctors[id := Doctors.NewDoctor(req, owner)]))
  {
    Doctors.AcceptedCreateKeepsUnique(db.doctors, req, id, owner);
    var after := db.(doctors := db.doctors[id := Doctors.NewDoctor(req, owner)]);
    forall k | k in after.mappings
      ensures MappingResolves(after, after.mappings[k])
    {
      assert MappingResolves(db, db.mappings[k]);
    }
  }

  lemma UpdateDoctorKeepsConsistent(db: Db, id: nat, req: Doctors.DoctorRequest)
    requires Consistent(db) && id in db.doctors
    requires Doctors.DoctorErrors(req, db.doctors, Some(db.doctors[id])) == []
    ensures Consistent(db.(doctors := db.doctors[id := Doctors.ApplyUpdate(db.doctors[id], req)]))
  {
    Doctors.AcceptedUpdateKeepsUnique(db.doctors, req, id);
  }

  /** Saving a validated mapping create that the triple constraint admits keeps the store
      consistent; in particular the new mapping's owner, the caller, is its patient's owner,
      because the validator checked exactly that. */
  lemma AddMappingKeepsConsistent(db: Db, id: nat, req: Mappings.CreateRequest, a: Mappings.Attrs, caller: nat, today: nat)
    requires Consistent(db) && id !in db.mappings && caller in db.users
    requires Mappings.ValidateCreate(req, caller, db.patients, db.doctors, db.mappings) == Passed(a)
    requires Mappings.TripleFree(db.mappings, Mappings.Triple(Mappings.NewMapping(a, caller, today)), None)
    ensures var m := Mappings.NewMapping(a, caller, today);
            && m.createdBy == db.patients[m.patient].createdBy
            && Consistent(db.(mappings := db.mappings[id := m]))
  {
    var m := Mappings.NewMapping(a, caller, today);
    assert Mappings.TripleFree(db.mappings, Mappings.Triple(m), Some(id));
    Mappings.TripleFreeKeepsUnique(db.mappings, id, m);
  }

  /** Saving a mapping update that the triple constraint admits keeps the store consistent:
      patient, doctor and owner are untouched. */
  lemma UpdateMappingKeepsConsistent(db: Db, id: nat, req: Mappings.UpdateRequest)
    requires Consistent(db) && id in db.mappings
    requires Mappings.ValidateUpdate(req).Passed?
    requires Mappings.TripleFree(db.mappings, Mappings.Triple(Mappings.ApplyUpdate(db.mappings[id], req)), Some(id))
    ensures Consistent(db.(mappings := db.mappings[id := Mappings.ApplyUpdate(db.mappings[id], req)]))
  {
    Mappings.TripleFreeKeepsUnique(db.mappings, id, Mappings.ApplyUpdate(db.mappings[id], req));
    assert MappingResolves(db, db.mappings[id]);
  }

  /** Every id in use is below the next id of its table, so the next id is fresh. */
  ghost predicate KeysBelow(db: Db, nextUser: nat, nextPatient: nat, nextDoctor: nat, nextMapping: nat) {
    && (forall id :: id in db.users ==> id < nextUser)
    && (forall id :: id in db.patients ==> id < nextPatient)
    && (forall id :: id in db.doctors ==> id < nextDoctor)
    && (forall id :: id in db.mappings ==> id < nextMapping)
  }

  /** Saving a row under the next patient id and moving that id on keeps every id below. */
  lemma AddPatientKeepsKeysBelow(db: Db, nu: nat, np: nat, nd: nat, nm: nat, p: Patients.Patient)
    requires KeysBelow(db, nu, np, nd, nm)
    ensures np !in db.patients
    ensures KeysBelow(db.(patients := db.patients[np := p]), nu, np + 1, nd, nm)
  {
  }

  /** Saving a row under the next doctor id and moving that id on keeps every id below. */
  lemma AddDoctorKeepsKeysBelow(db: Db, nu: nat, np: nat, nd: nat, nm: nat, d: Doctors.Doctor)
    requires KeysBelow(db, nu, np, nd, nm)
    ensures nd !in db.doctors
    ensures KeysBelow(db.(doctors := db.doctors[nd := d]), nu, np, nd + 1, nm)
  {
  }

  /** Saving a row under the next mapping id and moving that id on keeps every id below. */
  lemma AddMappingKeepsKeysBelow(db: Db, nu: nat, np: nat, nd: nat, nm: nat, m: Mappings.Mapping)
    requires KeysBelow(db, nu, np, nd, nm)
    ensures nm !in db.mappings
    ensures KeysBelow(db.(mappings := db.mappings[nm := m]), nu, np, nd, nm + 1)
  {
  }

  /** The store: four tables and the next id of each. Every method keeps the constraints and
      changes nothing when it refuses. */
  class Store {
    var users: map<nat, Auth.User>
    var patients: map<nat, Patients.Patient>
    var doctors: map<nat, Doctors.Doctor>
    var mappings: map<nat, Mappings.Mapping>
    var nextUser: nat
    var nextPatient: nat
    var nextDoctor: nat
    var nextMapping: nat

    function Tables(): Db
      reads this
    {
      Db(users, patients, doctors, mappings)
    }

    ghost predicate Valid()
      reads this
    {
      Consistent(Tables()) && KeysBelow(Tables(), nextUser, nextPatient, nextDoctor, nextMapping)
    }

    constructor ()
      ensures Valid() && Tables() == Db(map[], map[], map[], map[])
    {
      users, patients, doctors, mappings := map[], map[], map[], map[];
      nextUser, nextPatient, nextDoctor, nextMapping := 0, 0, 0, 0;
    }

    /** register: validate, then create the account; the username constraint can refuse it. */
    method Register(req: Auth.RegistrationRequest) returns (r: Outcome<nat>)
      requires Valid()
      modifies this
      ensures Valid()
      ensures match Auth.ValidateRegistration(req, old(users))
        case Failed(errs) => r == Invalid(errs) && Tables() == old(Tables())
        case Passed(_) =>
          if Auth.UsernameTaken(old(users), req.username.value) then
            r == ConstraintViolation && Tables() == old(Tables())
          else
            r.Ok? && r.value !in old(users)
            && Tables() == old(Tables()).(users := old(users)[r.value := Auth.NewUser(req)])
    {
      var v := Auth.ValidateRegistration(req, users);
      if v.Failed? {
        return Invalid(v.errors);
      }
      if Auth.UsernameTaken(users, req.username.value) {
        return ConstraintViolation;
      }
      AddUserKeepsConsistent(Tables(), nextUser, Auth.NewUser(req));
      users := users[nextUser := Auth.NewUser(req)];
      r := Ok(nextUser);
      nextUser := nextUser + 1;
    }

    /** patient_list_create POST: the new patient belongs to the caller. */
    method CreatePatient(caller: nat, req: Patients.PatientRequest) returns (r: Outcome<nat>)
      requires Valid() && caller in users
      modifies this
      ensures Valid()
      ensures var errs := Patients.PatientErrors(req, old(patients), None);
        if errs != [] then r == Invalid(errs) && Tables() == old(Tables())
        else Patients.Complete(req) && r.Ok? && r.value !in old(patients)
             && Tables() == old(Tables()).(patients := old(patients)[r.value := Patients.NewPatient(req, caller)])
    {
      var errs := Patients.PatientErrors(req, patients, None);
      if errs != [] {
        return Invalid(errs);
      }
      AddPatientKeepsConsistent(Tables(), nextPatient, req, caller);
      AddPatientKeepsKeysBelow(Tables(), nextUser, nextPatient, nextDoctor, nextMapping, Patients.NewPatient(req, caller));
      patients := patients[nextPatient := Patients.NewPatient(req, caller)];
      r := Ok(nextPatient);
      nextPatient := nextPatient + 1;
    }

    /** patient_detail PUT: owner-scoped partial update. */
    method UpdatePatient(caller: nat, pk: nat, req: Patients.PatientRequest) returns (r: Outcome<Patients.Patient>)
      requires Valid()
      modifies this
      ensures Valid()
      ensures Patients.GetOwned(old(patients), caller, pk).NotFound? ==> r == NotFound && Tables() == old(Tables())
      ensures Patients.GetOwned(old(patients), caller, pk).Ok? ==>
        var errs := Patients.PatientErrors(req, old(patients), Some(old(patients)[pk]));
        if errs != [] then r == Invalid(errs) && Tables() == old(Tables())
        else var p := Patients.ApplyUpdate(old(patients)[pk], req);
             r == Ok(p) && Tables() == old(Tables()).(patients := old(patients)[pk := p])
    {
      if Patients.GetOwned(patients, caller, pk).NotFound? {
        return NotFound;
      }
      var errs := Patients.PatientErrors(req, patients, Some(patients[pk]));
      if errs != [] {
        return Invalid(errs);
      }
      UpdatePatientKeepsConsistent(Tables(), pk, req);
      var p := Patients.ApplyUpdate(patients[pk], req);
      patients := patients[pk := p];
      r := Ok(p);
    }

    /** patient_detail DELETE: owner-scoped; the patient's mappings go with it. */
    method DeletePatient(caller: nat, pk: nat) returns (r: Outcome<string>)
      requires Valid()
      modifies this
      ensures Valid()
      ensures r.Ok? <==> Patients.GetOwned(old(patients), caller, pk).Ok?
      ensures r.Ok? ==> r.value == Patients.DeletedMessage(old(patients)[pk]) && Tables() == RemovePatient(old(Tables()), pk)
      ensures !r.Ok? ==> r == NotFound && Tables() == old(Tables())
    {
      if Patients.GetOwned(patients, caller, pk).NotFound? {
        return NotFound;
      }
      RemovePatientKeepsConsistent(Tables(), pk);
      r := Ok(Patients.DeletedMessage(patients[pk]));
      mappings := Mappings.WithoutPatient(mappings, pk);
      patients := patients - {pk};
    }

    /** doctor_list_create POST: the new doctor belongs to the caller. */
    method CreateDoctor(caller: nat, req: Doctors.DoctorRequest) returns (r: Outcome<nat>)
      requires Valid() && caller in users
      modifies this
      ensures Valid()
      ensures var errs := Doctors.DoctorErrors(req, old(doctors), None);
        if errs != [] then r == Invalid(errs) && Tables() == old(Tables())
        else Doctors.Complete(req) && r.Ok? && r.value !in old(doctors)
             && Tables() == old(Tables()).(doctors := old(doctors)[r.value := Doctors.NewDoctor(req, caller)])
    {
      var errs := Doctors.DoctorErrors(req, doctors, None);
      if errs != [] {
        return Invalid(errs);
      }
      AddDoctorKeepsConsistent(Tables(), nextDoctor, req, caller);
      AddDoctorKeepsKeysBelow(Tables(), nextUser, nextPatient, nextDoctor, nextMapping, Doctors.NewDoctor(req, caller));
      doctors := doctors[nextDoctor := Doctors.NewDoctor(req, caller)];
      r := Ok(nextDoctor);
      nextDoctor := nextDoctor + 1;
    }

    /** doctor_detail PUT: only the owner, whether the doctor is active or not. */
    method UpdateDoctor(caller: nat, pk: nat, req: Doctors.DoctorRequest) returns (r: Outcome<Doctors.Doctor>)
      requires Valid()
      modifies this
      ensures Valid()
      ensures Doctors.GetOwned(old(doctors), caller, pk).NotFound? ==> r == NotFound && Tables() == old(Tables())
      ensures Doctors.GetOwned(old(doctors), caller, pk).Ok? ==>
        var errs := Doctors.DoctorErrors(req, old(doctors), Some(old(doctors)[pk]));
        if errs != [] then r == Invalid(errs) && Tables() == old(Tables())
        else var d := Doctors.ApplyUpdate(old(doctors)[pk], req);
             r == Ok(d) && Tables() == old(Tables()).(doctors := old(doctors)[pk := d])
    {
      if Doctors.GetOwned(doctors, caller, pk).NotFound? {
        return NotFound;
      }
      var errs := Doctors.DoctorErrors(req, doctors, Some(doctors[pk]));
      if errs != [] {
        return Invalid(errs);
      }
      UpdateDoctorKeepsConsistent(Tables(), pk, req);
      var d := Doctors.ApplyUpdate(doctors[pk], req);
      doctors := doctors[pk := d];
      r := Ok(d);
    }

    /** doctor_detail DELETE: only the owner; every mapping of the doctor goes with it. */
    method DeleteDoctor(caller: nat, pk: nat) returns (r: Outcome<string>)
      requires Valid()
      modifies this
      ensures Valid()
      ensures r.Ok? <==> Doctors.GetOwned(old(doctors), caller, pk).Ok?
      ensures r.Ok? ==> r.value == Doctors.DeletedMessage(old(doctors)[pk]) && Tables() == RemoveDoctor(old(Tables()), pk)
      ensures !r.Ok? ==> r == NotFound && Tables() == old(Tables())
    {
      if Doctors.GetOwned(doctors, caller, pk).NotFound? {
        return NotFound;
      }
      RemoveDoctorKeepsConsistent(Tables(), pk);
      r := Ok(Doctors.DeletedMessage(doctors[pk]));
      mappings := Mappings.WithoutDoctor(mappings, pk);
      doctors := doctors - {pk};
    }

    /** mapping_list_create POST: validate, then save with the caller as owner and today as the
        assignment date; the triple constraint can still refuse the save. */
    method CreateMapping(caller: nat, req: Mappings.CreateRequest, today: nat) returns (r: Outcome<nat>)
      requires Valid() && caller in users
      modifies this
      ensures Valid()
      ensures match Mappings.ValidateCreate(req, caller, old(patients), old(doctors), old(mappings))
        case Failed(errs) => r == Invalid(errs) && Tables() == old(Tables())
        case Passed(a) =>
          var m := Mappings.NewMapping(a, caller, today);
          if Mappings.TripleFree(old(mappings), Mappings.Triple(m), None) then
            r.Ok? && r.value !in old(mappings) && Tables() == old(Tables()).(mappings := old(mappings)[r.value := m])
          else
            r == ConstraintViolation && Tables() == old(Tables())
    {
      var v := Mappings.ValidateCreate(req, caller, patients, doctors, mappings);
      if v.Failed? {
        return Invalid(v.errors);
      }
      var m := Mappings.NewMapping(v.value, caller, today);
      if !Mappings.TripleFree(mappings, Mappings.Triple(m), None) {
        return ConstraintViolation;
      }
      AddMappingKeepsKeysBelow(Tables(), nextUser, nextPatient, nextDoctor, nextMapping, m);
      AddMappingKeepsConsistent(Tables(), nextMapping, req, v.value, caller, today);
      mappings := mappings[nextMapping := m];
      r := Ok(nextMapping);
      nextMapping := nextMapping + 1;
    }

    /** mapping_detail PUT: owner-scoped partial update of status and notes. Only the status
        choice and the notes' field checks are validated; the triple constraint is the only other
        refusal. */
    method UpdateMapping(caller: nat, pk: nat, req: Mappings.UpdateRequest) returns (r: Outcome<Mappings.Mapping>)
      requires Valid()
      modifies this
      ensures Valid()
      ensures !(pk in old(mappings) && old(mappings)[pk].createdBy == caller) ==> r == NotFound && Tables() == old(Tables())
      ensures pk in old(mappings) && old(mappings)[pk].createdBy == caller ==>
        match Mappings.ValidateUpdate(req)
        case Failed(errs) => r == Invalid(errs) && Tables() == old(Tables())
        case Passed(_) =>
          var m := Mappings.ApplyUpdate(old(mappings)[pk], req);
          if Mappings.TripleFree(old(mappings), Mappings.Triple(m), Some(pk)) then
            r == Ok(m) && Tables() == old(Tables()).(mappings := old(mappings)[pk := m])
          else
            r == ConstraintViolation && Tables() == old(Tables())
    {
      if !(pk in mappings && mappings[pk].createdBy == caller) {
        return NotFound;
      }
      var v := Mappings.ValidateUpdate(req);
      if v.Failed? {
        return Invalid(v.errors);
      }
      var m := Mappings.ApplyUpdate(mappings[pk], req);
      if !Mappings.TripleFree(mappings, Mappings.Triple(m), Some(pk)) {
        return ConstraintViolation;
      }
      UpdateMappingKeepsConsistent(Tables(), pk, req);
      mappings := mappings[pk := m];
      r := Ok(m);
    }

    /** mapping_detail DELETE: owner-scoped; removes exactly that mapping. */
    method DeleteMapping(caller: nat, pk: nat) returns (r: Outcome<string>)
      requires Valid()
      modifies this
      ensures Valid()
      ensures r.Ok? <==> pk in old(mappings) && old(mappings)[pk].createdBy == caller
      ensures r.Ok? ==> Tables() == RemoveMapping(old(Tables()), pk)
      ensures r.Ok? ==> MappingResolves(old(Tables()), old(mappings)[pk])
                        && r.value == Mappings.RemovedMessageAsWritten(old(patients)[old(mappings)[pk].patient],
                                                              old(doctors)[old(mappings)[pk].doctor])
      ensures !r.Ok? ==> r == NotFound && Tables() == old(Tables())
    {
      if !(pk in mappings && mappings[pk].createdBy == caller) {
        return NotFound;
      }
      var m := mappings[pk];
      assert MappingResolves(Tables(), m);
      RemoveMappingKeepsConsistent(Tables(), pk);
      r := Ok(Mappings.RemovedMessageAsWritten(patients[m.patient], doctors[m.doctor]));
      mappings := mappings - {pk};
    }

    /** Deleting a user account (no endpoint of these apps does it): the cascades of the
        created_by keys. */
    method DeleteUser(userId: nat)
      requires Valid()
      modifies this
      ensures Valid()
      ensures Tables() == RemoveUser(old(Tables()), userId)
    {
      RemoveUserKeepsConsistent(Tables(), userId);
      RemoveUserKeepsKeysBelow(Tables(), userId, nextUser, nextPatient, nextDoctor, nextMapping);
      var after := RemoveUser(Tables(), userId);
      users, patients, doctors, mappings := after.users, after.patients, after.doctors, after.mappings;
    }
  }
}
