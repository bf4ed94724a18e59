/**
 * backend/app/patient/routes.py: create, read, update, delete and search of
 * patient rows. Form fields are optional strings (request.form.get gives None
 * for a missing field); `secure` stands for werkzeug's secure_filename.
 */
module PatientRoutes {
  import opened Wrappers
  import opened Text
  import opened Http
  import opened Uploads
  import opened Db

  datatype CreateForm = CreateForm(
    idCard: Option<string>,
    name: Option<string>,
    gender: Option<string>,
    photo: Option<FileUpload>)

  datatype UpdateForm = UpdateForm(
    name: Option<string>,
    gender: Option<string>,
    photo: Option<FileUpload>)

  predicate ValidGender(g: string) {
    g == "M" || g == "F"
  }

  predicate IdCardTaken(rows: map<int, Patient>, idCard: string) {
    exists k :: k in rows && rows[k].idCard == idCard
  }

  /**
   * Where an uploaded photo is stored: a photo is kept only when its name passes
   * allowed_file, under patients/ and named after the identity card and the upload.
   * (A FileStorage with an empty name is falsy, and such a name never passes allowed_file.)
   */
  function PhotoPath(idCard: string, photo: Option<FileUpload>, secure: string -> string): (r: Option<string>)
    ensures r.Some? <==> photo.Some? && AllowedImage(photo.value.filename)
    ensures r.Some? && Relative(secure(idCard + "_" + photo.value.filename)) ==>
      r.value == "patients/" + secure(idCard + "_" + photo.value.filename)
  {
    if photo.Some? && AllowedImage(photo.value.filename)
    then Some(JoinPath("patients", secure(idCard + "_" + photo.value.filename)))
    else None
  }

  /** Everything but the patient table (and its counter) is left as it was. */
  twostate predicate OtherTablesUnchanged(db: Database)
    reads db
  {
    && db.sequences == old(db.sequences)
    && db.predictions == old(db.predictions)
    && db.nextSequenceId == old(db.nextSequenceId)
    && db.nextPredictionId == old(db.nextPredictionId)
  }

  /** POST /api/patients (create_patient). */
  method CreatePatient(db: Database, form: CreateForm, now: int, secure: string -> string)
    returns (r: Reply<Patient>)
    requires db.Valid()
    modifies db
    ensures db.Valid()
    // the checks, in the order the handler makes them
    ensures !(Filled(form.idCard) && Filled(form.name) && Filled(form.gender)) ==> r == Err(MissingFields)
    ensures Filled(form.idCard) && Filled(form.name) && Filled(form.gender) && !ValidGender(form.gender.value) ==>
      r == Err(BadGender)
    ensures (Filled(form.idCard) && Filled(form.name) && Filled(form.gender) && ValidGender(form.gender.value)
             && IdCardTaken(old(db.patients), form.idCard.value)) ==> r == Err(DuplicateIdCard)
    ensures r.Err? ==> unchanged(db) && r.Status() == BAD_REQUEST
    // success, exactly when every check passes: one new row, holding the submitted values
    ensures r.Ok? <==> (Filled(form.idCard) && Filled(form.name) && Filled(form.gender)
                       && ValidGender(form.gender.value) && !IdCardTaken(old(db.patients), form.idCard.value))
    ensures r.Ok? ==> && r.code == CREATED
                      && r.value.id !in old(db.patients)
                      && r.value == Patient(r.value.id, form.idCard.value, form.name.value, form.gender.value,
                                            PhotoPath(form.idCard.value, form.photo, secure), now)
                      && db.patients == old(db.patients)[r.value.id := r.value]
                      && OtherTablesUnchanged(db)
  {
    if !(Filled(form.idCard) && Filled(form.name) && Filled(form.gender)) {
      return Err(MissingFields);
    }
    var idCard, name, gender := form.idCard.value, form.name.value, form.gender.value;
    if !ValidGender(gender) {
      return Err(BadGender);
    }
    if IdCardTaken(db.patients, idCard) {
      return Err(DuplicateIdCard);
    }
    var id := db.nextPatientId;
    assert id !in db.patients;
    assert forall k :: k in db.patients ==> db.patients[k].idCard != idCard;
    var p := Patient(id, idCard, name, gender, PhotoPath(idCard, form.photo, secure), now);
    db.patients := db.patients[id := p];
    db.nextPatientId := id + 1;
    r := Ok(CREATED, p);
  }

  /** GET /api/patients/<id> (get_patient). */
  function GetPatient(db: Database, id: int): (r: Reply<Patient>)
    reads db
    requires db.Valid()
    ensures r.Ok? <==> id in db.patients
    ensures r.Ok? ==> r.code == OK && r.value == db.patients[id] && r.value.id == id
    ensures r.Err? ==> r.error == NotFound
  {
    if id in db.patients then Ok(OK, db.patients[id]) else Err(NotFound)
  }

  /** The row update_patient writes back: only a non-empty name or gender, or an accepted photo, replaces a value. */
  function Updated(p: Patient, form: UpdateForm, secure: string -> string): (q: Patient)
    ensures q.id == p.id && q.idCard == p.idCard && q.createdAt == p.createdAt
    ensures q.name == (if Filled(form.name) then form.name.value else p.name)
    ensures q.gender == (if Filled(form.gender) then form.gender.value else p.gender)
    ensures (form.photo.None? || !AllowedImage(form.photo.value.filename)) ==> q.photoPath == p.photoPath
    ensures form.photo.Some? && AllowedImage(form.photo.value.filename) ==>
      q.photoPath == PhotoPath(p.idCard, form.photo, secure)
  {
    var photo := PhotoPath(p.idCard, form.photo, secure);
    p.(name := if Filled(form.name) then form.name.value else p.name,
       gender := if Filled(form.gender) then form.gender.value else p.gender,
       photoPath := if photo.Some? then photo else p.photoPath)
  }

  /** PUT /api/patients/<id> (update_patient). */
  method UpdatePatient(db: Database, id: int, form: UpdateForm, secure: string -> string)
    returns (r: Reply<Patient>)
    requires db.Valid()
    modifies db
    ensures db.Valid()
    ensures id !in old(db.patients) ==> r == Err(NotFound)
    ensures id in old(db.patients) && Filled(form.gender) && !ValidGender(form.gender.value) ==> r == Err(BadGender)
    ensures r.Err? ==> unchanged(db)
    ensures r.Ok? <==> id in old(db.patients) && (Filled(form.gender) ==> ValidGender(form.gender.value))
    ensures r.Ok? ==> && r.code == OK
                      && r.value == Updated(old(db.patients[id]), form, secure)
                      && db.patients == old(db.patients)[id := r.value]
                      && db.nextPatientId == old(db.nextPatientId)
                      && OtherTablesUnchanged(db)
  {
    if id !in db.patients {
      return Err(NotFound);
    }
    var p := db.patients[id];
    // the name is assigned before the gender check, but a 400 returns before the commit,
    // so the session is rolled back and nothing is stored
    if Filled(form.gender) && !ValidGender(form.gender.value) {
      return Err(BadGender);
    }
    var q := Updated(p, form, secure);
    db.patients := db.patients[id := q];
    r := Ok(OK, q);
  }

  /** DELETE /api/patients/<id> (delete_patient). */
  method DeletePatient(db: Database, id: int) returns (r: Reply<Ack>)
    requires db.Valid()
    modifies db
    ensures db.Valid()
    ensures id !in old(db.patients) ==> r == Err(NotFound) && unchanged(db)
    ensures id in old(db.patients) ==> && r == Ok(OK, Ack)
                                       && db.patients == old(db.patients) - {id}
                                       && db.nextPatientId == old(db.nextPatientId)
                                       && OtherTablesUnchanged(db)
  {
    if id !in db.patients {
      return Err(NotFound);
    }
    db.patients := db.patients - {id};
    r := Ok(OK, Ack);
  }

  // ---------- GET /api/patients: search filter and ordering ----------

  /** `name ILIKE '%search%' OR id_card ILIKE '%search%'`, applied only when the search text is non-empty. */
  predicate MatchesSearch(p: Patient, search: string) {
    search == "" || ContainsIgnoringCase(p.name, search) || ContainsIgnoringCase(p.idCard, search)
  }

  ghost function Matching(rows: map<int, Patient>, search: string): set<Patient> {
    set k | k in rows && MatchesSearch(rows[k], search) :: rows[k]
  }

  ghost predicate IsNewest(p: Patient, s: set<Patient>) {
    forall q :: q in s ==> q.createdAt <= p.createdAt
  }

  ghost predicate NewestFirst(s: seq<Patient>) {
    forall i, j :: 0 <= i < j < |s| ==> s[i].createdAt >= s[j].createdAt
  }

  /** Every non-empty finite set of patients has a newest member. */
  lemma {:induction false} NewestExists(s: set<Patient>)
    requires s != {}
    ensures exists p :: p in s && IsNewest(p, s)
  {
    var x :| x in s;
    if s != {x} {
      NewestExists(s - {x});
      var m :| m in s - {x} && IsNewest(m, s - {x});
      if x.createdAt > m.createdAt {
        assert IsNewest(x, s);
      } else {
        assert IsNewest(m, s);
      }
    } else {
      assert IsNewest(x, s);
    }
  }

  /** `ORDER BY created_at DESC`: the set listed newest first, each member once (ties in any order). */
  ghost function OrderNewestFirst(s: set<Patient>): (r: seq<Patient>)
    ensures |r| == |s|
    ensures forall p :: p in r <==> p in s
    ensures forall i, j :: 0 <= i < j < |r| ==> r[i] != r[j]
    ensures NewestFirst(r)
    decreases |s|
  {
    if s == {} then []
    else
      NewestExists(s);
      var p :| p in s && IsNewest(p, s);
      [p] + OrderNewestFirst(s - {p})
  }

  /** The rows get_patients lists, before pagination. */
  ghost function ListPatients(db: Database, search: string): (r: seq<Patient>)
    reads db
    requires db.Valid()
    ensures forall i :: 0 <= i < |r| ==> r[i].id in db.patients && db.patients[r[i].id] == r[i]
    ensures forall p :: p in r <==> (exists k :: k in db.patients && db.patients[k] == p) && MatchesSearch(p, search)
    ensures forall i, j :: 0 <= i < j < |r| ==> r[i] != r[j]
    ensures NewestFirst(r)
  {
    var r := OrderNewestFirst(Matching(db.patients, search));
    assert forall i :: 0 <= i < |r| ==> r[i] in Matching(db.patients, search);
    r
  }

  /** With an empty search text every patient is listed. */
  lemma ListingWithoutSearchKeepsAll(db: Database)
    requires db.Valid()
    ensures forall k :: k in db.patients ==> db.patients[k] in ListPatients(db, "")
  {
  }
}
