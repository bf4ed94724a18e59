/**
 * backend/app/mri/routes.py: MRI sequences of a patient. A sequence row points
 * at a folder of DICOM slices under the upload folder. The file system is
 * abstracted as `dirs`, a map from each existing directory's full path to the
 * names os.listdir returns for it; `secure` stands for werkzeug's secure_filename.
 */
module MriRoutes {
  import opened Wrappers
  import opened Text
  import opened Http
  import opened Uploads
  import opened Db

  datatype SequenceForm = SequenceForm(
    patientId: Option<string>,
    sequenceName: Option<string>,
    files: seq<FileUpload>)

  /** The body of a 201 from create_sequence. */
  datatype SequenceCreated = SequenceCreated(
    id: int,
    patientId: int,
    sequenceName: string,
    folderPath: string,
    fileCount: nat)

  datatype FileEntry = FileEntry(name: string, path: string)

  datatype SequenceFiles = SequenceFiles(sequenceId: int, sequenceName: string, files: seq<FileEntry>)

  /**
   * The primary key the database compares the form's patient_id text with:
   * a run of decimal digits denotes its value; any other text matches no row.
   */
  function PatientKeyOf(text: string): Option<nat> {
    ParseNat(text)
  }

  predicate SequenceNameTaken(rows: map<int, Sequence>, patientId: int, name: string) {
    exists k :: k in rows && rows[k].patientId == patientId && rows[k].sequenceName == name
  }

  /** os.path.join('sequences', f'patient_{patient_id}', sequence_name), from the form's own text. */
  function FolderPath(patientIdText: string, sequenceName: string): string {
    JoinPath(JoinPath("sequences", "patient_" + patientIdText), sequenceName)
  }

  /** For a numeric patient id and a relative name the folder is sequences/patient_<id>/<name>. */
  lemma FolderPathShape(patientIdText: string, sequenceName: string)
    requires PatientKeyOf(patientIdText).Some?
    requires Relative(sequenceName)
    ensures FolderPath(patientIdText, sequenceName) == "sequences/patient_" + patientIdText + "/" + sequenceName
  {
  }

  /** A sequence name that starts with '/' replaces the whole folder path, as os.path.join does. */
  lemma FolderPathAbsoluteName(patientIdText: string, sequenceName: string)
    requires |sequenceName| > 0 && sequenceName[0] == '/'
    ensures FolderPath(patientIdText, sequenceName) == sequenceName
  {
  }

  /** An upload the save loop keeps: a FileStorage is falsy when its name is empty. */
  predicate Kept(f: FileUpload) {
    f.filename != "" && AllowedDicom(f.filename)
  }

  /** The names the save loop of create_sequence appends to saved_files, in upload order. */
  function SavedFiles(files: seq<FileUpload>, secure: string -> string): (r: seq<string>)
    ensures |r| <= |files|
    ensures forall k :: 0 <= k < |files| && Kept(files[k]) ==> secure(files[k].filename) in r
    ensures forall n :: n in r ==> exists k :: 0 <= k < |files| && Kept(files[k]) && n == secure(files[k].filename)
  {
    if files == [] then []
    else
      var last := files[|files| - 1];
      var init := files[..|files| - 1];
      assert forall k :: 0 <= k < |init| ==> init[k] == files[k];
      SavedFiles(init, secure) + (if Kept(last) then [secure(last.filename)] else [])
  }

  /** Saving keeps upload order: the names saved from two batches are those of the first, then those of the second. */
  lemma {:induction false} SavedFilesConcat(a: seq<FileUpload>, b: seq<FileUpload>, secure: string -> string)
    ensures SavedFiles(a + b, secure) == SavedFiles(a, secure) + SavedFiles(b, secure)
    decreases |b|
  {
    if b == [] {
      assert a + b == a;
    } else {
      var b' := b[..|b| - 1];
      assert (a + b)[..|a + b| - 1] == a + b';
      assert (a + b)[|a + b| - 1] == b[|b| - 1];
      SavedFilesConcat(a, b', secure);
    }
  }

  /** Nothing is saved exactly when no upload passes allowed_file. */
  lemma {:induction false} SavedFilesEmpty(files: seq<FileUpload>, secure: string -> string)
    ensures SavedFiles(files, secure) == [] <==> forall k :: 0 <= k < |files| ==> !AllowedDicom(files[k].filename)
  {
    if SavedFiles(files, secure) == [] {
      forall k | 0 <= k < |files| ensures !AllowedDicom(files[k].filename) {
        assert !Kept(files[k]);
        assert files[k].filename == "" ==> '.' !in files[k].filename;
      }
    } else {
      var n := SavedFiles(files, secure)[0];
      assert n in SavedFiles(files, secure);
    }
  }

  /** POST /api/mri/sequences (create_sequence). */
  method CreateSequence(db: Database, form: SequenceForm, now: int, secure: string -> string)
    returns (r: Reply<SequenceCreated>)
    requires db.Valid()
    modifies db
    ensures db.Valid()
    // the checks, in the order the handler makes them
    ensures !(Filled(form.patientId) && Filled(form.sequenceName) && |form.files| > 0) ==> r == Err(MissingFields)
    ensures (Filled(form.patientId) && Filled(form.sequenceName) && |form.files| > 0
             && (PatientKeyOf(form.patientId.value).None?
                 || PatientKeyOf(form.patientId.value).value !in old(db.patients))) ==> r == Err(PatientMissing)
    ensures (Filled(form.patientId) && Filled(form.sequenceName) && |form.files| > 0
             && PatientKeyOf(form.patientId.value).Some?
             && PatientKeyOf(form.patientId.value).value in old(db.patients)
             && SequenceNameTaken(old(db.sequences), PatientKeyOf(form.patientId.value).value, form.sequenceName.value))
            ==> r == Err(DuplicateSequenceName)
    ensures (Filled(form.patientId) && Filled(form.sequenceName) && |form.files| > 0
             && PatientKeyOf(form.patientId.value).Some?
             && PatientKeyOf(form.patientId.value).value in old(db.patients)
             && !SequenceNameTaken(old(db.sequences), PatientKeyOf(form.patientId.value).value, form.sequenceName.value)
             && SavedFiles(form.files, secure) == []) ==> r == Err(NoValidDicom)
    ensures r.Err? ==> unchanged(db)
    // success, exactly when every check passes: one new row, pointing at the folder that holds the saved slices
    ensures r.Ok? <==> (Filled(form.patientId) && Filled(form.sequenceName) && |form.files| > 0
                       && PatientKeyOf(form.patientId.value).Some?
                       && PatientKeyOf(form.patientId.value).value in old(db.patients)
                       && !SequenceNameTaken(old(db.sequences), PatientKeyOf(form.patientId.value).value,
                                             form.sequenceName.value)
                       && SavedFiles(form.files, secure) != [])
    ensures r.Ok? ==>
      var row := Sequence(r.value.id, PatientKeyOf(form.patientId.value).value, form.sequenceName.value,
                          FolderPath(form.patientId.value, form.sequenceName.value), now);
      && r.code == CREATED
      && r.value == SequenceCreated(row.id, row.patientId, row.sequenceName, row.folderPath,
                                    |SavedFiles(form.files, secure)|)
      && r.value.id !in old(db.sequences)
      && db.sequences == old(db.sequences)[r.value.id := row]
      && db.patients == old(db.patients) && db.predictions == old(db.predictions)
      && db.nextPatientId == old(db.nextPatientId) && db.nextPredictionId == old(db.nextPredictionId)
  {
    if !(Filled(form.patientId) && Filled(form.sequenceName) && |form.files| > 0) {
      return Err(MissingFields);
    }
    var idText, name := form.patientId.value, form.sequenceName.value;
    var key := PatientKeyOf(idText);
    if key.None? || key.value !in db.patients {
      return Err(PatientMissing);
    }
    var patientId := key.value;
    if SequenceNameTaken(db.sequences, patientId, name) {
      return Err(DuplicateSequenceName);
    }
    var folder := FolderPath(idText, name);
    var files := form.files;
    var saved: seq<string> := [];
    var i := 0;
    while i < |files|
      invariant 0 <= i <= |files|
      invariant saved == SavedFiles(files[..i], secure)
    {
      var f := files[i];
      assert files[..i + 1][..i] == files[..i];
      if Kept(f) {
        saved := saved + [secure(f.filename)];
      }
      i := i + 1;
    }
    assert files[..|files|] == files;
    if saved == [] {
      return Err(NoValidDicom);
    }
    var id := db.nextSequenceId;
    assert id !in db.sequences;
    var row := Sequence(id, patientId, name, folder, now);
    db.sequences := db.sequences[id := row];
    db.nextSequenceId := id + 1;
    r := Ok(CREATED, SequenceCreated(id, patientId, name, folder, |saved|));
  }

  /** The sequences of one patient. */
  function SequencesOf(rows: map<int, Sequence>, patientId: int): map<int, Sequence> {
    map k | k in rows && rows[k].patientId == patientId :: rows[k]
  }

  /** GET /api/mri/sequences/<patient_id> (get_sequences). */
  function GetSequences(db: Database, patientId: int): (r: Reply<map<int, Sequence>>)
    reads db
    ensures r.Ok? <==> patientId in db.patients
    ensures r.Err? ==> r.error == NotFound
    ensures r.Ok? ==> && r.code == OK
                      && (forall k :: k in r.value <==> k in db.sequences && db.sequences[k].patientId == patientId)
                      && (forall k :: k in r.value ==> r.value[k] == db.sequences[k])
  {
    if patientId !in db.patients then Err(NotFound) else Ok(OK, SequencesOf(db.sequences, patientId))
  }

  /** DELETE /api/mri/sequences/<id> (delete_sequence). */
  method DeleteSequence(db: Database, id: int) returns (r: Reply<Ack>)
    requires db.Valid()
    modifies db
    ensures db.Valid()
    ensures id !in old(db.sequences) ==> r == Err(NotFound) && unchanged(db)
    ensures id in old(db.sequences) ==> && r == Ok(OK, Ack)
                                        && db.sequences == old(db.sequences) - {id}
                                        && db.patients == old(db.patients) && db.predictions == old(db.predictions)
                                        && db.nextPatientId == old(db.nextPatientId)
                                        && db.nextSequenceId == old(db.nextSequenceId)
                                        && db.nextPredictionId == old(db.nextPredictionId)
  {
    if id !in db.sequences {
      return Err(NotFound);
    }
    db.sequences := db.sequences - {id};
    r := Ok(OK, Ack);
  }

  /** The entries get_sequence_files lists for a folder's listing, in listing order. */
  function ListedFiles(folder: string, names: seq<string>): (r: seq<FileEntry>)
    ensures |r| <= |names|
    ensures forall e :: e in r ==> e.name in names && AllowedDicom(e.name) && e.path == JoinPath(folder, e.name)
    ensures forall n :: n in names && AllowedDicom(n) ==> FileEntry(n, JoinPath(folder, n)) in r
  {
    if names == [] then []
    else
      var last := names[|names| - 1];
      var init := names[..|names| - 1];
      assert names == init + [last];
      ListedFiles(folder, init) + (if AllowedDicom(last) then [FileEntry(last, JoinPath(folder, last))] else [])
  }

  /** Listing keeps order: two runs of names give the first run's entries, then the second's. */
  lemma {:induction false} ListedFilesConcat(folder: string, a: seq<string>, b: seq<string>)
    ensures ListedFiles(folder, a + b) == ListedFiles(folder, a) + ListedFiles(folder, b)
    decreases |b|
  {
    if b == [] {
      assert a + b == a;
    } else {
      var b' := b[..|b| - 1];
      assert (a + b)[..|a + b| - 1] == a + b';
      assert (a + b)[|a + b| - 1] == b[|b| - 1];
      ListedFilesConcat(folder, a, b');
    }
  }

  /** One name gives one entry when it passes allowed_file and none otherwise. */
  lemma ListedFilesSingle(folder: string, n: string)
    ensures ListedFiles(folder, [n]) == if AllowedDicom(n) then [FileEntry(n, JoinPath(folder, n))] else []
  {
    assert [n][..0] == [];
  }

  /** GET /api/mri/sequences/<id>/files (get_sequence_files). */
  method GetSequenceFiles(db: Database, id: int, uploadFolder: string, dirs: map<string, seq<string>>)
    returns (r: Reply<SequenceFiles>)
    requires db.Valid()
    ensures id !in db.sequences ==> r == Err(NotFound)
    ensures id in db.sequences && JoinPath(uploadFolder, db.sequences[id].folderPath) !in dirs ==>
      r == Err(FolderMissing)
    ensures r.Ok? <==> id in db.sequences && JoinPath(uploadFolder, db.sequences[id].folderPath) in dirs
    ensures r.Err? ==> r.Status() == NOT_FOUND
    ensures r.Ok? ==>
      var row := db.sequences[id];
      r == Ok(OK, SequenceFiles(id, row.sequenceName,
                                ListedFiles(row.folderPath, dirs[JoinPath(uploadFolder, row.folderPath)])))
  {
    if id !in db.sequences {
      return Err(NotFound);
    }
    var row := db.sequences[id];
    var full := JoinPath(uploadFolder, row.folderPath);
    if full !in dirs {
      return Err(FolderMissing);
    }
    var names := dirs[full];
    var files: seq<FileEntry> := [];
    var i := 0;
    while i < |names|
      invariant 0 <= i <= |names|
      invariant files == ListedFiles(row.folderPath, names[..i])
    {
      var n := names[i];
      assert names[..i + 1][..i] == names[..i];
      if AllowedDicom(n) {
        files := files + [FileEntry(n, JoinPath(row.folderPath, n))];
      }
      i := i + 1;
    }
    assert names[..|names|] == names;
    r := Ok(OK, SequenceFiles(row.id, row.sequenceName, files));
  }
}
