/**
 * backend/app/prediction/routes.py: prediction records. The JSON body is given
 * field by field (None for an absent key). The file system is abstracted as
 * `existing`, the set of full paths that os.path.exists accepts.
 */
module PredictionRoutes {
  import opened Wrappers
  import opened Text
  import opened Http
  import opened Db

  datatype PredictionRequest = PredictionRequest(
    sequenceId: Option<int>,
    imagePath: Option<string>,
    hasProstateRegion: bool,
    hasNeedlePositions: bool)

  /** The `prediction_ids` key of a compare request: absent, present but not a JSON list, or a list of ids. */
  datatype IdsField = Absent | NotAList | IdList(ids: seq<int>)

  /** os.path.join('predictions', f"prediction_{seq_id}_{os.path.basename(image_path)}"). */
  function ResultName(seqId: int, imagePath: string): string {
    JoinPath("predictions", "prediction_" + IntToString(seqId) + "_" + Basename(imagePath))
  }

  /** The result is always the file prediction_<id>_<image file name> directly under predictions/. */
  lemma ResultNameShape(seqId: int, imagePath: string)
    ensures ResultName(seqId, imagePath) == "predictions/prediction_" + IntToString(seqId) + "_" + Basename(imagePath)
  {
  }

  /** POST /api/predictions (create_prediction); the prediction model itself is a stub in the source. */
  method CreatePrediction(db: Database, req: PredictionRequest, uploadFolder: string, existing: set<string>, now: int)
    returns (r: Reply<Prediction>)
    requires db.Valid()
    modifies db
    ensures db.Valid()
    // the checks, in the order the handler makes them
    ensures !(req.sequenceId.Some? && req.imagePath.Some? && req.hasProstateRegion && req.hasNeedlePositions) ==>
      r == Err(MissingFields)
    ensures (req.sequenceId.Some? && req.imagePath.Some? && req.hasProstateRegion && req.hasNeedlePositions
             && req.sequenceId.value !in old(db.sequences)) ==> r == Err(SequenceMissing)
    ensures (req.sequenceId.Some? && req.imagePath.Some? && req.hasProstateRegion && req.hasNeedlePositions
             && req.sequenceId.value in old(db.sequences)
             && JoinPath(uploadFolder, req.imagePath.value) !in existing) ==> r == Err(ImageMissing)
    ensures r.Err? ==> unchanged(db)
    // success: exactly one new record, named after the sequence and the image
    ensures r.Ok? <==> (req.sequenceId.Some? && req.imagePath.Some? && req.hasProstateRegion && req.hasNeedlePositions
                       && req.sequenceId.value in old(db.sequences)
                       && JoinPath(uploadFolder, req.imagePath.value) in existing)
    ensures r.Ok? ==> && r.code == CREATED
                      && r.value == Prediction(r.value.id, ResultName(req.sequenceId.value, req.imagePath.value), now)
                      && r.value.id !in old(db.predictions)
                      && db.predictions == old(db.predictions)[r.value.id := r.value]
                      && db.patients == old(db.patients) && db.sequences == old(db.sequences)
                      && db.nextPatientId == old(db.nextPatientId) && db.nextSequenceId == old(db.nextSequenceId)
  {
    if !(req.sequenceId.Some? && req.imagePath.Some? && req.hasProstateRegion && req.hasNeedlePositions) {
      return Err(MissingFields);
    }
    if req.sequenceId.value !in db.sequences {
      return Err(SequenceMissing);
    }
    var sequence := db.sequences[req.sequenceId.value];
    var imagePath := req.imagePath.value;
    if JoinPath(uploadFolder, imagePath) !in existing {
      return Err(ImageMissing);
    }
    var id := db.nextPredictionId;
    assert id !in db.predictions;
    var record := Prediction(id, ResultName(sequence.id, imagePath), now);
    db.predictions := db.predictions[id := record];
    db.nextPredictionId := id + 1;
    r := Ok(CREATED, record);
  }

  /** GET /api/predictions/<id> (get_prediction). */
  function GetPrediction(db: Database, id: int): (r: Reply<Prediction>)
    reads db
    requires db.Valid()
    ensures r.Ok? <==> id in db.predictions
    ensures r.Ok? ==> r.code == OK && r.value == db.predictions[id] && r.value.id == id
    ensures r.Err? ==> r.error == NotFound
  {
    if id in db.predictions then Ok(OK, db.predictions[id]) else Err(NotFound)
  }

  /** The records compare_predictions collects: one per requested id that exists, in request order. */
  function Found(ids: seq<int>, rows: map<int, Prediction>): (r: seq<Prediction>)
    ensures |r| <= |ids|
    ensures forall p :: p in r ==> exists k :: 0 <= k < |ids| && ids[k] in rows && p == rows[ids[k]]
    ensures forall k :: 0 <= k < |ids| && ids[k] in rows ==> rows[ids[k]] in r
  {
    if ids == [] then []
    else
      var init := ids[..|ids| - 1];
      var last := ids[|ids| - 1];
      assert forall k :: 0 <= k < |init| ==> init[k] == ids[k];
      Found(init, rows) + (if last in rows then [rows[last]] else [])
  }

  /** Collecting keeps request order: two batches of ids give the first batch's records, then the second's. */
  lemma {:induction false} FoundConcat(a: seq<int>, b: seq<int>, rows: map<int, Prediction>)
    ensures Found(a + b, rows) == Found(a, rows) + Found(b, rows)
    decreases |b|
  {
    if b == [] {
      assert a + b == a;
    } else {
      var b' := b[..|b| - 1];
      assert (a + b)[..|a + b| - 1] == a + b';
      assert (a + b)[|a + b| - 1] == b[|b| - 1];
      FoundConcat(a, b', rows);
    }
  }

  /** An id asked for twice is answered twice; an unknown id is skipped. */
  lemma FoundDuplicatesAndUnknown(x: int, y: int, rows: map<int, Prediction>)
    requires x in rows && y !in rows
    ensures Found([x, y, x], rows) == [rows[x], rows[x]]
  {
    FoundConcat([x, y], [x], rows);
    FoundConcat([x], [y], rows);
  }

  /** Nothing is found exactly when no requested id exists. */
  lemma FoundEmpty(ids: seq<int>, rows: map<int, Prediction>)
    ensures Found(ids, rows) == [] <==> forall k :: 0 <= k < |ids| ==> ids[k] !in rows
  {
  }

  /** POST /api/predictions/compare (compare_predictions). */
  method ComparePredictions(db: Database, field: IdsField) returns (r: Reply<seq<Prediction>>)
    ensures !field.IdList? ==> r == Err(MissingPredictionIds)
    ensures field.IdList? && Found(field.ids, db.predictions) == [] ==> r == Err(NoPredictionsFound)
    ensures field.IdList? && Found(field.ids, db.predictions) != [] ==> r == Ok(OK, Found(field.ids, db.predictions))
    ensures r.Status() == (if r.Ok? then OK else if field.IdList? then NOT_FOUND else BAD_REQUEST)
  {
    if !field.IdList? {
      return Err(MissingPredictionIds);
    }
    var ids := field.ids;
    var predictions: seq<Prediction> := [];
    var i := 0;
    while i < |ids|
      invariant 0 <= i <= |ids|
      invariant predictions == Found(ids[..i], db.predictions)
    {
      var id := ids[i];
      assert ids[..i + 1][..i] == ids[..i];
      if id in db.predictions {
        predictions := predictions + [db.predictions[id]];
      }
      i := i + 1;
    }
    assert ids[..|ids|] == ids;
    if predictions == [] {
      return Err(NoPredictionsFound);
    }
    r := Ok(OK, predictions);
  }
}
