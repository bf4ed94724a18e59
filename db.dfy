/**
 * The rows the route handlers read and write, and the database session that
 * holds them. Each table is a map from primary key to row; a new row takes the
 * next key of its table's autoincrement counter.
 */
module Db {
  import opened Wrappers

  /** A patient row, with the columns patient/routes.py reads and writes. */
  datatype Patient = Patient(
    id: int,
    idCard: string,
    name: string,
    gender: string,
    photoPath: Option<string>,
    createdAt: int)

  /** An MRI sequence row, with the columns mri/routes.py reads and writes. */
  datatype Sequence = Sequence(
    id: int,
    patientId: int,
    sequenceName: string,
    folderPath: string,
    createdAt: int)

  /** A prediction record (PredRecord). */
  datatype Prediction = Prediction(
    id: int,
    resultName: string,
    predTime: int)

  // In each table, keys are positive, below the next key to hand out, and each row carries its own key.

  ghost predicate PatientsKeyed(rows: map<int, Patient>, next: int) {
    forall k :: k in rows ==> 1 <= k < next && rows[k].id == k
  }

  ghost predicate SequencesKeyed(rows: map<int, Sequence>, next: int) {
    forall k :: k in rows ==> 1 <= k < next && rows[k].id == k
  }

  ghost predicate PredictionsKeyed(rows: map<int, Prediction>, next: int) {
    forall k :: k in rows ==> 1 <= k < next && rows[k].id == k
  }

  /** No two patients share an identity-card number (the column is unique). */
  ghost predicate IdCardsUnique(rows: map<int, Patient>) {
    forall a, b :: a in rows && b in rows && rows[a].idCard == rows[b].idCard ==> a == b
  }

  /** No patient has two sequences of the same name. */
  ghost predicate SequenceNamesUnique(rows: map<int, Sequence>) {
    forall a, b ::
      (a in rows && b in rows && rows[a].patientId == rows[b].patientId
       && rows[a].sequenceName == rows[b].sequenceName) ==> a == b
  }

  /** The database session shared by every request handler. */
  class Database {
    var patients: map<int, Patient>
    var sequences: map<int, Sequence>
    var predictions: map<int, Prediction>
    var nextPatientId: int
    var nextSequenceId: int
    var nextPredictionId: int

    ghost predicate Valid()
      reads this
    {
      && 1 <= nextPatientId && 1 <= nextSequenceId && 1 <= nextPredictionId
      && PatientsKeyed(patients, nextPatientId)
      && SequencesKeyed(sequences, nextSequenceId)
      && PredictionsKeyed(predictions, nextPredictionId)
      && IdCardsUnique(patients)
      && SequenceNamesUnique(sequences)
    }

    constructor ()
      ensures Valid()
      ensures patients == map[] && sequences == map[] && predictions == map[]
    {
      patients, sequences, predictions := map[], map[], map[];
      nextPatientId, nextSequenceId, nextPredictionId := 1, 1, 1;
    }
  }
}
