# MRI prediction platform — verified model of the request handlers and the router guard

The platform keeps patient records, the MRI sequences (folders of DICOM slices)
uploaded for each patient, and the prostate-puncture prediction records made
from those images. Doctors and administrators log in and receive JWT tokens.
The Vue front end sends visitors without a stored token to the login page.

This Dafny project models:

- the Flask route handlers for patients, MRI sequences, predictions and the two
  logins;
- the upload-name checks (`allowed_file`);
- the front end's route table and its `beforeEach` navigation guard.

Layout, one module per concern:

| file | module | models |
|---|---|---|
| `wrappers.dfy` | `Wrappers` | the `Option` type |
| `http.dfy` | `Http` | a handler's reply: a status and a payload, or one of the error bodies with its status; Python truthiness of a form value |
| `text.dfy` | `Text` | `str.rsplit`/`rfind`, ASCII `str.lower`, `ILIKE '%s%'`, `posixpath.join`/`basename`, `str(int)` and its parser |
| `uploads.dfy` | `Uploads` | both `allowed_file` functions |
| `db.dfy` | `Db` | the rows and the `Database` session class; its `Valid()` invariant holds the key discipline and both uniqueness rules |
| `patients.dfy` | `PatientRoutes` | `backend/app/patient/routes.py` |
| `mri.dfy` | `MriRoutes` | `backend/app/mri/routes.py` |
| `prediction.dfy` | `PredictionRoutes` | `backend/app/prediction/routes.py` |
| `auth.dfy` | `AuthRoutes` | `backend/app/auth/routes.py` |
| `router.dfy` | `Router` | `frontend/src/router/index.js` |

How the handlers are modelled:

- **State-changing handlers** (create, update, delete) are methods on a
  `Database` object (`modifies db`). Each one:
  - keeps `db.Valid()`;
  - returns the same error, in the same order of checks, as the handler;
  - leaves the database unchanged on every error;
  - states exactly which row is added, replaced or removed on success.
- **Read-only handlers** are functions that read `db`, or methods without
  `modifies` when the handler loops over a list.
- **Outside inputs** are parameters:
  - the request (form fields are optional strings, the JSON body one optional
    value per key);
  - the clock (`now`);
  - werkzeug's `secure_filename` and `check_password_hash`, as uninterpreted
    functions;
  - the file system: the set of existing paths (`existing`) or a listing per
    directory (`dirs`).

Two places where the repository disagrees with itself; the model follows the
route code:

- The tests call `/api/auth/doctor/register`, `/api/auth/doctor/verify` and
  `/api/auth/doctor/resend-code` (backend/tests/test_doctor_register.py:57-60,
  74-77, 187-190). No route file defines them, so doctor registration,
  verification codes and their throttling are not modelled.
- The ORM column names the handlers use (`Patient.id_card`, `MRISequence.patient_id`,
  `sequence.folder_path`, ...) are not those of `backend/app/models.py`.
  The rows here carry the columns the handlers use. The one exception is
  `sequence.seq_id` in create_prediction (backend/app/prediction/routes.py:34),
  the models.py name of the key: it is read as the sequence row's key `id`.

`FolderPathAbsoluteName` records one behaviour of the code as written: a
`sequence_name` that starts with `/` replaces the whole folder path, because
`os.path.join` discards what comes before an absolute part.

## Model

| member | source | states |
|---|---|---|
| Text.LastIndexOf | backend/app/patient/routes.py:11 | the position `rsplit('.', 1)` cuts at: None iff the character is absent, otherwise a position holding it with none after it |
| Text.AfterLast | backend/app/prediction/routes.py:34 | `AfterLast`, and so `Basename` (posixpath.basename): the text after the last separator contains no separator, is a suffix of the input, and is preceded by the separator when shorter |
| Text.LowerKeepsLastIndex | backend/app/patient/routes.py:11 | lower-casing a name moves neither its last '.' nor its last '/' |
| Text.NatToString | backend/app/prediction/routes.py:34 | `str(n)` is a non-empty run of digits with no leading zero, starting with '0' only for 0 |
| Text.IntToString | backend/app/prediction/routes.py:34 | `str(n)` starts with '-' exactly when n is negative, its digits parse back to the magnitude of n, and it has no leading zero (nor "-0"): the one canonical rendering |
| Text.ParseNat | backend/app/mri/routes.py:26 | the text's value is defined exactly for non-empty runs of digits |
| Text.ParseNatToString | backend/app/mri/routes.py:26 | parsing `str(n)` gives back n: every primary key has a text that denotes it |
| Uploads.Extension | backend/app/patient/routes.py:11 | `name.rsplit('.', 1)[1]`: absent iff the name has no '.', otherwise the dot-free suffix after the last '.' |
| Uploads.ExtensionTest | backend/app/patient/routes.py:10-11 | a name passes iff it has a last '.' and the lower-cased text after it is in the extension set |
| Uploads.IgnoresCase | backend/app/patient/routes.py:11 | `Lower` (ASCII str.lower): lower-casing the whole name never changes the verdict |
| Uploads.FinalExtensionDecides | backend/app/patient/routes.py:11 | for `stem.ext` with a dot-free `ext`, only `ext` decides, whatever dots `stem` has |
| Uploads.AllowedImageIff | backend/app/patient/routes.py:10-11 | a photo name passes iff the text after its last '.' is png, jpg or jpeg in any letter case |
| Uploads.AllowedImageIgnoresCase | backend/app/patient/routes.py:11 | photo names equal up to letter case get the same verdict |
| Uploads.AllowedImageFinalExtension | backend/app/patient/routes.py:11 | `x.a.png` passes and `x.png.exe` does not: only the final extension counts |
| Uploads.AllowedDicomIff | backend/app/mri/routes.py:10-11 | a slice name passes iff the text after its last '.' is dcm or dicom in any letter case |
| Uploads.AllowedDicomIgnoresCase | backend/app/mri/routes.py:11 | slice names equal up to letter case get the same verdict |
| Uploads.AllowedDicomFinalExtension | backend/app/mri/routes.py:11 | only the final extension of a slice name counts |
| PatientRoutes.PhotoPath | backend/app/patient/routes.py:35-38 | a photo path is recorded iff a photo was sent and passes allowed_file; it is `patients/<secure(id_card_filename)>` |
| PatientRoutes.CreatePatient | backend/app/patient/routes.py:15-62 | missing field → 400, bad gender → 400, duplicate identity card → 400, each leaving the database unchanged; success exactly when all three checks pass: 201 with exactly one new row holding the submitted values under a fresh key, all else unchanged, invariant kept |
| PatientRoutes.GetPatient | backend/app/patient/routes.py:104-105 | the row stored under the id, or 404 iff there is none |
| PatientRoutes.Updated | backend/app/patient/routes.py:122-146 | id, identity card and creation time are kept; name and gender change only when a non-empty value is sent; the photo path changes only for an accepted photo, and then to `patients/<secure(id_card_filename)>` as PhotoPath gives it |
| PatientRoutes.UpdatePatient | backend/app/patient/routes.py:118-159 | unknown id → 404, bad non-empty gender → 400, both leaving the database unchanged; success exactly when the id exists and any non-empty gender is M or F: that one row is replaced by the updated row, all else unchanged, invariant kept |
| PatientRoutes.DeletePatient | backend/app/patient/routes.py:163-175 | unknown id → 404 with no change; otherwise exactly that row is removed, all else unchanged |
| PatientRoutes.OrderNewestFirst | backend/app/patient/routes.py:81 | `ORDER BY created_at DESC`: every member of the set listed once and nothing else, newest first |
| PatientRoutes.ListPatients | backend/app/patient/routes.py:70-81 | the listing holds exactly the stored rows matching the search by `MatchesSearch` (name or identity card contains it by `ContainsIgnoringCase`, when the search is non-empty), each the row stored under its own id and listed once, newest first |
| PatientRoutes.ListingWithoutSearchKeepsAll | backend/app/patient/routes.py:70-74 | an empty search lists every patient |
| MriRoutes.FolderPathShape | backend/app/mri/routes.py:35 | `FolderPath`, built with `JoinPath` (posixpath.join): for a numeric patient id and a relative name the folder is `sequences/patient_<id>/<name>` |
| MriRoutes.FolderPathAbsoluteName | backend/app/mri/routes.py:35 | `FolderPath`, through `JoinPath`: a sequence name starting with '/' becomes the whole folder path |
| MriRoutes.SavedFiles | backend/app/mri/routes.py:40-46 | every upload with a non-empty accepted name is saved under its secure name, and only those |
| MriRoutes.SavedFilesConcat | backend/app/mri/routes.py:41-46 | the save loop keeps upload order: two batches give the first batch's names, then the second's |
| MriRoutes.SavedFilesEmpty | backend/app/mri/routes.py:41-49 | nothing is saved iff no upload name passes allowed_file |
| MriRoutes.CreateSequence | backend/app/mri/routes.py:15-70 | missing field → 400, unknown patient → 404, name taken for that patient → 400, no valid DICOM → 400, each with no change; success exactly when all four checks pass: 201 with one new row at the joined folder path and the count of saved files, all else unchanged, invariant kept |
| MriRoutes.GetSequences | backend/app/mri/routes.py:74-79 | unknown patient → 404; otherwise exactly the sequences whose patient is that one |
| MriRoutes.DeleteSequence | backend/app/mri/routes.py:92-106 | unknown id → 404 with no change; otherwise exactly that row is removed |
| MriRoutes.ListedFiles | backend/app/mri/routes.py:118-125 | the listing keeps exactly the accepted names, each with its path joined to the sequence folder |
| MriRoutes.ListedFilesConcat | backend/app/mri/routes.py:119-125 | the listing keeps `os.listdir` order: two runs of names give the first run's entries, then the second's |
| MriRoutes.ListedFilesSingle | backend/app/mri/routes.py:120-125 | one name gives exactly one entry when it passes allowed_file and none otherwise; with ListedFilesConcat this fixes every entry and its multiplicity |
| MriRoutes.GetSequenceFiles | backend/app/mri/routes.py:110-131 | unknown id → 404, missing folder → 404; success exactly when both exist: the sequence's name and the filtered listing of its folder |
| PredictionRoutes.ResultNameShape | backend/app/prediction/routes.py:34-35 | `ResultName`, built with `JoinPath`, `IntToString` and `Basename`: the result is `predictions/prediction_<sequence id>_<image file name>` |
| PredictionRoutes.CreatePrediction | backend/app/prediction/routes.py:12-56 | missing key → 400, unknown sequence → 404, missing image → 404, each with no change; success exactly when all three checks pass: 201 with one new record named after the sequence and the image, all else unchanged |
| PredictionRoutes.GetPrediction | backend/app/prediction/routes.py:77-78 | the record stored under the id, or 404 iff there is none |
| PredictionRoutes.Found | backend/app/prediction/routes.py:96-104 | every requested id that exists contributes its record, and nothing else is collected |
| PredictionRoutes.FoundConcat | backend/app/prediction/routes.py:97-104 | collection keeps request order across batches |
| PredictionRoutes.FoundDuplicatesAndUnknown | backend/app/prediction/routes.py:97-104 | an id asked for twice is answered twice; an unknown id is skipped |
| PredictionRoutes.FoundEmpty | backend/app/prediction/routes.py:99-107 | nothing is found iff no requested id exists |
| PredictionRoutes.ComparePredictions | backend/app/prediction/routes.py:88-111 | no id list → 400; no record found → 404; otherwise 200 with the found records in request order |
| AuthRoutes.FindDoctor | backend/app/auth/routes.py:16 | the first doctor in query order with the job number, or none iff no doctor has it |
| AuthRoutes.DoctorLogin | backend/app/auth/routes.py:10-31 | missing key → 400; success iff the doctor exists and the password checks, giving tokens for the doctor's id and the doctor's profile; any other case → 401 |
| AuthRoutes.DoctorLoginSucceedsIff | backend/app/auth/routes.py:16-18 | with unique job numbers, login succeeds iff some doctor has that job number and the password checks against that doctor's hash |
| AuthRoutes.DoctorLoginHidesUnknownAccounts | backend/app/auth/routes.py:18-31 | an unknown job number and a wrong password get the same 401 reply |
| AuthRoutes.AdminLogin | backend/app/auth/routes.py:34-51 | missing key → 400; success iff the id is a stored administrator whose password checks, giving access and refresh tokens and `admin_id` for exactly the requested id (the table is keyed by `admin_id`); any other case → 401 |
| Router.MatchIn | frontend/src/router/index.js:15-73 | a non-empty match ends on a record whose path is the requested one |
| Router.Guard | frontend/src/router/index.js:81-94 | no match → /login; a page requiring auth proceeds iff a non-empty token is stored; any other matched page proceeds |
| Router.MatchChildren | frontend/src/router/index.js:34-71 | the four children of doctorHome match exactly their own paths |
| Router.MatchRoutes | frontend/src/router/index.js:15-73 | how the table matches each path: the three top-level paths, the four pages under doctorHome, nothing else |
| Router.ChildForKnown | frontend/src/router/index.js:34-71 | a path is one of doctorHome's children iff it is one of the four protected pages |
| Router.UnknownPathGoesToLogin | frontend/src/router/index.js:82-83 | a path outside the table is sent to /login |
| Router.ProtectedPageNeedsToken | frontend/src/router/index.js:84-90 | `Navigate`, with `MergedRequiresAuth` giving true for these pages: each of the four doctor pages opens iff a token is stored, else goes to /login |
| Router.LoginPageAlwaysOpens | frontend/src/router/index.js:20-28 | /login opens with or without a token |
| Router.RedirectsLandOnHome | frontend/src/router/index.js:16-19 | `Resolve`, which follows a record's redirect: "/" and "/doctorHome" resolve to, and are guarded as, /patient-management |
| Router.NavigateIff | frontend/src/router/index.js:81-94 | `Navigate` (`Resolve`, `MergedRequiresAuth`, then `Guard`): a navigation proceeds iff the path is in the table and is /login or a token is stored; otherwise it goes to /login |
| Router.RedirectSettles | frontend/src/router/index.js:81-94 | the guard's redirect target always opens, so the guard never loops |

## Left out

- Pagination in get_patients (`page`, `per_page`, the totals): `ListPatients` is the ordered result before the page is cut.
- SQL `ILIKE` wildcards: a `%` or `_` inside the search text is matched literally here.
- Unicode case mapping: `str.lower` and `ILIKE` are modelled on ASCII letters only. For the extension sets this is exact, except that KELVIN SIGN (U+212A) lowers to `k`, which no extension contains.
- Ties in `ORDER BY created_at DESC`: the database's order among equal timestamps is not modelled; any order is allowed.
- File I/O: `os.makedirs`, saving uploads, removing old photos, and removing a sequence's slices and folder. Saving and deleting change files only, never rows. A failing I/O call (a missing upload folder, or a sub-folder inside a sequence folder that `os.remove` cannot delete) ends the handler with a 500 before any row changes; those failures are not modelled, so DeleteSequence answers 200 where such a request fails. create_sequence creates the folder even when it then answers "no valid DICOM"; that leftover folder is not modelled.
- `secure_filename` and `check_password_hash` are uninterpreted parameters. Password hashing and werkzeug's name sanitising are not modelled.
- JWT: a token is modelled by the identity it is issued for. Expiry, signing and `@jwt_required` on the data routes are not modelled.
- `get_sequence_predictions` (`backend/app/prediction/routes.py:58-73`): it queries through join tables whose columns do not match the routes' own view of the rows.
- The prediction model: the source has only a placeholder at this point, so only the result name is recorded.
- JSON and form values other than those the request types carry. Ids are integers, names and passwords strings, and None stands for an absent key. Not modelled:
  - a body that is not JSON (`request.get_json()` giving None);
  - a JSON `null` under a present key, for which `Query.get(None)` finds nothing: a null `sequence_id` gets 404 and a null `job_number` gets 401;
  - numeric strings such as `"7"` for `sequence_id`, `admin_id` or an entry of `prediction_ids`, which the database coerces to the key 7;
  - values of other JSON types.
- PredictionRoutes.CreatePrediction: the four required keys are checked for presence only (`k in data`). Only the two keys whose values are used carry a value in the model.
- vue-router details: case-insensitive and trailing-slash matching, components, titles and the `next` callback plumbing.
- Concurrency: requests are modelled one after another, each handler as one atomic step. create_patient checks for a duplicate identity card (backend/app/patient/routes.py:31) and inserts later (lines 50-51); create_sequence does the same for a sequence name (backend/app/mri/routes.py:31, 58-59). Neither takes a lock, and the `id_card` column the routes use is not declared unique. So two concurrent creates can both pass the check and both insert, breaking the uniqueness rules that `Db.Database.Valid()` keeps.
- Autoincrement keys are a counter per table that is never reused. A deleted key is not handed out again.
- MriRoutes.CreateSequence: the form's `patient_id` text is compared with the primary key through `ParseNat` (a non-empty run of decimal digits). Other texts the database might coerce, such as `" 7"` or `"+7"`, are treated as matching no patient.
- AuthRoutes.FindDoctor: `.first()` is modelled over the doctors in query order, given as a sequence.
- MriRoutes.GetSequences: the result is the matching rows keyed by id; the order `.all()` returns them in is not modelled.
- Deleting a patient does not delete the patient's sequences: the handler removes only the patient row, and no cascade is declared for the columns these handlers use.
- App factory, blueprint registration, CLI commands and the tests are not part of this model.
