/**
 * backend/app/auth/routes.py: the doctor and administrator login decisions.
 * Both are read-only lookups followed by a password check; neither writes an
 * account. `check(hash, password)` stands for werkzeug's check_password_hash,
 * and a token is identified by the identity it is issued for.
 */
module AuthRoutes {
  import opened Wrappers
  import opened Http

  datatype Doctor = Doctor(doctorId: int, doctorName: string, jobNumber: string, passwordHash: string)

  datatype Administrator = Administrator(adminId: int, passwordHash: string)

  /** What create_access_token and create_refresh_token issue, for one identity. */
  datatype Token = AccessToken(identity: int) | RefreshToken(identity: int)

  datatype DoctorSession = DoctorSession(
    accessToken: Token,
    refreshToken: Token,
    id: int,
    name: string,
    jobNumber: string)

  datatype AdminSession = AdminSession(accessToken: Token, refreshToken: Token, adminId: int)

  /** The keys of the JSON body; a key that is present may hold any string, the empty one included. */
  datatype DoctorLoginRequest = DoctorLoginRequest(jobNumber: Option<string>, password: Option<string>)

  datatype AdminLoginRequest = AdminLoginRequest(adminId: Option<int>, password: Option<string>)

  /** Doctor.query.filter_by(job_number=...).first(), over the rows in query order. */
  function FindDoctor(doctors: seq<Doctor>, jobNumber: string): (r: Option<Doctor>)
    ensures r.None? <==> forall i :: 0 <= i < |doctors| ==> doctors[i].jobNumber != jobNumber
    ensures r.Some? ==> exists i :: 0 <= i < |doctors| && doctors[i] == r.value && doctors[i].jobNumber == jobNumber
                                    && forall j :: 0 <= j < i ==> doctors[j].jobNumber != jobNumber
  {
    if doctors == [] then None
    else if doctors[0].jobNumber == jobNumber then Some(doctors[0])
    else
      var r := FindDoctor(doctors[1..], jobNumber);
      assert forall i :: 0 < i < |doctors| ==> doctors[i] == doctors[1..][i - 1];
      r
  }

  /** POST /api/auth/doctor/login (doctor_login). */
  function DoctorLogin(doctors: seq<Doctor>, req: DoctorLoginRequest, check: (string, string) -> bool)
    : (r: Reply<DoctorSession>)
    ensures req.jobNumber.None? || req.password.None? ==> r == Err(MissingFields)
    ensures req.jobNumber.Some? && req.password.Some? ==>
      (r.Ok? <==> FindDoctor(doctors, req.jobNumber.value).Some?
                  && check(FindDoctor(doctors, req.jobNumber.value).value.passwordHash, req.password.value))
    ensures req.jobNumber.Some? && req.password.Some? && r.Err? ==> r.error == BadJobNumberOrPassword
    ensures r.Status() == (if r.Ok? then OK else if r.error == MissingFields then BAD_REQUEST else UNAUTHORIZED)
    ensures r.Ok? ==> var d := FindDoctor(doctors, req.jobNumber.value).value;
      && r.code == OK
      && r.value == DoctorSession(AccessToken(d.doctorId), RefreshToken(d.doctorId), d.doctorId, d.doctorName, d.jobNumber)
  {
    if req.jobNumber.None? || req.password.None? then Err(MissingFields)
    else
      match FindDoctor(doctors, req.jobNumber.value)
      case Some(d) =>
        if check(d.passwordHash, req.password.value) then
          Ok(OK, DoctorSession(AccessToken(d.doctorId), RefreshToken(d.doctorId), d.doctorId, d.doctorName, d.jobNumber))
        else Err(BadJobNumberOrPassword)
      case None => Err(BadJobNumberOrPassword)
  }

  /** job_number is a unique column. */
  ghost predicate JobNumbersUnique(doctors: seq<Doctor>) {
    forall i, j :: 0 <= i < |doctors| && 0 <= j < |doctors| && doctors[i].jobNumber == doctors[j].jobNumber ==> i == j
  }

  /** With unique job numbers, a doctor logs in iff some doctor has that job number and the password checks against it. */
  lemma DoctorLoginSucceedsIff(doctors: seq<Doctor>, jobNumber: string, password: string, check: (string, string) -> bool)
    requires JobNumbersUnique(doctors)
    ensures DoctorLogin(doctors, DoctorLoginRequest(Some(jobNumber), Some(password)), check).Ok? <==>
      exists i :: 0 <= i < |doctors| && doctors[i].jobNumber == jobNumber && check(doctors[i].passwordHash, password)
  {
  }

  /** An unknown job number and a wrong password get the very same reply, so accounts cannot be probed. */
  lemma DoctorLoginHidesUnknownAccounts(doctors: seq<Doctor>, unknown: string, known: string,
                                        pw1: string, pw2: string, check: (string, string) -> bool)
    requires forall i :: 0 <= i < |doctors| ==> doctors[i].jobNumber != unknown
    requires FindDoctor(doctors, known).Some? && !check(FindDoctor(doctors, known).value.passwordHash, pw2)
    ensures DoctorLogin(doctors, DoctorLoginRequest(Some(unknown), Some(pw1)), check)
         == DoctorLogin(doctors, DoctorLoginRequest(Some(known), Some(pw2)), check)
         == Err(BadJobNumberOrPassword)
  {
  }

  /**
   * POST /api/auth/admin/login (admin_login): Administrator.query.get looks the id up as primary key,
   * so `admins` maps each admin_id to the row that carries it.
   */
  function AdminLogin(admins: map<int, Administrator>, req: AdminLoginRequest, check: (string, string) -> bool)
    : (r: Reply<AdminSession>)
    requires forall k :: k in admins ==> admins[k].adminId == k
    ensures req.adminId.None? || req.password.None? ==> r == Err(MissingFields)
    ensures req.adminId.Some? && req.password.Some? ==>
      (r.Ok? <==> req.adminId.value in admins && check(admins[req.adminId.value].passwordHash, req.password.value))
    ensures req.adminId.Some? && req.password.Some? && r.Err? ==> r.error == BadAdminIdOrPassword
    ensures r.Status() == (if r.Ok? then OK else if r.error == MissingFields then BAD_REQUEST else UNAUTHORIZED)
    ensures r.Ok? ==> var a := admins[req.adminId.value];
      r.code == OK && r.value == AdminSession(AccessToken(a.adminId), RefreshToken(a.adminId), a.adminId)
    ensures r.Ok? ==> r.value.adminId == req.adminId.value && r.value.accessToken == AccessToken(req.adminId.value)
  {
    if req.adminId.None? || req.password.None? then Err(MissingFields)
    else if req.adminId.value in admins && check(admins[req.adminId.value].passwordHash, req.password.value) then
      var a := admins[req.adminId.value];
      Ok(OK, AdminSession(AccessToken(a.adminId), RefreshToken(a.adminId), a.adminId))
    else Err(BadAdminIdOrPassword)
  }
}
