/** The request handlers of the HR dashboard service (coding.py): the order
    in which each endpoint validates its JSON body and what it answers, over
    in-memory stores standing in for the MongoDB collections. Password
    hashing and checking are parameters (bcrypt salts at random); every
    exception the handlers catch becomes the generic 500 reply. */
module Accounts {
  import opened Seqs
  import opened Text
  import opened Email

  /** A parsed JSON value. Numbers are integers only. */
  datatype Json =
    | JNull
    | JBool(b: bool)
    | JInt(i: int)
    | JStr(s: string)
    | JArr(items: seq<Json>)
    | JObj(fields: map<string, Json>)

  /** Python truthiness of the decoded value (`not v`). */
  predicate Truthy(v: Json) {
    match v
    case JNull => false
    case JBool(b) => b
    case JInt(i) => i != 0
    case JStr(s) => s != ""
    case JArr(items) => items != []
    case JObj(fields) => fields != map[]
  }

  /** `data.get(key)`: None when the key is absent. */
  function Get(data: map<string, Json>, key: string): Option<Json> {
    if key in data then Some(data[key]) else None
  }

  /** `data.get(key)` is truthy: the key is present and its value is not
      falsy. */
  predicate Given(data: map<string, Json>, key: string) {
    key in data && Truthy(data[key])
  }

  /** `data.get(key) is None`: absent, or JSON null. */
  predicate IsNone(data: map<string, Json>, key: string) {
    key !in data || data[key] == JNull
  }

  /** `all(field in data for field in keys)` on a dictionary. */
  predicate HasAll(data: map<string, Json>, keys: seq<string>) {
    forall k :: k in keys ==> k in data
  }

  /** Python `len(v)`; None where `len` raises. */
  function Len(v: Json): (r: Option<nat>)
    ensures r.Some? <==> v.JStr? || v.JArr? || v.JObj?
    ensures v.JStr? ==> r == Some(|v.s|)
    ensures v.JArr? ==> r == Some(|v.items|)
    ensures v.JObj? ==> r == Some(|v.fields.Keys|)
  {
    match v
    case JStr(s) => Some(|s|)
    case JArr(items) => Some(|items|)
    case JObj(fields) => Some(|fields|)
    case _ => None
  }

  /** Python `int(v)`: booleans count as 0 and 1, strings are parsed as
      `int` parses them, and null, lists and dictionaries raise. */
  function PyIntOf(v: Json): (r: Option<int>)
    ensures v.JInt? ==> r == Some(v.i)
    ensures v.JBool? ==> r == Some(if v.b then 1 else 0)
    ensures v.JStr? ==> r == PyInt(v.s)
    ensures v.JNull? || v.JArr? || v.JObj? ==> r.None?
  {
    match v
    case JBool(b) => Some(if b then 1 else 0)
    case JInt(i) => Some(i)
    case JStr(s) => PyInt(s)
    case _ => None
  }

  /** An HTTP reply: an error object with its status, or a success status
      with what the handler produced. */
  datatype Outcome<+T> = Fail(status: nat, error: string) | Done(status: nat, value: T)

  /** What every handler's `except Exception` answers; it also covers a body
      that is not a JSON object, on which `data.get` raises. */
  const ServerError := "An internal server error occurred"

  function Crash<T>(): Outcome<T> {
    Fail(500, ServerError)
  }

  /** Python's `repr` of a list of strings, as the f-string in the error
      message prints it. */
  function PyListRepr(items: seq<string>): string {
    "[" + Join(seq(|items|, i requires 0 <= i < |items| => "'" + items[i] + "'"), ", ") + "]"
  }

  const MissingCredentials := "Email and password are required"
  const InvalidEmailFormat := "Invalid email format"
  const ShortPassword := "Password must be at least 6 characters long"
  const MinPasswordLength := 6
  const EmailTaken := "Email already registered"
  const BadLogin := "Invalid email or password"
  const BadCandidateLogin := "Invalid credentials"

  // ---------------------------------------------------------------------
  // HR users: signup and login
  // ---------------------------------------------------------------------

  /** The users collection: email to password hash. */
  type Users = map<string, string>

  /** `signup`: presence, then the email pattern, then the password length,
      then uniqueness; only then is the hash stored. */
  function Signup(body: Json, users: Users, hash: string -> string): (r: Outcome<Users>)
    ensures !body.JObj? ==> r == Crash()
    ensures r == Fail(400, MissingCredentials) <==>
      body.JObj? && (!Given(body.fields, "email") || !Given(body.fields, "password"))
    ensures r == Fail(400, InvalidEmailFormat) <==>
      && body.JObj? && Given(body.fields, "email") && Given(body.fields, "password")
      && body.fields["email"].JStr? && !IsValidEmail(body.fields["email"].s)
    ensures r == Fail(400, ShortPassword) <==>
      && body.JObj? && Given(body.fields, "email") && Given(body.fields, "password")
      && body.fields["email"].JStr? && IsValidEmail(body.fields["email"].s)
      && Len(body.fields["password"]).Some? && Len(body.fields["password"]).value < MinPasswordLength
    ensures r == Fail(409, EmailTaken) <==>
      && body.JObj? && Given(body.fields, "email") && Given(body.fields, "password")
      && body.fields["email"].JStr? && IsValidEmail(body.fields["email"].s)
      && Len(body.fields["password"]).Some? && Len(body.fields["password"]).value >= MinPasswordLength
      && body.fields["email"].s in users
    ensures r.Done? <==>
      && body.JObj? && Given(body.fields, "email") && Given(body.fields, "password")
      && body.fields["email"].JStr? && IsValidEmail(body.fields["email"].s)
      && body.fields["password"].JStr? && |body.fields["password"].s| >= MinPasswordLength
      && body.fields["email"].s !in users
    ensures r.Done? ==>
      r.status == 201 && r.value == users[body.fields["email"].s := hash(body.fields["password"].s)]
    ensures r.Fail? ==>
      || r == Fail(400, MissingCredentials) || r == Fail(400, InvalidEmailFormat)
      || r == Fail(400, ShortPassword) || r == Fail(409, EmailTaken) || r == Crash()
  {
    if !body.JObj? then Crash()
    else
      var data := body.fields;
      if !Given(data, "email") || !Given(data, "password") then Fail(400, MissingCredentials)
      else
        var email := data["email"];
        var password := data["password"];
        if !email.JStr? then Crash()
        else if !IsValidEmail(email.s) then Fail(400, InvalidEmailFormat)
        else
          var n := Len(password);
          if n.None? then Crash()
          else if n.value < MinPasswordLength then Fail(400, ShortPassword)
          else if email.s in users then Fail(409, EmailTaken)
          else if !password.JStr? then Crash()
          else Done(201, users[email.s := hash(password.s)])
  }

  /** `login`: an unknown email and a wrong password get the same reply. */
  function Login(body: Json, users: Users, check: (string, string) -> bool): (r: Outcome<string>)
    ensures !body.JObj? ==> r == Crash()
    ensures r == Fail(400, MissingCredentials) <==>
      body.JObj? && (!Given(body.fields, "email") || !Given(body.fields, "password"))
    ensures r.Fail? && r.status == 401 ==> r.error == BadLogin
    ensures r == Fail(401, BadLogin) <==>
      && body.JObj? && Given(body.fields, "email") && Given(body.fields, "password")
      && var email := body.fields["email"];
         var password := body.fields["password"];
         || !(email.JStr? && email.s in users)
         || (password.JStr? && !check(password.s, users[email.s]))
    ensures r.Done? <==>
      && body.JObj? && Given(body.fields, "email") && Given(body.fields, "password")
      && var email := body.fields["email"];
         var password := body.fields["password"];
      && email.JStr? && email.s in users
      && password.JStr? && check(password.s, users[email.s])
    ensures r.Done? ==> r == Done(200, body.fields["email"].s)
    ensures r.Fail? ==> r == Fail(400, MissingCredentials) || r == Fail(401, BadLogin) || r == Crash()
  {
    if !body.JObj? then Crash()
    else
      var data := body.fields;
      if !Given(data, "email") || !Given(data, "password") then Fail(400, MissingCredentials)
      else
        var email := data["email"];
        var password := data["password"];
        if !(email.JStr? && email.s in users) then Fail(401, BadLogin)
        else if !password.JStr? then Crash()
        else if !check(password.s, users[email.s]) then Fail(401, BadLogin)
        else Done(200, email.s)
  }

  function Credentials(email: string, password: string): Json {
    JObj(map["email" := JStr(email), "password" := JStr(password)])
  }

  /** The length bound is inclusive: six characters are enough, five are
      not, for any well-formed address that is not yet registered. */
  lemma SixCharactersSuffice(email: string, password: string, users: Users, hash: string -> string)
    requires IsValidEmail(email) && email !in users
    requires |password| == MinPasswordLength || |password| == MinPasswordLength - 1
    ensures |password| == MinPasswordLength ==> Signup(Credentials(email, password), users, hash).Done?
    ensures |password| < MinPasswordLength ==>
      Signup(Credentials(email, password), users, hash) == Fail(400, ShortPassword)
  {
    SingleAt(email);
    CredentialsFields(email, password);
  }

  lemma CredentialsFields(email: string, password: string)
    requires email != "" && password != ""
    ensures var data := Credentials(email, password).fields;
      && Given(data, "email") && Given(data, "password")
      && data["email"] == JStr(email) && data["password"] == JStr(password)
  {
  }

  /** Signing up twice with the same email: the second attempt is refused. */
  lemma SignupTwiceConflicts(body: Json, users: Users, hash: string -> string)
    requires Signup(body, users, hash).Done?
    ensures Signup(body, Signup(body, users, hash).value, hash) == Fail(409, EmailTaken)
  {
  }

  /** Whoever signed up can log in with the same body, provided the check
      accepts a password against its own hash. */
  lemma SignupThenLogin(body: Json, users: Users, hash: string -> string, check: (string, string) -> bool)
    requires Signup(body, users, hash).Done?
    requires forall p :: check(p, hash(p))
    ensures Login(body, Signup(body, users, hash).value, check) == Done(200, body.fields["email"].s)
  {
  }

  // ---------------------------------------------------------------------
  // Candidates: students and their login
  // ---------------------------------------------------------------------

  /** A student as the response shows it: every stored field but the hash. */
  datatype StudentRecord = StudentRecord(hrEmail: Json, name: Json, email: Json, rollNo: Json, role: Json, status: string)

  datatype StoredStudent = StoredStudent(record: StudentRecord, password: string)

  /** What the candidate login reveals. */
  datatype CandidateView = CandidateView(name: Json, email: Json, role: Json, rollNo: Json, status: string)

  const StudentFields := ["name", "email", "rollNo", "role", "password"]
  const EligibleStatus := "Eligible"
  const DuplicateStudent := "A student with this email already exists"
  const StudentNeedsHr := "hrEmail is required to add a student"

  function MissingFields(keys: seq<string>): string {
    "Missing one of required fields: " + PyListRepr(keys)
  }

  /** The two 400 replies of a handler cannot be confused: they start with
      different letters. */
  lemma MissingFieldsIsNot(message: string, keys: seq<string>)
    requires |message| > 0 && message[0] != 'M'
    ensures message != MissingFields(keys)
  {
    assert MissingFields(keys)[0] == 'M';
  }

  /** `find_one({"email": v})` over the students, in insertion order. */
  function FindStudent(students: seq<StoredStudent>, email: Json): (r: Option<nat>)
    ensures r.Some? ==> r.value < |students| && students[r.value].record.email == email
    ensures r.Some? ==> forall j :: 0 <= j < r.value ==> students[j].record.email != email
    ensures r.None? <==> forall j :: 0 <= j < |students| ==> students[j].record.email != email
  {
    if students == [] then None
    else if students[0].record.email == email then Some(0)
    else
      var k := FindStudent(students[1..], email);
      if k.None? then None else Some(k.value + 1)
  }

  /** `create_student`: a student record plus the reply, which is that
      record. */
  function CreateStudent(body: Json, students: seq<StoredStudent>, hash: string -> string)
    : (r: Outcome<(seq<StoredStudent>, StudentRecord)>)
    ensures !body.JObj? ==> r == Crash()
    ensures r == Fail(400, StudentNeedsHr) <==>
      body.JObj? && !Given(body.fields, "hrEmail")
    ensures r == Fail(400, MissingFields(StudentFields)) <==>
      body.JObj? && Given(body.fields, "hrEmail") && !HasAll(body.fields, StudentFields)
    ensures r == Fail(409, DuplicateStudent) <==>
      && body.JObj? && Given(body.fields, "hrEmail") && HasAll(body.fields, StudentFields)
      && FindStudent(students, body.fields["email"]).Some?
    ensures r.Done? <==>
      && body.JObj? && Given(body.fields, "hrEmail") && HasAll(body.fields, StudentFields)
      && FindStudent(students, body.fields["email"]).None?
      && "password" in body.fields && body.fields["password"].JStr?
    ensures r.Done? ==>
      && body.JObj? && Given(body.fields, "hrEmail") && HasAll(body.fields, StudentFields)
      && r.status == 201 && StudentAdded(body.fields, students, hash, r.value)
    ensures r.Fail? ==>
      || r == Fail(400, StudentNeedsHr) || r == Fail(400, MissingFields(StudentFields))
      || r == Fail(409, DuplicateStudent) || r == Crash()
  {
    MissingFieldsIsNot(StudentNeedsHr, StudentFields);
    if !body.JObj? then Crash()
    else
      var data := body.fields;
      if !Given(data, "hrEmail") then Fail(400, StudentNeedsHr)
      else if !HasAll(data, StudentFields) then Fail(400, MissingFields(StudentFields))
      else
        StudentFieldsPresent(data);
        if FindStudent(students, data["email"]).Some? then Fail(409, DuplicateStudent)
        else if !data["password"].JStr? then Crash()
        else
          var record := StudentRecord(data["hrEmail"], data["name"], data["email"], data["rollNo"], data["role"], EligibleStatus);
          Done(201, (students + [StoredStudent(record, hash(data["password"].s))], record))
  }

  /** The store after `insert_one` and the record echoed back: the five
      fields and `hrEmail` as sent, the status "Eligible", and the hash of
      the password kept beside the record. */
  predicate StudentAdded(data: map<string, Json>, students: seq<StoredStudent>, hash: string -> string,
                         out: (seq<StoredStudent>, StudentRecord))
    requires "hrEmail" in data && HasAll(data, StudentFields)
  {
    StudentFieldsPresent(data);
    && data["password"].JStr?
    && out.1 == StudentRecord(data["hrEmail"], data["name"], data["email"], data["rollNo"], data["role"], EligibleStatus)
    && out.0 == students + [StoredStudent(out.1, hash(data["password"].s))]
  }

  lemma StudentFieldsPresent(data: map<string, Json>)
    requires HasAll(data, StudentFields)
    ensures "name" in data && "email" in data && "rollNo" in data && "role" in data && "password" in data
  {
    assert StudentFields[0] == "name" && StudentFields[1] == "email" && StudentFields[2] == "rollNo";
    assert StudentFields[3] == "role" && StudentFields[4] == "password";
  }

  /** Adding the same student twice: the second attempt is refused. */
  lemma {:induction false} CreateStudentTwiceConflicts(body: Json, students: seq<StoredStudent>, hash: string -> string)
    requires CreateStudent(body, students, hash).Done?
    ensures CreateStudent(body, CreateStudent(body, students, hash).value.0, hash) == Fail(409, DuplicateStudent)
  {
    var after := CreateStudent(body, students, hash).value.0;
    assert after[|students|].record.email == body.fields["email"];
  }

  /** `candidate_login`: the student is looked up by email only, and the
      reply leaves out the hash. */
  function CandidateLogin(body: Json, students: seq<StoredStudent>, check: (string, string) -> bool)
    : (r: Outcome<CandidateView>)
    ensures !body.JObj? ==> r == Crash()
    ensures r == Fail(400, MissingCredentials) <==>
      body.JObj? && (!Given(body.fields, "email") || !Given(body.fields, "password"))
    ensures r.Fail? && r.status == 401 ==> r.error == BadCandidateLogin
    ensures r == Fail(401, BadCandidateLogin) <==>
      && body.JObj? && Given(body.fields, "email") && Given(body.fields, "password")
      && var k := FindStudent(students, body.fields["email"]);
         var password := body.fields["password"];
         || k.None?
         || (password.JStr? && !check(password.s, students[k.value].password))
    ensures r.Done? <==>
      && body.JObj? && Given(body.fields, "email") && Given(body.fields, "password")
      && var k := FindStudent(students, body.fields["email"]);
         var password := body.fields["password"];
      && k.Some? && password.JStr? && check(password.s, students[k.value].password)
    ensures r.Done? ==>
      && var k := FindStudent(students, body.fields["email"]);
         var s := students[k.value];
      && k.Some? && r.status == 200
      && body.fields["password"].JStr? && check(body.fields["password"].s, s.password)
      && r.value == CandidateView(s.record.name, s.record.email, s.record.role, s.record.rollNo, s.record.status)
    ensures r.Fail? ==> r == Fail(400, MissingCredentials) || r == Fail(401, BadCandidateLogin) || r == Crash()
  {
    if !body.JObj? then Crash()
    else
      var data := body.fields;
      if !Given(data, "email") || !Given(data, "password") then Fail(400, MissingCredentials)
      else
        var k := FindStudent(students, data["email"]);
        var password := data["password"];
        if k.None? then Fail(401, BadCandidateLogin)
        else if !password.JStr? then Crash()
        else
          var s := students[k.value];
          if !check(password.s, s.password) then Fail(401, BadCandidateLogin)
          else Done(200, CandidateView(s.record.name, s.record.email, s.record.role, s.record.rollNo, s.record.status))
  }

  // ---------------------------------------------------------------------
  // Roles
  // ---------------------------------------------------------------------

  datatype Role = Role(
    hrEmail: Json, title: Json, description: Json, date: Json, duration: Json,
    maxStudents: int, seatsAvailable: int, package: Json,
    studentsCount: nat, status: string)

  const RoleFields := ["title", "description", "date", "maxStudents", "seatsAvailable", "package"]
  const DefaultDuration := JStr("60")
  const DraftStatus := "Draft"
  const RoleNeedsHr := "hrEmail is required to create a role"

  /** `create_role`: `hrEmail` must be truthy, the six fields need only be
      present (any value, null included), and the two counts go through
      `int`. */
  function CreateRole(body: Json, roles: seq<Role>): (r: Outcome<(seq<Role>, Role)>)
    ensures !body.JObj? ==> r == Crash()
    ensures r == Fail(400, RoleNeedsHr) <==>
      body.JObj? && !Given(body.fields, "hrEmail")
    ensures r == Fail(400, MissingFields(RoleFields)) <==>
      body.JObj? && Given(body.fields, "hrEmail") && !HasAll(body.fields, RoleFields)
    ensures r.Done? <==>
      body.JObj? && Given(body.fields, "hrEmail") && HasAll(body.fields, RoleFields) && CountsReadable(body.fields)
    ensures r.Done? ==> r.status == 201 && RoleAdded(body.fields, roles, r.value)
    ensures r.Fail? ==> r == Fail(400, RoleNeedsHr) || r == Fail(400, MissingFields(RoleFields)) || r == Crash()
  {
    MissingFieldsIsNot(RoleNeedsHr, RoleFields);
    if !body.JObj? then Crash()
    else
      var data := body.fields;
      if !Given(data, "hrEmail") then Fail(400, RoleNeedsHr)
      else if !HasAll(data, RoleFields) then Fail(400, MissingFields(RoleFields))
      else AddRole(data, roles)
  }

  /** `int` accepts both counts. */
  predicate CountsReadable(data: map<string, Json>) {
    && "maxStudents" in data && PyIntOf(data["maxStudents"]).Some?
    && "seatsAvailable" in data && PyIntOf(data["seatsAvailable"]).Some?
  }

  /** The part of `create_role` after validation: `int` on the two counts
      (a failure is the generic 500), then the insertion. */
  function AddRole(data: map<string, Json>, roles: seq<Role>): (r: Outcome<(seq<Role>, Role)>)
    requires "hrEmail" in data && HasAll(data, RoleFields)
    ensures r.Fail? ==> r == Crash()
    ensures r.Done? <==> CountsReadable(data)
    ensures r.Done? ==> r.status == 201 && RoleAdded(data, roles, r.value)
  {
    RoleFieldsPresent(data);
    var maxStudents := PyIntOf(data["maxStudents"]);
    var seats := PyIntOf(data["seatsAvailable"]);
    if maxStudents.None? || seats.None? then Crash()
    else
      var duration := if "duration" in data then data["duration"] else DefaultDuration;
      var role := Role(data["hrEmail"], data["title"], data["description"], data["date"], duration,
                       maxStudents.value, seats.value, data["package"], 0, DraftStatus);
      Done(201, (roles + [role], role))
  }

  /** The roles after `insert_one` and the role echoed back: the fields as
      sent, the two counts as `int` read them, duration "60" unless given,
      no students yet, and the status "Draft". */
  predicate RoleAdded(data: map<string, Json>, roles: seq<Role>, out: (seq<Role>, Role))
    requires "hrEmail" in data && HasAll(data, RoleFields)
  {
    RoleFieldsPresent(data);
    var role := out.1;
    && out.0 == roles + [role]
    && role.hrEmail == data["hrEmail"] && role.title == data["title"]
    && role.description == data["description"] && role.date == data["date"]
    && role.package == data["package"]
    && Some(role.maxStudents) == PyIntOf(data["maxStudents"])
    && Some(role.seatsAvailable) == PyIntOf(data["seatsAvailable"])
    && role.studentsCount == 0 && role.status == DraftStatus
    && role.duration == (if "duration" in data then data["duration"] else DefaultDuration)
  }

  lemma RoleFieldsPresent(data: map<string, Json>)
    requires HasAll(data, RoleFields)
    ensures "title" in data && "description" in data && "date" in data
    ensures "maxStudents" in data && "seatsAvailable" in data && "package" in data
  {
    assert RoleFields[0] == "title" && RoleFields[1] == "description" && RoleFields[2] == "date";
    assert RoleFields[3] == "maxStudents" && RoleFields[4] == "seatsAvailable" && RoleFields[5] == "package";
  }

  /** Counts sent as decimal text are read back exactly. */
  lemma RoleCountsFromText(body: Json, roles: seq<Role>, m: int, n: int)
    requires body.JObj? && Given(body.fields, "hrEmail") && HasAll(body.fields, RoleFields)
    requires Get(body.fields, "maxStudents") == Some(JStr(IntToString(m)))
    requires Get(body.fields, "seatsAvailable") == Some(JStr(IntToString(n)))
    ensures CreateRole(body, roles).Done?
    ensures CreateRole(body, roles).value.1.maxStudents == m
    ensures CreateRole(body, roles).value.1.seatsAvailable == n
  {
    CountsFromText(body.fields, m, n);
    RoleFieldsPresent(body.fields);
    var r := CreateRole(body, roles);
    assert r.Done? && RoleAdded(body.fields, roles, r.value);
  }

  lemma CountsFromText(data: map<string, Json>, m: int, n: int)
    requires Get(data, "maxStudents") == Some(JStr(IntToString(m)))
    requires Get(data, "seatsAvailable") == Some(JStr(IntToString(n)))
    ensures CountsReadable(data)
    ensures PyIntOf(data["maxStudents"]) == Some(m) && PyIntOf(data["seatsAvailable"]) == Some(n)
  {
    PyIntOfRendering(m);
    PyIntOfRendering(n);
  }

  // ---------------------------------------------------------------------
  // Quiz results
  // ---------------------------------------------------------------------

  datatype QuizResult = QuizResult(
    candidateId: Json, email: Json, rollNo: Json, role: Json, status: Json,
    score: int, percentage: real, totalQuestions: int, round: int)

  const CandidateFields := ["id", "email", "rollNo", "role", "status"]
  const MissingCandidate := "Missing required candidate data fields: id, email, rollNo, role, status"
  const MissingScores := "Missing required fields: score, percentage, total_questions, or round"

  /** Python `field in v` for the candidate value: key membership for a
      dictionary, substring for a string, element equality for a list; on a
      number or boolean the operator raises (None). */
  function In(field: string, v: Json): (r: Option<bool>)
    ensures r.None? <==> v.JNull? || v.JBool? || v.JInt?
  {
    match v
    case JObj(fields) => Some(field in fields)
    case JStr(s) => Some(Contains(s, field))
    case JArr(items) => Some(JStr(field) in items)
    case _ => None
  }

  /** `all(field in v for field in fields)` for a value on which `in`
      does not raise. */
  predicate AllIn(fields: seq<string>, v: Json)
    requires v.JObj? || v.JStr? || v.JArr?
  {
    forall i :: 0 <= i < |fields| ==> In(fields[i], v) == Some(true)
  }

  lemma AllInObject(fields: seq<string>, c: map<string, Json>)
    requires AllIn(fields, JObj(c))
    ensures HasAll(c, fields)
  {
    forall k | k in fields ensures k in c {
      var i :| 0 <= i < |fields| && fields[i] == k;
      assert In(fields[i], JObj(c)) == Some(true);
    }
  }

  lemma CandidateFieldsPresent(c: map<string, Json>)
    requires HasAll(c, CandidateFields)
    ensures "id" in c && "email" in c && "rollNo" in c && "role" in c && "status" in c
  {
    assert CandidateFields[0] == "id" && CandidateFields[1] == "email" && CandidateFields[2] == "rollNo";
    assert CandidateFields[3] == "role" && CandidateFields[4] == "status";
  }

  /** `submit_results`. Converting `percentage` with `float` is the
      parameter `toFloat`. */
  function SubmitResults(body: Json, results: seq<QuizResult>, toFloat: Json -> Option<real>)
    : (r: Outcome<(seq<QuizResult>, QuizResult)>)
    ensures !body.JObj? ==> r == Crash()
    ensures r == Fail(400, MissingCandidate) <==>
      && body.JObj? && var data := body.fields;
      || !Given(data, "candidate")
      || ((data["candidate"].JObj? || data["candidate"].JStr? || data["candidate"].JArr?) && !AllIn(CandidateFields, data["candidate"]))
    ensures r == Fail(400, MissingScores) <==>
      && body.JObj? && var data := body.fields;
      && Given(data, "candidate")
      && (data["candidate"].JObj? || data["candidate"].JStr? || data["candidate"].JArr?)
      && AllIn(CandidateFields, data["candidate"])
      && (IsNone(data, "score") || IsNone(data, "percentage") || IsNone(data, "total_questions") || IsNone(data, "round"))
    ensures r.Done? <==>
      && body.JObj? && var data := body.fields;
      && Given(data, "candidate") && data["candidate"].JObj? && AllIn(CandidateFields, data["candidate"])
      && !IsNone(data, "score") && !IsNone(data, "percentage") && !IsNone(data, "total_questions") && !IsNone(data, "round")
      && PyIntOf(data["score"]).Some? && toFloat(data["percentage"]).Some?
      && PyIntOf(data["total_questions"]).Some? && PyIntOf(data["round"]).Some?
    ensures r.Done? ==> body.JObj? && r.status == 201 && ResultStored(body.fields, results, toFloat, r.value)
    ensures r.Fail? ==> r == Fail(400, MissingCandidate) || r == Fail(400, MissingScores) || r == Crash()
  {
    if !body.JObj? then Crash()
    else
      var data := body.fields;
      if !Given(data, "candidate") then Fail(400, MissingCandidate)
      else
        var candidate := data["candidate"];
        if !(candidate.JObj? || candidate.JStr? || candidate.JArr?) then Crash()
        else if !AllIn(CandidateFields, candidate) then Fail(400, MissingCandidate)
        else if IsNone(data, "score") || IsNone(data, "percentage") || IsNone(data, "total_questions") || IsNone(data, "round") then
          Fail(400, MissingScores)
        else if !candidate.JObj? then Crash()
        else
          var score := PyIntOf(data["score"]);
          var percentage := toFloat(data["percentage"]);
          var total := PyIntOf(data["total_questions"]);
          var round := PyIntOf(data["round"]);
          if score.None? || percentage.None? || total.None? || round.None? then Crash()
          else
            var c := candidate.fields;
            AllInObject(CandidateFields, c);
            CandidateFieldsPresent(c);
            var result := QuizResult(c["id"], c["email"], c["rollNo"], c["role"], c["status"],
                                     score.value, percentage.value, total.value, round.value);
            Done(201, (results + [result], result))
  }

  /** The results after `insert_one` and the stored document: a dictionary
      candidate holding all five fields, whose values are copied, and the
      four scores as `int` and `float` convert them. */
  predicate ResultStored(data: map<string, Json>, results: seq<QuizResult>, toFloat: Json -> Option<real>,
                         out: (seq<QuizResult>, QuizResult))
  {
    var q := out.1;
    && "candidate" in data && data["candidate"].JObj?
    && var c := data["candidate"].fields;
    && HasAll(c, CandidateFields)
    && out.0 == results + [q]
    && Get(c, "id") == Some(q.candidateId) && Get(c, "email") == Some(q.email)
    && Get(c, "rollNo") == Some(q.rollNo) && Get(c, "role") == Some(q.role) && Get(c, "status") == Some(q.status)
    && "score" in data && PyIntOf(data["score"]) == Some(q.score)
    && "percentage" in data && toFloat(data["percentage"]) == Some(q.percentage)
    && "total_questions" in data && PyIntOf(data["total_questions"]) == Some(q.totalQuestions)
    && "round" in data && PyIntOf(data["round"]) == Some(q.round)
  }

  /** A string candidate passes the membership test when it spells every
      field name, then fails on `candidate_data["id"]`: only a dictionary
      candidate is ever stored. */
  lemma StringCandidateCrashes(body: Json, results: seq<QuizResult>, toFloat: Json -> Option<real>)
    requires body.JObj? && Given(body.fields, "candidate") && body.fields["candidate"].JStr?
    ensures SubmitResults(body, results, toFloat).status != 201
  {
  }

  // ---------------------------------------------------------------------
  // Random aptitude questions
  // ---------------------------------------------------------------------

  const DefaultQuestionCount := 5

  /** `request.args.get('count', default=5, type=int)`: a value `int`
      cannot convert falls back to the default. */
  function CountParam(count: Option<string>): (r: int)
    ensures count.None? ==> r == DefaultQuestionCount
    ensures count.Some? && PyInt(count.value).Some? ==> r == PyInt(count.value).value
    ensures count.Some? && PyInt(count.value).None? ==> r == DefaultQuestionCount
  {
    if count.None? then DefaultQuestionCount
    else
      var n := PyInt(count.value);
      if n.None? then DefaultQuestionCount else n.value
  }

  /** `get_random_questions`: the size handed to `$sample`. */
  function GetRandomQuestions(total: nat, count: Option<string>): (r: Outcome<int>)
    ensures total == 0 <==> r == Fail(404, "No questions available in the aptitude collection")
    ensures r.Done? <==> total > 0
    ensures r.Done? ==> r.status == 200 && r.value <= total && r.value <= CountParam(count)
    ensures r.Done? ==> r.value == total || r.value == CountParam(count)
  {
    if total == 0 then Fail(404, "No questions available in the aptitude collection")
    else Done(200, Min(CountParam(count), total))
  }

  function Min(a: int, b: int): int {
    if a <= b then a else b
  }

  /** The size asked for is the count written in the query, capped by the
      collection size, and 5 when no usable count is given. */
  lemma RandomQuestionCount(total: nat, n: int)
    requires total > 0
    ensures GetRandomQuestions(total, Some(IntToString(n))) == Done(200, Min(n, total))
    ensures GetRandomQuestions(total, None) == Done(200, Min(5, total))
  {
    PyIntOfRendering(n);
  }
}
