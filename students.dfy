/** The student roster and student login (backend/controllers/studentController.js
    over backend/models/Student.js). Password hashing (the schema's
    pre-save bcrypt hook) and `matchPassword` are library calls: the model
    takes them as the parameters `hash` and `matches`, and `generateToken`
    as `token`. A request field that is missing and one that is the empty
    string behave alike in every handler here, so both are "". */
module Students {
  import opened Base

  datatype Status = Active | Inactive

  function StatusName(s: Status): string
  {
    match s
    case Active => "Active"
    case Inactive => "Inactive"
  }

  /** The schema's `enum` on `status`. */
  function ParseStatus(s: string): (r: Option<Status>)
    ensures r.Some? ==> StatusName(r.value) == s
    ensures forall t: Status :: s == StatusName(t) ==> r == Some(t)
  {
    if s == "Active" then Some(Active)
    else if s == "Inactive" then Some(Inactive)
    else None
  }

  /** A stored password: what the pre-save hook produced. */
  type Hash = string

  /** A Student document. `email` and `phone` are optional; the schema marks
      the others required. The store's invariant keeps only the ids and
      roll numbers unique. Creating a student with a required field missing
      fails validation, and an edit leaves a field it is sent empty as it
      was. */
  datatype StudentDoc = StudentDoc(
    id: Id,
    name: string,
    rollNo: string,
    roomNo: string,
    email: Option<string>,
    phone: Option<string>,
    password: Hash,
    status: Status)

  function IdOf(s: StudentDoc): Id { s.id }

  function RollOf(s: StudentDoc): string { s.rollNo }

  /** What the roster handlers send back for a student: every field except
      the password, which this type does not have. */
  datatype PublicStudent = PublicStudent(
    id: Id,
    name: string,
    rollNo: string,
    roomNo: string,
    email: Option<string>,
    phone: Option<string>,
    status: Status)

  function Public(s: StudentDoc): (r: PublicStudent)
    ensures r.id == s.id && r.rollNo == s.rollNo && r.status == s.status
    ensures r.name == s.name && r.roomNo == s.roomNo && r.email == s.email && r.phone == s.phone
  {
    PublicStudent(s.id, s.name, s.rollNo, s.roomNo, s.email, s.phone, s.status)
  }

  /** getStudents: every student, in collection order, without passwords. */
  function Roster(docs: seq<StudentDoc>): (r: seq<PublicStudent>)
    ensures |r| == |docs|
    ensures forall i :: 0 <= i < |docs| ==> r[i] == Public(docs[i])
    ensures forall i :: 0 <= i < |docs| ==> r[i].id == docs[i].id && r[i].rollNo == docs[i].rollNo
  {
    Map(docs, Public)
  }

  // ---------------------------------------------------------------------------
  // createStudent
  // ---------------------------------------------------------------------------

  datatype CreateBody = CreateBody(name: string, rollNo: string, roomNo: string,
                                   email: Option<string>, phone: Option<string>, password: string)

  const MIN_PASSWORD := 4
  const SHORT_PASSWORD := "Password must be at least 4 characters"
  const DUPLICATE_ROLL := "Student with this Roll No already exists"
  /** The schema's error message is Mongoose's own text; the model names it only. */
  const VALIDATION_FAILED := "Student validation failed"

  /** createStudent: a password of at least four characters, a roll number
      no student has, then the schema's required fields; the new student is
      Active and stores the hash of the password. */
  function CreateOutcome(docs: seq<StudentDoc>, body: CreateBody, id: Id, hash: string -> Hash): (r: Outcome<StudentDoc>)
    ensures !r.Unhandled?
    ensures r == Fail(400, SHORT_PASSWORD) <==> JsLength(body.password) < MIN_PASSWORD
    ensures r == Fail(400, DUPLICATE_ROLL) <==>
      JsLength(body.password) >= MIN_PASSWORD && body.rollNo in KeySet(docs, RollOf)
    ensures r.Done? <==>
      JsLength(body.password) >= MIN_PASSWORD && body.rollNo !in KeySet(docs, RollOf)
      && body.name != "" && body.rollNo != "" && body.roomNo != ""
    ensures r.Done? ==>
      r.value.id == id && r.value.rollNo == body.rollNo && r.value.name == body.name
      && r.value.roomNo == body.roomNo && r.value.email == body.email && r.value.phone == body.phone
      && r.value.password == hash(body.password) && r.value.status == Active
    ensures r.Fail? && r.code == 500 ==> r.message == VALIDATION_FAILED
  {
    if body.password == "" || JsLength(body.password) < MIN_PASSWORD then Fail(400, SHORT_PASSWORD)
    else if KeyIndex(docs, RollOf, body.rollNo) >= 0 then Fail(400, DUPLICATE_ROLL)
    else if body.name == "" || body.rollNo == "" || body.roomNo == "" then Fail(500, VALIDATION_FAILED)
    else Done(StudentDoc(id, body.name, body.rollNo, body.roomNo, body.email, body.phone, hash(body.password), Active))
  }

  // ---------------------------------------------------------------------------
  // updateStudent
  // ---------------------------------------------------------------------------

  datatype UpdateBody = UpdateBody(name: string, roomNo: string, email: string, phone: string,
                                   status: string, password: string)

  const NOT_FOUND := "Student not found"
  const UPDATE_ERROR := "Error updating student"

  /** `field || student.field` */
  function OrElse(sent: string, current: string): string
  {
    if sent != "" then sent else current
  }

  function OrElseOptional(sent: string, current: Option<string>): Option<string>
  {
    if sent != "" then Some(sent) else current
  }

  /** updateStudent's assignments and save: a field sent empty keeps its
      value, the password is replaced only by one of at least four
      characters, and the roll number never changes. None: the status sent
      is not in the enum, so the save fails. */
  function Updated(s: StudentDoc, body: UpdateBody, hash: string -> Hash): (r: Option<StudentDoc>)
    ensures r.None? <==> body.status != "" && ParseStatus(body.status).None?
    ensures r.Some? ==>
      var u := r.value;
      u.id == s.id && u.rollNo == s.rollNo
      && (body.name == "" ==> u.name == s.name) && (body.name != "" ==> u.name == body.name)
      && (body.roomNo == "" ==> u.roomNo == s.roomNo) && (body.roomNo != "" ==> u.roomNo == body.roomNo)
      && (body.email == "" ==> u.email == s.email) && (body.email != "" ==> u.email == Some(body.email))
      && (body.phone == "" ==> u.phone == s.phone) && (body.phone != "" ==> u.phone == Some(body.phone))
      && (body.status == "" ==> u.status == s.status) && (body.status != "" ==> StatusName(u.status) == body.status)
      && (JsLength(body.password) < MIN_PASSWORD ==> u.password == s.password)
      && (JsLength(body.password) >= MIN_PASSWORD ==> u.password == hash(body.password))
  {
    var status := if body.status != "" then ParseStatus(body.status) else Some(s.status);
    if status.None? then None
    else
      Some(s.(name := OrElse(body.name, s.name),
              roomNo := OrElse(body.roomNo, s.roomNo),
              email := OrElseOptional(body.email, s.email),
              phone := OrElseOptional(body.phone, s.phone),
              status := status.value,
              password := if body.password != "" && JsLength(body.password) >= MIN_PASSWORD then hash(body.password) else s.password))
  }

  function UpdateOutcome(docs: seq<StudentDoc>, sid: Id, body: UpdateBody, hash: string -> Hash): (r: Outcome<StudentDoc>)
    ensures !r.Unhandled?
    ensures r == Fail(404, NOT_FOUND) <==> sid !in KeySet(docs, IdOf)
    ensures r.Done? <==> sid in KeySet(docs, IdOf) && Updated(docs[KeyIndex(docs, IdOf, sid)], body, hash).Some?
    ensures r.Done? ==> r.value == Updated(docs[KeyIndex(docs, IdOf, sid)], body, hash).value
    ensures r.Fail? && r.code != 404 ==> r == Fail(500, UPDATE_ERROR)
  {
    var i := KeyIndex(docs, IdOf, sid);
    if i < 0 then Fail(404, NOT_FOUND)
    else
      match Updated(docs[i], body, hash)
      case None => Fail(500, UPDATE_ERROR)
      case Some(u) => Done(u)
  }

  /** An update with a password shorter than four characters keeps the
      stored password: the student's old password still logs in. */
  lemma ShortPasswordIgnored(docs: seq<StudentDoc>, sid: Id, body: UpdateBody, hash: string -> Hash,
                             matches: (string, Hash) -> bool, tokenOf: Id -> string, login: LoginBody)
    requires JsLength(body.password) < MIN_PASSWORD
    requires UpdateOutcome(docs, sid, body, hash).Done?
    requires KeysUnique(docs, IdOf) && KeysUnique(docs, RollOf)
    requires LoginOutcome(docs, login, matches, tokenOf).Done? && LoginOutcome(docs, login, matches, tokenOf).value.id == sid
    requires body.status != "Inactive"
    ensures var i := KeyIndex(docs, IdOf, sid);
      LoginOutcome(docs[i := UpdateOutcome(docs, sid, body, hash).value], login, matches, tokenOf).Done?
  {
    var i := KeyIndex(docs, IdOf, sid);
    var u := UpdateOutcome(docs, sid, body, hash).value;
    var j := KeyIndex(docs, RollOf, Trim(login.rollNo));
    assert docs[j].id == sid;
    KeyIndexUnique(docs, IdOf, j);
    assert j == i;
    var d := docs[i := u];
    ReplaceKeysUnique(docs, RollOf, i, u);
    KeyIndexUnique(d, RollOf, i);
    if body.status != "" {
      assert ParseStatus(body.status) == Some(Active);
    }
  }

  // ---------------------------------------------------------------------------
  // deleteStudent
  // ---------------------------------------------------------------------------

  const REMOVED := "Student removed successfully"
  const DELETE_ERROR := "Error deleting student"

  function DeleteOutcome(docs: seq<StudentDoc>, sid: Id): (r: Outcome<string>)
    ensures r == Fail(404, NOT_FOUND) <==> sid !in KeySet(docs, IdOf)
    ensures r == Done(REMOVED) <==> sid in KeySet(docs, IdOf)
  {
    if KeyIndex(docs, IdOf, sid) < 0 then Fail(404, NOT_FOUND) else Done(REMOVED)
  }

  // ---------------------------------------------------------------------------
  // loginStudent
  // ---------------------------------------------------------------------------

  datatype LoginBody = LoginBody(rollNo: string, password: string)

  /** A successful login: the student (no phone, no password), the role and a token. */
  datatype LoginReply = LoginReply(id: Id, name: string, rollNo: string, roomNo: string,
                                   email: Option<string>, status: Status, role: string, token: string)

  const MISSING_CREDENTIALS := "Please provide Roll No and password"
  const INVALID_LOGIN := "Invalid Roll No or password"
  const INACTIVE := "Your account is inactive. Contact admin."

  /** loginStudent: both fields present, a student with the trimmed roll
      number, not Inactive, and a matching password; the inactive check
      comes before the password check, and an unknown roll number and a
      wrong password get the same answer. */
  function LoginOutcome(docs: seq<StudentDoc>, body: LoginBody, matches: (string, Hash) -> bool, tokenOf: Id -> string)
    : (r: Outcome<LoginReply>)
    ensures !r.Unhandled?
    ensures r == Fail(400, MISSING_CREDENTIALS) <==> body.rollNo == "" || body.password == ""
    ensures var i := KeyIndex(docs, RollOf, Trim(body.rollNo));
      (r == Fail(401, INACTIVE) <==> body.rollNo != "" && body.password != "" && i >= 0 && docs[i].status == Inactive)
      && (r.Done? <==> body.rollNo != "" && body.password != "" && i >= 0 && docs[i].status == Active
                       && matches(body.password, docs[i].password))
      && (r == Fail(401, INVALID_LOGIN) <==>
            body.rollNo != "" && body.password != ""
            && (i < 0 || (docs[i].status == Active && !matches(body.password, docs[i].password))))
      && (r.Done? ==> r.value.id == docs[i].id && r.value.rollNo == Trim(body.rollNo)
                      && r.value.token == tokenOf(docs[i].id) && r.value.role == "student")
  {
    if body.rollNo == "" || body.password == "" then Fail(400, MISSING_CREDENTIALS)
    else
      var i := KeyIndex(docs, RollOf, Trim(body.rollNo));
      if i < 0 then Fail(401, INVALID_LOGIN)
      else
        var s := docs[i];
        if s.status == Inactive then Fail(401, INACTIVE)
        else if matches(body.password, s.password) then
          Done(LoginReply(s.id, s.name, s.rollNo, s.roomNo, s.email, s.status, "student", tokenOf(s.id)))
        else Fail(401, INVALID_LOGIN)
  }

  /** A student created with a roll number that has surrounding white space
      can never log in: the lookup uses the trimmed roll number and finds
      only a student whose roll number is already trimmed. */
  lemma UntrimmedRollNeverLogsIn(docs: seq<StudentDoc>, body: LoginBody, matches: (string, Hash) -> bool,
                                 tokenOf: Id -> string, k: nat)
    requires KeysUnique(docs, IdOf) && k < |docs| && Trim(docs[k].rollNo) != docs[k].rollNo
    ensures var r := LoginOutcome(docs, body, matches, tokenOf);
      r.Done? ==> r.value.id != docs[k].id
  {
    if LoginOutcome(docs, body, matches, tokenOf).Done? {
      var i := LoginFindsTrimmed(docs, body, matches, tokenOf);
      assert i != k;
    }
  }

  /** The student a login finds has a trimmed roll number. */
  lemma LoginFindsTrimmed(docs: seq<StudentDoc>, body: LoginBody, matches: (string, Hash) -> bool,
                          tokenOf: Id -> string) returns (i: nat)
    requires LoginOutcome(docs, body, matches, tokenOf).Done?
    ensures i < |docs| && LoginOutcome(docs, body, matches, tokenOf).value.id == docs[i].id
    ensures Trim(docs[i].rollNo) == docs[i].rollNo
  {
    i := KeyIndex(docs, RollOf, Trim(body.rollNo));
    TrimmedIsFixed(docs[i].rollNo, body.rollNo);
  }

  /** Create, then log in with the same roll number and password: when the
      password check accepts the hash of the password it was made from, a
      token for the new student is issued. */
  lemma LoginAfterCreate(docs: seq<StudentDoc>, body: CreateBody, id: Id, hash: string -> Hash,
                         matches: (string, Hash) -> bool, tokenOf: Id -> string)
    requires KeysUnique(docs, RollOf)
    requires CreateOutcome(docs, body, id, hash).Done? && Trim(body.rollNo) == body.rollNo
    requires matches(body.password, hash(body.password))
    ensures var d := docs + [CreateOutcome(docs, body, id, hash).value];
      var r := LoginOutcome(d, LoginBody(body.rollNo, body.password), matches, tokenOf);
      r.Done? && r.value.id == id && r.value.token == tokenOf(id)
  {
    var s := CreateOutcome(docs, body, id, hash).value;
    AppendKeysUnique(docs, RollOf, s);
    KeyIndexUnique(docs + [s], RollOf, |docs|);
  }

  /** The Student collection, with `_id` and `rollNo` unique. */
  class StudentStore {
    var docs: seq<StudentDoc>

    ghost predicate Valid()
      reads this
    {
      KeysUnique(docs, IdOf) && KeysUnique(docs, RollOf)
    }

    constructor ()
      ensures Valid() && docs == []
    {
      docs := [];
    }

    /** createStudent; `id` is the new document's fresh id. */
    method Create(body: CreateBody, id: Id, hash: string -> Hash) returns (out: Outcome<PublicStudent>)
      requires Valid() && id !in KeySet(docs, IdOf)
      modifies this
      ensures Valid()
      ensures out.Done? <==> CreateOutcome(old(docs), body, id, hash).Done?
      ensures out.Done? ==> out.value == Public(CreateOutcome(old(docs), body, id, hash).value)
                            && docs == old(docs) + [CreateOutcome(old(docs), body, id, hash).value]
      ensures out.Fail? ==> var r := CreateOutcome(old(docs), body, id, hash);
        r.Fail? && out.code == r.code && out.message == r.message && docs == old(docs)
    {
      var r := CreateOutcome(docs, body, id, hash);
      match r
      case Done(s) =>
        AppendKeysUnique(docs, IdOf, s);
        AppendKeysUnique(docs, RollOf, s);
        docs := docs + [s];
        out := Done(Public(s));
      case Fail(code, message) =>
        out := Fail(code, message);
      case Unhandled =>
        out := Unhandled;
    }

    /** updateStudent. */
    method Update(sid: Id, body: UpdateBody, hash: string -> Hash) returns (out: Outcome<PublicStudent>)
      requires Valid()
      modifies this
      ensures Valid()
      ensures out.Done? <==> UpdateOutcome(old(docs), sid, body, hash).Done?
      ensures out.Done? ==>
        var i := KeyIndex(old(docs), IdOf, sid);
        var u := UpdateOutcome(old(docs), sid, body, hash).value;
        out.value == Public(u) && docs == old(docs)[i := u]
      ensures out.Fail? ==> var r := UpdateOutcome(old(docs), sid, body, hash);
        r.Fail? && out.code == r.code && out.message == r.message && docs == old(docs)
    {
      var r := UpdateOutcome(docs, sid, body, hash);
      match r
      case Done(u) =>
        var i := KeyIndex(docs, IdOf, sid);
        ReplaceKeysUnique(docs, IdOf, i, u);
        ReplaceKeysUnique(docs, RollOf, i, u);
        docs := docs[i := u];
        out := Done(Public(u));
      case Fail(code, message) =>
        out := Fail(code, message);
      case Unhandled =>
        out := Unhandled;
    }

    /** deleteStudent: removes exactly the student with that id. */
    method Delete(sid: Id) returns (out: Outcome<string>)
      requires Valid()
      modifies this
      ensures Valid()
      ensures out == DeleteOutcome(old(docs), sid)
      ensures docs == RemoveKey(old(docs), IdOf, sid)
      ensures out.Done? ==> var i := KeyIndex(old(docs), IdOf, sid); docs == old(docs)[..i] + old(docs)[i + 1..]
      ensures out.Fail? ==> docs == old(docs)
    {
      out := DeleteOutcome(docs, sid);
      RemoveKeyExactly(docs, IdOf, sid);
      RemoveKeyStaysUnique(docs, sid);
      docs := RemoveKey(docs, IdOf, sid);
    }
  }

  /** Removing by id keeps roll numbers unique. */
  lemma RemoveKeyStaysUnique(docs: seq<StudentDoc>, sid: Id)
    requires KeysUnique(docs, IdOf) && KeysUnique(docs, RollOf)
    ensures KeysUnique(RemoveKey(docs, IdOf, sid), RollOf)
  {
    RemoveKeyExactly(docs, IdOf, sid);
    var i := KeyIndex(docs, IdOf, sid);
    if i >= 0 {
      RemoveAtKeysUnique(docs, RollOf, i);
    }
  }
}
