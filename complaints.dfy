/** The complaint workflow (backend/controllers/complaintController.js, with
    the enums and bounds of backend/models/Complaint.js): submission with its
    admin-bell side effect, the admin's status/response update with its
    personal notification to the student, the listings and the status
    statistics. */
module Complaints {
  import opened Base
  import opened Sorting
  import NotificationModel
  import Notifications
  import AdminNotifications

  datatype ComplaintType = Complaint | Suggestion

  datatype Category = Food | Cleanliness | Maintenance | Other

  datatype Status = Pending | InProgress | Resolved

  function TypeName(t: ComplaintType): string
  {
    match t
    case Complaint => "Complaint"
    case Suggestion => "Suggestion"
  }

  function CategoryName(c: Category): string
  {
    match c
    case Food => "Food"
    case Cleanliness => "Cleanliness"
    case Maintenance => "Maintenance"
    case Other => "Other"
  }

  function StatusName(s: Status): string
  {
    match s
    case Pending => "Pending"
    case InProgress => "In Progress"
    case Resolved => "Resolved"
  }

  /** The enum validators of the schema. */
  function ParseType(s: string): (r: Option<ComplaintType>)
    ensures r.Some? ==> TypeName(r.value) == s
    ensures forall t :: TypeName(t) == s ==> r == Some(t)
  {
    if s == "Complaint" then Some(Complaint) else if s == "Suggestion" then Some(Suggestion) else None
  }

  function ParseCategory(s: string): (r: Option<Category>)
    ensures r.Some? ==> CategoryName(r.value) == s
    ensures forall c :: CategoryName(c) == s ==> r == Some(c)
  {
    if s == "Food" then Some(Food)
    else if s == "Cleanliness" then Some(Cleanliness)
    else if s == "Maintenance" then Some(Maintenance)
    else if s == "Other" then Some(Other)
    else None
  }

  function ParseStatus(s: string): (r: Option<Status>)
    ensures r.Some? ==> StatusName(r.value) == s
    ensures forall st :: StatusName(st) == s ==> r == Some(st)
  {
    if s == "Pending" then Some(Pending)
    else if s == "In Progress" then Some(InProgress)
    else if s == "Resolved" then Some(Resolved)
    else None
  }

  const MIN_DESCRIPTION: nat := 10
  const MAX_DESCRIPTION: nat := 1000
  /** The number of description characters the admin bell shows. */
  const PREVIEW: nat := 120

  /** A stored complaint or suggestion. */
  datatype ComplaintDoc = ComplaintDoc(
    id: Id,
    student: Id,
    kind: ComplaintType,
    category: Category,
    description: string,
    status: Status,
    adminResponse: string,
    createdAt: int)

  function ComplaintId(c: ComplaintDoc): Id { c.id }

  /** A string with no white space at either end, and not empty. */
  predicate Trimmed(s: string)
  {
    s != [] && !IsSpace(s[0]) && !IsSpace(s[|s| - 1])
  }

  // ---------------------------------------------------------------------------
  // Submission
  // ---------------------------------------------------------------------------

  /** The body of a submission. A missing field is "". */
  datatype SubmitRequest = SubmitRequest(kind: string, category: string, description: string)

  /** submitComplaint's checks and the document it creates: category and
      description required (400), the trimmed description at least 10
      UTF-16 code units (400, so exactly 10 passes); the enums and the 1000
      unit bound are the schema's (500). The type defaults to
      Complaint, the status to Pending and the response to "". */
  function NewComplaint(req: SubmitRequest, sid: Id, id: Id, now: int): (r: Outcome<ComplaintDoc>)
    ensures !r.Unhandled?
    ensures r.Fail? && r.code == 400 <==>
      req.category == "" || req.description == "" || JsLength(Trim(req.description)) < MIN_DESCRIPTION
    ensures r.Fail? && r.code == 500 <==>
      req.category != "" && req.description != "" && JsLength(Trim(req.description)) >= MIN_DESCRIPTION
      && (ParseType(if req.kind == "" then "Complaint" else req.kind).None?
          || ParseCategory(req.category).None? || JsLength(Trim(req.description)) > MAX_DESCRIPTION)
    ensures r.Done? ==>
      var c := r.value;
      c.id == id && c.student == sid && c.createdAt == now
      && TypeName(c.kind) == (if req.kind == "" then "Complaint" else req.kind)
      && CategoryName(c.category) == req.category
      && c.description == Trim(req.description) && Trimmed(c.description)
      && MIN_DESCRIPTION <= JsLength(c.description) <= MAX_DESCRIPTION
      && c.status == Pending && c.adminResponse == ""
  {
    if req.category == "" || req.description == "" then
      Fail(400, "Category and description are required")
    else if JsLength(Trim(req.description)) < MIN_DESCRIPTION then
      Fail(400, "Description must be at least 10 characters")
    else
      match (ParseType(if req.kind == "" then "Complaint" else req.kind), ParseCategory(req.category))
      case (Some(kind), Some(category)) =>
        if JsLength(Trim(req.description)) > MAX_DESCRIPTION then Fail(500, "Error submitting complaint")
        else Done(ComplaintDoc(id, sid, kind, category, Trim(req.description), Pending, "", now))
      case _ => Fail(500, "Error submitting complaint")
  }

  /** Lengths are UTF-16 code units: a description of five characters from
      outside the Basic Multilingual Plane (five emoji, say) is ten units
      long, so it is accepted. */
  lemma AstralDescriptionAccepted(req: SubmitRequest, sid: Id, id: Id, now: int)
    requires req.kind == "" && req.category == "Food"
    requires |req.description| == 5 && forall i :: 0 <= i < 5 ==> IsAstral(req.description[i])
    ensures NewComplaint(req, sid, id, now).Done?
  {
    var d := req.description;
    assert !IsSpace(d[0]) && !IsSpace(d[4]);
    TrimNoop(d);
    JsLengthAstral(d);
    assert ParseCategory(req.category) == Some(Food);
    assert ParseType("Complaint") == Some(Complaint);
  }

  /** The admin bell's title: `New <type> from <student name>`. */
  function NoteTitle(c: ComplaintDoc, studentName: string): string
  {
    "New " + TypeName(c.kind) + " from " + studentName
  }

  /** The admin bell's body: the category in brackets and the first 120
      code units of the description, followed by "..." exactly when the
      description is longer; it always fits the admin schema's body bound. */
  function NoteBody(c: ComplaintDoc): (r: string)
    ensures JsLength(r) <= 2 * (14 + 3) + PREVIEW <= AdminNotifications.MAX_BODY
  {
    var head := "[" + CategoryName(c.category) + "] ";
    var preview := JsPrefix(c.description, PREVIEW);
    var tail := if JsLength(c.description) > PREVIEW then "..." else "";
    assert |head| <= 14;
    JsLengthConcat(head, preview);
    JsLengthConcat(head + preview, tail);
    head + preview + tail
  }

  function NoteKind(c: ComplaintDoc): (k: AdminNotifications.NoteType)
    ensures k == AdminNotifications.SuggestionNote <==> c.kind == Suggestion
    ensures k == AdminNotifications.ComplaintNote <==> c.kind.Complaint?
  {
    if c.kind == Suggestion then AdminNotifications.SuggestionNote else AdminNotifications.ComplaintNote
  }

  /** The AdminNotification a stored complaint raises, or None when its
      schema rejects it. */
  function NoteFor(c: ComplaintDoc, title: string, noteId: Id, now: int): (r: Option<AdminNotifications.AdminNote>)
    ensures r.Some? ==> r.value.refId == Some(c.id) && r.value.refModel == Some("Complaint")
                        && r.value.kind == NoteKind(c) && !r.value.read && r.value.title == Trim(title)
                        && r.value.id == noteId && r.value.createdAt == now
  {
    AdminNotifications.Create(noteId, title, NoteBody(c), NoteKind(c), Some(c.id), Some("Complaint"), now)
  }

  /** The body is the category tag and the whole description when that
      fits in the preview, and otherwise the longest prefix that fits
      followed by "...". */
  lemma NoteBodyShape(c: ComplaintDoc)
    ensures JsLength(c.description) <= PREVIEW ==> NoteBody(c) == "[" + CategoryName(c.category) + "] " + c.description
    ensures JsLength(c.description) > PREVIEW ==>
      NoteBody(c) == "[" + CategoryName(c.category) + "] " + JsPrefix(c.description, PREVIEW) + "..."
  {
  }

  /** The body of a stored complaint's note starts with "[" and ends with
      "." or with the description's last character, so the `trim` setter
      leaves it as it is. */
  lemma NoteBodyUntrimmed(c: ComplaintDoc)
    requires Trimmed(c.description)
    ensures NoteBody(c) != [] && Trim(NoteBody(c)) == NoteBody(c)
  {
    var body := NoteBody(c);
    var head := "[" + CategoryName(c.category) + "] ";
    var d := c.description;
    NoteBodyShape(c);
    if JsLength(d) > PREVIEW {
      assert body == head + JsPrefix(d, PREVIEW) + "...";
      assert body[|body| - 1] == '.';
    } else {
      assert body == head + d;
      assert body[|body| - 1] == d[|d| - 1];
    }
    assert body[0] == '[';
    TrimNoop(body);
  }

  /** For a stored complaint and a title that is not blank and fits in 150
      characters, the admin notification is created and carries the
      preview unchanged. */
  lemma NoteForStored(c: ComplaintDoc, title: string, noteId: Id, now: int)
    requires Trimmed(c.description)
    requires Trim(title) != [] && JsLength(Trim(title)) <= AdminNotifications.MAX_TITLE
    ensures NoteFor(c, title, noteId, now).Some?
    ensures NoteFor(c, title, noteId, now).value.body == NoteBody(c)
  {
    NoteBodyUntrimmed(c);
    AdminNotifications.CreateStored(noteId, title, NoteBody(c), NoteKind(c), Some(c.id), Some("Complaint"), now);
    NoteForBody(c, title, noteId, now);
  }

  lemma NoteForBody(c: ComplaintDoc, title: string, noteId: Id, now: int)
    requires Trim(NoteBody(c)) == NoteBody(c)
    ensures NoteFor(c, title, noteId, now).Some? ==> NoteFor(c, title, noteId, now).value.body == NoteBody(c)
  {
  }

  /** A title over 150 characters (a long student name) makes the admin
      notification fail its schema, whatever the complaint. */
  lemma NoteForLongTitle(c: ComplaintDoc, title: string, noteId: Id, now: int)
    requires JsLength(Trim(title)) > AdminNotifications.MAX_TITLE
    ensures NoteFor(c, title, noteId, now).None?
  {
  }

  /** The admin note's title is never blank: it starts with "New". */
  lemma NoteTitleNotBlank(c: ComplaintDoc, studentName: string)
    ensures Trim(NoteTitle(c, studentName)) != []
  {
    var title := NoteTitle(c, studentName);
    assert title[0] == 'N';
    assert !AllSpace(title);
  }

  // ---------------------------------------------------------------------------
  // The admin's update
  // ---------------------------------------------------------------------------

  /** The `adminResponse` field of an update body: absent (`undefined`), a
      JSON value that is not a string (`null`, a number, a boolean, an array
      or an object: calling `trim` on it throws), or a string. */
  datatype ResponseField = Absent | NotText | Text(text: string)

  /** The body of an update: `status` ("" when falsy) and `adminResponse`. */
  datatype UpdateRequest = UpdateRequest(status: string, adminResponse: ResponseField)

  /** updateComplaint's assignments: the status changes only when a truthy
      status is sent, the response is set (trimmed) whenever the field is
      present, even when it is empty. None: the handler throws before the
      complaint is saved, because the response is not a string, or the save
      fails, because the status is not in the enum. */
  function Responded(c: ComplaintDoc, req: UpdateRequest): (r: Option<ComplaintDoc>)
    ensures r.None? <==> (req.status != "" && ParseStatus(req.status).None?) || req.adminResponse.NotText?
    ensures r.Some? ==>
      r.value.status == (if req.status != "" then ParseStatus(req.status).value else c.status)
      && r.value.adminResponse == (if req.adminResponse.Text? then Trim(req.adminResponse.text) else c.adminResponse)
      && r.value == c.(status := r.value.status, adminResponse := r.value.adminResponse)
  {
    if (req.status != "" && ParseStatus(req.status).None?) || req.adminResponse.NotText? then None
    else
      Some(c.(status := if req.status != "" then ParseStatus(req.status).value else c.status,
              adminResponse := if req.adminResponse.Text? then Trim(req.adminResponse.text) else c.adminResponse))
  }

  /** The response text that triggers a notification: a string that is not
      blank. */
  function ResponseText(req: UpdateRequest): (r: Option<string>)
    ensures r.Some? <==> req.adminResponse.Text? && !AllSpace(req.adminResponse.text)
    ensures r.Some? ==> r.value == Trim(req.adminResponse.text) && Trimmed(r.value)
  {
    if req.adminResponse.Text? && Trim(req.adminResponse.text) != "" then Some(Trim(req.adminResponse.text))
    else None
  }

  /** The notification's title: "Response updated on your <type>" when the
      complaint already had a response, else "Admin responded to your <type>". */
  function ResponseTitle(hadResponse: bool, kind: ComplaintType): string
  {
    (if hadResponse then "Response updated on your " else "Admin responded to your ") + TypeName(kind)
  }

  /** `status || complaint.status.toLowerCase()`: the status as sent when one
      was sent, else the current status in lower case. */
  function StatusWord(req: UpdateRequest, c: ComplaintDoc): string
  {
    if req.status != "" then req.status else Lower(StatusName(c.status))
  }

  /** The notification's message: what was answered on which complaint, and
      the quoted response. */
  function ResponseMessage(c: ComplaintDoc, req: UpdateRequest, text: string): string
  {
    "Your " + Lower(TypeName(c.kind)) + " (" + CategoryName(c.category) + ") has been "
    + StatusWord(req, c) + ".\n\n\"" + text + "\""
  }

  /** `Notification.create` of a Response notification for one student,
      never expiring: the `trim` setters run, then the schema's checks
      decide whether it is stored. */
  function ResponseDoc(student: Id, title: string, message: string, nid: Id, now: int)
    : (r: Option<NotificationModel.Notification>)
    ensures r.Some? <==> Trim(title) != [] && JsLength(Trim(title)) <= NotificationModel.MAX_TITLE
                         && Trim(message) != [] && JsLength(Trim(message)) <= NotificationModel.MAX_MESSAGE
    ensures r.Some? ==>
      var n := r.value;
      n.kind == NotificationModel.Response && n.student == Some(student) && n.expiresAt.None?
      && n.readBy == [] && n.id == nid && n.title == Trim(title) && n.message == Trim(message)
  {
    NotificationModel.Save(NotificationModel.Notification(
      nid, Trim(title), Trim(message), NotificationModel.Response, None, Some(student), None, [], now))
  }

  /** The personal notification an update creates, given the complaint before
      and after it: None when the update has no non-blank response;
      Some(None) when the notification fails its schema; else the Response
      notification addressed to the complaint's student. */
  function ResponseNotification(before: ComplaintDoc, after: ComplaintDoc, req: UpdateRequest, nid: Id, now: int)
    : (r: Option<Option<NotificationModel.Notification>>)
    ensures r.Some? <==> ResponseText(req).Some?
  {
    match ResponseText(req)
    case None => None
    case Some(text) =>
      Some(ResponseDoc(after.student, ResponseTitle(before.adminResponse != "", after.kind),
                       ResponseMessage(after, req, text), nid, now))
  }

  /** Both titles start and end with a letter, so `trim` keeps them. */
  lemma ResponseTitleUntrimmed(hadResponse: bool, kind: ComplaintType)
    ensures TrimStart(ResponseTitle(hadResponse, kind)) == ResponseTitle(hadResponse, kind)
    ensures TrimEnd(ResponseTitle(hadResponse, kind)) == ResponseTitle(hadResponse, kind)
    ensures Trim(ResponseTitle(hadResponse, kind)) == ResponseTitle(hadResponse, kind)
  {
    var prefix := if hadResponse then "Response updated on your " else "Admin responded to your ";
    var name := TypeName(kind);
    assert !IsSpace(prefix[0]);
    assert !IsSpace(name[|name| - 1]);
    TrimKeepsConcat(prefix, name);
  }

  /** Both titles fit the notification schema's title bound. */
  lemma ResponseTitleFits(hadResponse: bool, kind: ComplaintType)
    ensures ResponseTitle(hadResponse, kind) != []
    ensures JsLength(ResponseTitle(hadResponse, kind)) <= NotificationModel.MAX_TITLE
  {
    assert |TypeName(kind)| <= 10;
  }

  /** The title says "Response updated" exactly when the complaint already
      had a response. */
  lemma ResponseTitleTellsUpdate(hadResponse: bool, kind: ComplaintType)
    ensures HasPrefix(ResponseTitle(hadResponse, kind), "Response updated") <==> hadResponse
  {
    var title := ResponseTitle(hadResponse, kind);
    if hadResponse {
      assert title[..16] == "Response updated";
    } else {
      assert title[0] == 'A';
    }
  }

  /** The message starts with "Your" and ends with a quote: never empty,
      and `trim` keeps it. */
  lemma ResponseMessageUntrimmed(c: ComplaintDoc, req: UpdateRequest, text: string)
    ensures ResponseMessage(c, req, text) != [] && Trim(ResponseMessage(c, req, text)) == ResponseMessage(c, req, text)
    ensures TrimStart(ResponseMessage(c, req, text)) == ResponseMessage(c, req, text)
    ensures TrimEnd(ResponseMessage(c, req, text)) == ResponseMessage(c, req, text)
  {
    var message := ResponseMessage(c, req, text);
    assert message[0] == 'Y';
    assert message[|message| - 1] == '"';
    TrimNoop(message);
  }

  /** The title always fits, so the notification is stored exactly when
      the message fits in 1000 characters, and then holds the texts as
      built. */
  lemma ResponseNotificationStored(before: ComplaintDoc, after: ComplaintDoc, req: UpdateRequest, nid: Id, now: int)
    requires ResponseText(req).Some?
    ensures var title := ResponseTitle(before.adminResponse != "", after.kind);
      var message := ResponseMessage(after, req, ResponseText(req).value);
      var r := ResponseNotification(before, after, req, nid, now).value;
      (r.Some? <==> JsLength(message) <= NotificationModel.MAX_MESSAGE)
      && (r.Some? ==> r.value.title == title && r.value.message == message && r.value.student == Some(after.student))
  {
    ResponseNotificationIs(before, after, req, nid, now);
    ResponseBuiltStored(after.student, before.adminResponse != "", after, req, ResponseText(req).value, nid, now);
    ResponseTitleKept(after.student, before.adminResponse != "", after.kind,
                      ResponseMessage(after, req, ResponseText(req).value), nid, now);
    ResponseMessageKept(after.student, ResponseTitle(before.adminResponse != "", after.kind), after, req,
                        ResponseText(req).value, nid, now);
  }

  /** With a response to announce, the notification is the Response document
      built from the title and message above. */
  lemma ResponseNotificationIs(before: ComplaintDoc, after: ComplaintDoc, req: UpdateRequest, nid: Id, now: int)
    requires ResponseText(req).Some?
    ensures ResponseNotification(before, after, req, nid, now)
      == Some(ResponseDoc(after.student, ResponseTitle(before.adminResponse != "", after.kind),
                          ResponseMessage(after, req, ResponseText(req).value), nid, now))
  {
  }

  /** The built message is kept by `trim` and never empty, so the document
      is stored exactly when it fits. */
  lemma ResponseBuiltStored(student: Id, hadResponse: bool, c: ComplaintDoc, req: UpdateRequest, text: string, nid: Id, now: int)
    ensures ResponseDoc(student, ResponseTitle(hadResponse, c.kind), ResponseMessage(c, req, text), nid, now).Some?
            <==> JsLength(ResponseMessage(c, req, text)) <= NotificationModel.MAX_MESSAGE
  {
    ResponseMessageUntrimmed(c, req, text);
    ResponseDocStored(student, hadResponse, c.kind, ResponseMessage(c, req, text), nid, now);
  }

  /** A stored response notification holds the title as built, whatever
      the message. */
  lemma ResponseTitleKept(student: Id, hadResponse: bool, kind: ComplaintType, message: string, nid: Id, now: int)
    ensures var r := ResponseDoc(student, ResponseTitle(hadResponse, kind), message, nid, now);
      r.Some? ==> r.value.title == ResponseTitle(hadResponse, kind) && r.value.student == Some(student)
  {
    ResponseTitleUntrimmed(hadResponse, kind);
  }

  /** A stored response notification holds the message as built, whatever
      the title. */
  lemma ResponseMessageKept(student: Id, title: string, c: ComplaintDoc, req: UpdateRequest, text: string, nid: Id, now: int)
    ensures var r := ResponseDoc(student, title, ResponseMessage(c, req, text), nid, now);
      r.Some? ==> r.value.message == ResponseMessage(c, req, text)
  {
    ResponseMessageUntrimmed(c, req, text);
  }

  /** The title always fits, so for a trimmed, non-empty message the
      notification is stored exactly when the message fits. */
  lemma ResponseDocStored(student: Id, hadResponse: bool, kind: ComplaintType, message: string, nid: Id, now: int)
    requires TrimStart(message) == message && TrimEnd(message) == message && message != []
    ensures var r := ResponseDoc(student, ResponseTitle(hadResponse, kind), message, nid, now);
      (r.Some? <==> JsLength(message) <= NotificationModel.MAX_MESSAGE)
      && (r.Some? ==> r.value.title == ResponseTitle(hadResponse, kind) && r.value.message == message
                      && r.value.student == Some(student))
  {
    ResponseTitleFits(hadResponse, kind);
    ResponseTitleUntrimmed(hadResponse, kind);
    TrimmedDocStored(student, ResponseTitle(hadResponse, kind), message, nid, now);
  }

  /** Fields that `trim` keeps, a non-empty title within its bound: the
      notification is stored exactly when the message fits. */
  lemma TrimmedDocStored(student: Id, title: string, message: string, nid: Id, now: int)
    requires TrimStart(title) == title && TrimEnd(title) == title
    requires title != [] && JsLength(title) <= NotificationModel.MAX_TITLE
    requires TrimStart(message) == message && TrimEnd(message) == message && message != []
    ensures var r := ResponseDoc(student, title, message, nid, now);
      (r.Some? <==> JsLength(message) <= NotificationModel.MAX_MESSAGE)
      && (r.Some? ==> r.value.title == title && r.value.message == message && r.value.student == Some(student))
  {
    var n := NotificationModel.Notification(nid, title, message, NotificationModel.Response, None, Some(student), None, [], now);
    assert ResponseDoc(student, title, message, nid, now) == NotificationModel.Save(n);
  }


  /** A status-only update (no response field, or a blank one) creates no
      notification, whatever the status. */
  lemma StatusOnlyUpdateIsSilent(before: ComplaintDoc, after: ComplaintDoc, status: string, nid: Id, now: int)
    ensures ResponseNotification(before, after, UpdateRequest(status, Absent), nid, now).None?
    ensures ResponseNotification(before, after, UpdateRequest(status, Text("  ")), nid, now).None?
  {
    assert AllSpace("  ");
  }

  // ---------------------------------------------------------------------------
  // Listings and statistics
  // ---------------------------------------------------------------------------

  function NewestFirst(c: ComplaintDoc): real
  {
    -(c.createdAt as real)
  }

  /** The query string of getAllComplaints; "" when a filter is not given. */
  datatype ComplaintQuery = ComplaintQuery(status: string, category: string, kind: string)

  predicate MatchesQuery(c: ComplaintDoc, q: ComplaintQuery)
  {
    (q.status == "" || StatusName(c.status) == q.status)
    && (q.category == "" || CategoryName(c.category) == q.category)
    && (q.kind == "" || TypeName(c.kind) == q.kind)
  }

  function Matches(q: ComplaintQuery): ComplaintDoc -> bool
  {
    (c: ComplaintDoc) => MatchesQuery(c, q)
  }

  /** getAllComplaints: every copy of the complaints matching every filter
      that was given and nothing else, newest first. */
  function AllComplaints(docs: seq<ComplaintDoc>, q: ComplaintQuery): (r: seq<ComplaintDoc>)
    ensures forall c :: c in r <==> c in docs && MatchesQuery(c, q)
    ensures forall c :: multiset(r)[c] == if MatchesQuery(c, q) then multiset(docs)[c] else 0
    ensures forall i, j :: 0 <= i < j < |r| ==> r[i].createdAt >= r[j].createdAt
  {
    FilterMultiset(docs, Matches(q));
    var r := SortBy(Filter(docs, Matches(q)), NewestFirst);
    SortByMembers(Filter(docs, Matches(q)), NewestFirst);
    assert forall i, j :: 0 <= i < j < |r| ==> NewestFirst(r[i]) <= NewestFirst(r[j]);
    r
  }

  /** With no filter given, the admin sees every complaint exactly once. */
  lemma AllComplaintsUnfiltered(docs: seq<ComplaintDoc>)
    ensures multiset(AllComplaints(docs, ComplaintQuery("", "", ""))) == multiset(docs)
  {
    FilterKeepsAll(docs, Matches(ComplaintQuery("", "", "")));
  }

  /** getMyComplaints: every copy of the student's complaints and nothing
      else, newest first. */
  function MyComplaints(docs: seq<ComplaintDoc>, sid: Id): (r: seq<ComplaintDoc>)
    ensures forall c :: c in r <==> c in docs && c.student == sid
    ensures forall c :: multiset(r)[c] == if c.student == sid then multiset(docs)[c] else 0
    ensures forall i, j :: 0 <= i < j < |r| ==> r[i].createdAt >= r[j].createdAt
  {
    var mine := Filter(docs, (c: ComplaintDoc) => c.student == sid);
    FilterMultiset(docs, (c: ComplaintDoc) => c.student == sid);
    var r := SortBy(mine, NewestFirst);
    SortByMembers(mine, NewestFirst);
    assert forall i, j :: 0 <= i < j < |r| ==> NewestFirst(r[i]) <= NewestFirst(r[j]);
    r
  }

  /** One `$group` result: a status and how many complaints have it. */
  datatype StatusCount = StatusCount(status: Status, count: nat)

  function HasStatus(s: Status): ComplaintDoc -> bool
  {
    (c: ComplaintDoc) => c.status == s
  }

  /** The number of complaints with status `s`. */
  function Tally(docs: seq<ComplaintDoc>, s: Status): nat
  {
    Count(docs, HasStatus(s))
  }

  /** The groups for the statuses `ss` that occur in `docs`, in the order of
      `ss`, each with the number of complaints that have its status. */
  function GroupsOver(docs: seq<ComplaintDoc>, ss: seq<Status>): seq<StatusCount>
  {
    if ss == [] then []
    else if Tally(docs, ss[0]) == 0 then GroupsOver(docs, ss[1..])
    else [StatusCount(ss[0], Tally(docs, ss[0]))] + GroupsOver(docs, ss[1..])
  }

  /** Every group has a status from `ss` and the number of complaints with it,
      which is not 0. */
  lemma {:induction false} GroupsOverCounts(docs: seq<ComplaintDoc>, ss: seq<Status>)
    ensures forall g :: g in GroupsOver(docs, ss) ==> g.status in ss && g.count == Tally(docs, g.status) && g.count > 0
  {
    if ss != [] {
      GroupsOverCounts(docs, ss[1..]);
      var r := GroupsOver(docs, ss);
      var rest := GroupsOver(docs, ss[1..]);
      assert forall x :: x in ss[1..] ==> x in ss;
      if Tally(docs, ss[0]) > 0 {
        assert r == [StatusCount(ss[0], Tally(docs, ss[0]))] + rest;
        assert ss[0] in ss;
      }
    }
  }

  /** Every status of `ss` that some complaint has gets a group. */
  lemma {:induction false} GroupsOverComplete(docs: seq<ComplaintDoc>, ss: seq<Status>, s: Status)
    requires s in ss && Tally(docs, s) > 0
    ensures exists i :: 0 <= i < |GroupsOver(docs, ss)| && GroupsOver(docs, ss)[i].status == s
  {
    var r := GroupsOver(docs, ss);
    if s == ss[0] {
      assert r[0].status == s;
    } else {
      assert s in ss[1..];
      GroupsOverComplete(docs, ss[1..], s);
      var rest := GroupsOver(docs, ss[1..]);
      var j :| 0 <= j < |rest| && rest[j].status == s;
      if Tally(docs, ss[0]) > 0 {
        assert r[j + 1] == rest[j];
      } else {
        assert r[j] == rest[j];
      }
    }
  }

  /** Over distinct statuses, the groups have distinct statuses. */
  lemma {:induction false} GroupsOverDistinct(docs: seq<ComplaintDoc>, ss: seq<Status>)
    requires NoDuplicates(ss)
    ensures DistinctStatuses(GroupsOver(docs, ss))
  {
    if ss != [] {
      NoDuplicatesTail(ss);
      GroupsOverDistinct(docs, ss[1..]);
      if Tally(docs, ss[0]) > 0 {
        GroupsOverCounts(docs, ss[1..]);
        DistinctCons(StatusCount(ss[0], Tally(docs, ss[0])), GroupsOver(docs, ss[1..]));
      }
    }
  }

  /** A group whose status no later group has keeps the statuses distinct. */
  lemma DistinctCons(g: StatusCount, rest: seq<StatusCount>)
    requires DistinctStatuses(rest) && forall h :: h in rest ==> h.status != g.status
    ensures DistinctStatuses([g] + rest)
  {
    var r := [g] + rest;
    forall i, j | 0 <= i < j < |r| ensures r[i].status != r[j].status {
      assert r[j] == rest[j - 1];
      if i > 0 {
        assert r[i] == rest[i - 1];
      }
    }
  }

  const STATUSES: seq<Status> := [Pending, InProgress, Resolved]

  lemma EveryStatusListed(s: Status)
    ensures s in STATUSES
  {
    if s == Pending {
      assert STATUSES[0] == s;
    } else if s == InProgress {
      assert STATUSES[1] == s;
    } else {
      assert STATUSES[2] == s;
    }
  }

  /** The aggregation `$group: { _id: '$status', count: { $sum: 1 } }`: one
      entry per status that occurs. The database gives no order; the model
      lists them in enum order. */
  function GroupByStatus(docs: seq<ComplaintDoc>): (r: seq<StatusCount>)
    ensures forall g :: g in r ==> g.count == Tally(docs, g.status) && g.count > 0
    ensures DistinctStatuses(r)
    ensures forall s :: Tally(docs, s) > 0 ==> exists i :: 0 <= i < |r| && r[i].status == s
  {
    GroupsOverCounts(docs, STATUSES);
    GroupsOverDistinct(docs, STATUSES);
    StatusGroupsComplete(docs);
    GroupsOver(docs, STATUSES)
  }

  /** Every status some complaint has gets a group over the three statuses. */
  lemma StatusGroupsComplete(docs: seq<ComplaintDoc>)
    ensures forall s :: Tally(docs, s) > 0 ==>
      exists i :: 0 <= i < |GroupsOver(docs, STATUSES)| && GroupsOver(docs, STATUSES)[i].status == s
  {
    forall s | Tally(docs, s) > 0
      ensures exists i :: 0 <= i < |GroupsOver(docs, STATUSES)| && GroupsOver(docs, STATUSES)[i].status == s
    {
      EveryStatusListed(s);
      GroupsOverComplete(docs, STATUSES, s);
    }
  }

  /** The answer of getComplaintStats. */
  datatype Stats = Stats(pending: nat, inProgress: nat, resolved: nat, total: nat)

  /** `result[s._id] = s.count` over the groups: the count of the last group
      with that status, or 0 when there is none. */
  function CountFor(groups: seq<StatusCount>, s: Status): nat
  {
    if groups == [] then 0
    else if groups[|groups| - 1].status == s then groups[|groups| - 1].count
    else CountFor(groups[..|groups| - 1], s)
  }

  /** `result.total += s.count` over the groups. */
  function TotalCount(groups: seq<StatusCount>): nat
  {
    if groups == [] then 0 else TotalCount(groups[..|groups| - 1]) + groups[|groups| - 1].count
  }

  /** getComplaintStats: a fixed-shape object whose per-status counts start
      at 0, filled in by a loop over the aggregation's groups. */
  method ComplaintStats(groups: seq<StatusCount>) returns (r: Stats)
    ensures r.pending == CountFor(groups, Pending)
    ensures r.inProgress == CountFor(groups, InProgress)
    ensures r.resolved == CountFor(groups, Resolved)
    ensures r.total == TotalCount(groups)
  {
    r := Stats(0, 0, 0, 0);
    for i := 0 to |groups|
      invariant r.pending == CountFor(groups[..i], Pending)
      invariant r.inProgress == CountFor(groups[..i], InProgress)
      invariant r.resolved == CountFor(groups[..i], Resolved)
      invariant r.total == TotalCount(groups[..i])
    {
      var g := groups[i];
      assert groups[..i + 1][..i] == groups[..i];
      match g.status {
        case Pending => r := r.(pending := g.count);
        case InProgress => r := r.(inProgress := g.count);
        case Resolved => r := r.(resolved := g.count);
      }
      r := r.(total := r.total + g.count);
    }
    assert groups[..|groups|] == groups;
  }

  predicate DistinctStatuses(g: seq<StatusCount>)
  {
    forall i, j :: 0 <= i < j < |g| ==> g[i].status != g[j].status
  }

  /** A status no group has counts 0. */
  lemma {:induction false} CountForAbsent(g: seq<StatusCount>, s: Status)
    requires forall i :: 0 <= i < |g| ==> g[i].status != s
    ensures CountFor(g, s) == 0
    decreases |g|
  {
    if g != [] {
      CountForAbsent(g[..|g| - 1], s);
    }
  }

  /** With distinct statuses the last-wins lookup finds the one group. */
  lemma {:induction false} CountForPresent(g: seq<StatusCount>, i: nat)
    requires DistinctStatuses(g) && i < |g|
    ensures CountFor(g, g[i].status) == g[i].count
    decreases |g|
  {
    if i < |g| - 1 {
      CountForPresent(g[..|g| - 1], i);
    }
  }

  /** With distinct statuses the running total is the sum of the three
      lookups. */
  lemma {:induction false} TotalIsSumOfCounts(g: seq<StatusCount>)
    requires DistinctStatuses(g)
    ensures TotalCount(g) == CountFor(g, Pending) + CountFor(g, InProgress) + CountFor(g, Resolved)
    decreases |g|
  {
    if g != [] {
      var h := g[..|g| - 1];
      TotalIsSumOfCounts(h);
      CountForAbsent(h, g[|g| - 1].status);
    }
  }

  /** Over the aggregation of a collection, every status count is the number
      of complaints with that status (0 when there are none), and the total
      is the size of the collection and the sum of the three counts. */
  lemma StatsOfCollection(docs: seq<ComplaintDoc>)
    ensures var g := GroupByStatus(docs);
      (forall s :: CountFor(g, s) == Tally(docs, s))
      && TotalCount(g) == CountFor(g, Pending) + CountFor(g, InProgress) + CountFor(g, Resolved)
      && TotalCount(g) == |docs|
  {
    var g := GroupByStatus(docs);
    forall s ensures CountFor(g, s) == Tally(docs, s) {
      CountIsTally(docs, s);
    }
    TotalIsSumOfCounts(g);
    StatusesSplit(docs);
  }

  /** The aggregation's count for a status is the number of complaints with it. */
  lemma CountIsTally(docs: seq<ComplaintDoc>, s: Status)
    ensures CountFor(GroupByStatus(docs), s) == Tally(docs, s)
  {
    var g := GroupByStatus(docs);
    GroupsOverCounts(docs, STATUSES);
    if Tally(docs, s) > 0 {
      GroupsOverDistinct(docs, STATUSES);
      EveryStatusListed(s);
      GroupsOverComplete(docs, STATUSES, s);
      var i :| 0 <= i < |g| && g[i].status == s;
      CountForPresent(g, i);
    } else {
      forall i | 0 <= i < |g| ensures g[i].status != s {
        assert Tally(docs, g[i].status) > 0;
      }
      CountForAbsent(g, s);
    }
  }

  /** Every complaint has exactly one of the three statuses. */
  lemma {:induction false} StatusesSplit(docs: seq<ComplaintDoc>)
    ensures Count(docs, HasStatus(Pending)) + Count(docs, HasStatus(InProgress))
            + Count(docs, HasStatus(Resolved)) == |docs|
  {
    if docs != [] {
      StatusesSplit(docs[1..]);
    }
  }

  // ---------------------------------------------------------------------------
  // The collection
  // ---------------------------------------------------------------------------

  /** The complaints collection. */
  class ComplaintStore {
    var docs: seq<ComplaintDoc>

    ghost predicate Valid()
      reads this
    {
      KeysUnique(docs, ComplaintId)
    }

    constructor ()
      ensures Valid() && docs == []
    {
      docs := [];
    }

    /** submitComplaint: a rejected submission changes nothing; an accepted
        one stores the complaint and then the admin notification. When the
        notification fails its schema the complaint stays stored and the
        answer is 500. `id` and `noteId` are the fresh ids the database
        assigns; `studentName` is the requester's name from the roster. */
    method Submit(req: SubmitRequest, sid: Id, studentName: string, id: Id, noteId: Id, now: int,
                  mailbox: AdminNotifications.AdminMailbox) returns (out: Outcome<ComplaintDoc>)
      requires Valid() && mailbox.Valid()
      requires id !in KeySet(docs, ComplaintId) && noteId !in KeySet(mailbox.docs, AdminNotifications.NoteId)
      modifies this, mailbox
      ensures Valid() && mailbox.Valid()
      ensures var c := NewComplaint(req, sid, id, now);
        if c.Fail? then out == c && docs == old(docs) && mailbox.docs == old(mailbox.docs)
        else
          docs == old(docs) + [c.value]
          && match NoteFor(c.value, NoteTitle(c.value, studentName), noteId, now)
             case None => out == Fail(500, "Error submitting complaint") && mailbox.docs == old(mailbox.docs)
             case Some(n) => out == Done(c.value) && mailbox.docs == old(mailbox.docs) + [n]
    {
      var c := NewComplaint(req, sid, id, now);
      if c.Fail? {
        return c;
      }
      Record(c.value);
      var note := NoteFor(c.value, NoteTitle(c.value, studentName), noteId, now);
      if note.None? {
        return Fail(500, "Error submitting complaint");
      }
      mailbox.Add(note.value);
      out := Done(c.value);
    }

    /** `Complaint.create`: stores a complaint whose id is fresh. */
    method Record(c: ComplaintDoc)
      requires Valid() && c.id !in KeySet(docs, ComplaintId)
      modifies this
      ensures Valid() && docs == old(docs) + [c]
    {
      AppendKeysUnique(docs, ComplaintId, c);
      docs := docs + [c];
    }

    /** updateComplaint: 404 for an unknown id; 500 with nothing changed
        when the response is not a string, the status is outside the enum or
        the complaint's student no longer exists (`populate` leaves the
        required `student` path null, so the save fails); otherwise the
        complaint is saved, and then a non-blank response creates the
        personal notification. When that notification fails its schema the
        complaint stays updated and the answer is 500. `studentFound` says
        whether `populate` found the complaint's student; `nid` is the
        notification's fresh id. */
    method Update(id: Id, req: UpdateRequest, studentFound: bool, nid: Id, now: int,
                  notes: Notifications.NotificationStore) returns (out: Outcome<ComplaintDoc>)
      requires Valid() && notes.Valid() && nid !in Notifications.Ids(notes.docs)
      modifies this, notes
      ensures Valid() && notes.Valid()
      ensures id !in KeySet(old(docs), ComplaintId) ==>
        out == Fail(404, "Complaint not found") && docs == old(docs) && notes.docs == old(notes.docs)
      ensures id in KeySet(old(docs), ComplaintId) ==>
        var i := KeyIndex(old(docs), ComplaintId, id);
        var before := old(docs)[i];
        if Responded(before, req).None? || !studentFound then
          out == Fail(500, "Error updating complaint") && docs == old(docs) && notes.docs == old(notes.docs)
        else
          var after := Responded(before, req).value;
          docs == old(docs)[i := after]
          && match ResponseNotification(before, after, req, nid, now)
             case None => out == Done(after) && notes.docs == old(notes.docs)
             case Some(None) => out == Fail(500, "Error updating complaint") && notes.docs == old(notes.docs)
             case Some(Some(n)) => out == Done(after) && notes.docs == old(notes.docs) + [n]
    {
      var i := KeyIndex(docs, ComplaintId, id);
      if i < 0 {
        return Fail(404, "Complaint not found");
      }
      var c := docs[i];
      var before := c;
      if req.status != "" {
        var s := ParseStatus(req.status);
        if s.None? {
          return Fail(500, "Error updating complaint");
        }
        c := c.(status := s.value);
      }
      match req.adminResponse {
        case NotText =>
          return Fail(500, "Error updating complaint");
        case Text(text) =>
          c := c.(adminResponse := Trim(text));
        case Absent =>
      }
      if !studentFound {
        return Fail(500, "Error updating complaint");
      }
      assert Responded(before, req) == Some(c);
      ReplaceKeysUnique(docs, ComplaintId, i, c);
      docs := docs[i := c];
      var note := ResponseNotification(before, c, req, nid, now);
      if note.Some? {
        if note.value.None? {
          return Fail(500, "Error updating complaint");
        }
        notes.Add(note.value.value);
      }
      out := Done(c);
    }
  }
}
