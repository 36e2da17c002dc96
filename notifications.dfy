/** The notification handlers (backend/controllers/notificationController.js):
    the admin's create, update, delete and listing, the student's feed and
    unread count, and the read marks. The collection is a store object whose
    methods change it; the queries are functions of its contents. */
module Notifications {
  import opened Base
  import opened Sorting
  import opened NotificationModel

  /** A date field of a request body: absent (`undefined`), present but falsy
      (`null`, `""`), or a date (milliseconds). */
  datatype DateField = Absent | Falsy | Date(t: int)

  /** The body of a create or update request. A missing string field is "". */
  datatype NotificationRequest = NotificationRequest(
    title: string,
    message: string,
    kind: string,
    expiresAt: DateField)

  function IdOf(n: Notification): Id { n.id }

  function Ids(docs: seq<Notification>): set<Id>
  {
    KeySet(docs, IdOf)
  }

  /** What the collection keeps true: ids are unique and every `readBy` is a
      set (it only ever grows through `$addToSet`). */
  predicate WellFormed(docs: seq<Notification>)
  {
    KeysUnique(docs, IdOf) && forall i :: 0 <= i < |docs| ==> NoDuplicates(docs[i].readBy)
  }

  /** `findById`: the position of the document with that id, or -1. */
  function IndexOf(docs: seq<Notification>, id: Id): (i: int)
    ensures -1 <= i < |docs|
    ensures i >= 0 ==> docs[i].id == id
    ensures i == -1 <==> id !in Ids(docs)
  {
    KeyIndex(docs, IdOf, id)
  }

  // ---------------------------------------------------------------------------
  // Admin: create and update
  // ---------------------------------------------------------------------------

  /** createNotification: title and message must be truthy (else 400); the
      stored title and message are trimmed, the type defaults to Info, the
      expiry is kept only when truthy, and the document is a broadcast nobody
      has read. The schema's enum, required and maxlength checks surface as 500. */
  function CreateOutcome(req: NotificationRequest, admin: Id, id: Id, now: int): (r: Outcome<Notification>)
    ensures !r.Unhandled?
    ensures r.Fail? && r.code == 400 <==> req.title == "" || req.message == ""
    ensures r.Fail? && r.code == 500 <==>
      req.title != "" && req.message != ""
      && (ParseType(if req.kind == "" then "Info" else req.kind).None?
          || Trim(req.title) == "" || JsLength(Trim(req.title)) > MAX_TITLE
          || Trim(req.message) == "" || JsLength(Trim(req.message)) > MAX_MESSAGE)
    ensures r.Done? ==>
      var n := r.value;
      n.id == id && n.title == Trim(req.title) && n.message == Trim(req.message)
      && TypeName(n.kind) == (if req.kind == "" then "Info" else req.kind)
      && n.createdBy == Some(admin) && n.student == None && n.readBy == []
      && n.expiresAt == (if req.expiresAt.Date? then Some(req.expiresAt.t) else None)
      && n.createdAt == now && SchemaValid(n)
  {
    if req.title == "" || req.message == "" then Fail(400, "Title and message are required")
    else
      match ParseType(if req.kind == "" then "Info" else req.kind)
      case None => Fail(500, "Error creating notification")
      case Some(kind) =>
        var expiry := if req.expiresAt.Date? then Some(req.expiresAt.t) else None;
        var n := Notification(id, Trim(req.title), Trim(req.message), kind, Some(admin), None, expiry, [], now);
        match Save(n)
        case None => Fail(500, "Error creating notification")
        case Some(saved) => Done(saved)
  }

  /** updateNotification's field assignments: a falsy title, message or type
      keeps the old value, a truthy one replaces it (the `trim` setters run on
      assignment); the expiry is kept only when the field is absent, cleared
      when it is falsy and replaced when it is a date. None: the type is not
      in the enum, which the save rejects. */
  function Updated(n: Notification, req: NotificationRequest): (r: Option<Notification>)
    ensures r.None? <==> req.kind != "" && ParseType(req.kind).None?
    ensures r.Some? ==>
      var m := r.value;
      m.title == (if req.title != "" then Trim(req.title) else n.title)
      && m.message == (if req.message != "" then Trim(req.message) else n.message)
      && m.kind == (if req.kind != "" then ParseType(req.kind).value else n.kind)
      && m.expiresAt == NewExpiry(req.expiresAt, n.expiresAt)
      && m.id == n.id && m.student == n.student && m.readBy == n.readBy
      && m.createdBy == n.createdBy && m.createdAt == n.createdAt
  {
    if req.kind != "" && ParseType(req.kind).None? then None
    else
      Some(n.(title := if req.title != "" then Trim(req.title) else n.title,
              message := if req.message != "" then Trim(req.message) else n.message,
              kind := if req.kind != "" then ParseType(req.kind).value else n.kind,
              expiresAt := NewExpiry(req.expiresAt, n.expiresAt)))
  }

  /** The new expiry: the current one when the field is absent, none when it is falsy, else the date sent. */
  function NewExpiry(f: DateField, current: Option<int>): (r: Option<int>)
    ensures f.Absent? ==> r == current
    ensures f.Falsy? ==> r.None?
    ensures f.Date? ==> r == Some(f.t)
  {
    match f
    case Absent => current
    case Falsy => None
    case Date(t) => Some(t)
  }

  /** updateNotification's answer: 404 for an unknown id, 500 when the
      updated document fails the schema, else the saved document. */
  function UpdateOutcome(docs: seq<Notification>, id: Id, req: NotificationRequest): (r: Outcome<Notification>)
    ensures !r.Unhandled?
    ensures r.Fail? ==> r.code == 404 || r.code == 500
    ensures r.Fail? && r.code == 404 <==> id !in Ids(docs)
    ensures r.Done? ==> Updated(docs[IndexOf(docs, id)], req) == Some(r.value) && SchemaValid(r.value)
    ensures (id in Ids(docs) && Updated(docs[IndexOf(docs, id)], req).Some?
             && SchemaValid(Updated(docs[IndexOf(docs, id)], req).value)) ==> r.Done?
  {
    var i := IndexOf(docs, id);
    if i < 0 then Fail(404, "Notification not found")
    else
      match Updated(docs[i], req)
      case None => Fail(500, "Error updating notification")
      case Some(m) => if SchemaValid(m) then Done(m) else Fail(500, "Error updating notification")
  }

  /** Sending the same update twice has the effect of sending it once. */
  lemma UpdateIdempotent(n: Notification, req: NotificationRequest)
    requires Updated(n, req).Some?
    ensures Updated(Updated(n, req).value, req) == Updated(n, req)
  {
    var m := Updated(n, req).value;
    var m2 := Updated(m, req).value;
    TrimIdempotent(req.title);
    TrimIdempotent(req.message);
    assert m2.title == m.title;
    assert m2.message == m.message;
    assert m2.kind == m.kind;
    assert m2.expiresAt == m.expiresAt;
    assert m2 == m;
  }

  /** An update whose fields are all falsy and whose expiry is absent changes
      nothing. */
  lemma EmptyUpdateKeeps(n: Notification)
    ensures Updated(n, NotificationRequest("", "", "", Absent)) == Some(n)
  {
  }

  // ---------------------------------------------------------------------------
  // Read marks
  // ---------------------------------------------------------------------------

  /** `$addToSet: { readBy: student }` on one document. */
  function AddReader(n: Notification, sid: Id): (r: Notification)
    ensures r == n.(readBy := AddToSet(n.readBy, sid))
    ensures sid in r.readBy
  {
    n.(readBy := AddToSet(n.readBy, sid))
  }

  /** markAsRead: the document with that id gets the student in its
      `readBy`; an unknown id changes nothing and is not an error. */
  function MarkRead(docs: seq<Notification>, id: Id, sid: Id): (r: seq<Notification>)
    ensures |r| == |docs|
    ensures forall i :: 0 <= i < |docs| ==>
      r[i] == (if docs[i].id == id then AddReader(docs[i], sid) else docs[i])
  {
    if docs == [] then []
    else [if docs[0].id == id then AddReader(docs[0], sid) else docs[0]] + MarkRead(docs[1..], id, sid)
  }

  /** Marking the same notification read twice is marking it once. */
  lemma MarkReadIdempotent(docs: seq<Notification>, id: Id, sid: Id)
    ensures MarkRead(MarkRead(docs, id, sid), id, sid) == MarkRead(docs, id, sid)
  {
    var once := MarkRead(docs, id, sid);
    var twice := MarkRead(once, id, sid);
    forall i | 0 <= i < |docs|
      ensures twice[i] == once[i]
    {
      if docs[i].id == id {
        AddToSetIdempotent(docs[i].readBy, sid);
      }
    }
  }

  /** markAllAsRead: every active notification gets the student in its
      `readBy`, whoever it is addressed to. */
  function MarkAllRead(docs: seq<Notification>, sid: Id, now: int): (r: seq<Notification>)
    ensures |r| == |docs|
    ensures forall i :: 0 <= i < |docs| ==>
      r[i] == (if IsActive(docs[i], now) then AddReader(docs[i], sid) else docs[i])
  {
    if docs == [] then []
    else [if IsActive(docs[0], now) then AddReader(docs[0], sid) else docs[0]] + MarkAllRead(docs[1..], sid, now)
  }

  /** Read marks keep the collection well formed. */
  lemma MarkReadWellFormed(docs: seq<Notification>, id: Id, sid: Id, now: int)
    requires WellFormed(docs)
    ensures WellFormed(MarkRead(docs, id, sid))
    ensures WellFormed(MarkAllRead(docs, sid, now))
  {
    var a := MarkRead(docs, id, sid);
    var b := MarkAllRead(docs, sid, now);
    assert forall i :: 0 <= i < |docs| ==> a[i].id == docs[i].id && b[i].id == docs[i].id;
  }

  // ---------------------------------------------------------------------------
  // Student queries
  // ---------------------------------------------------------------------------

  /** The feed query: unexpired, and either a broadcast or addressed to the
      student. */
  predicate VisibleTo(n: Notification, sid: Id, now: int)
  {
    IsActive(n, now) && (n.student.None? || n.student == Some(sid))
  }

  /** The feed's documents in collection order, before sorting. */
  function VisibleDocs(docs: seq<Notification>, sid: Id, now: int): (r: seq<Notification>)
    ensures forall n :: n in r <==> n in docs && VisibleTo(n, sid, now)
    ensures forall i :: 0 <= i < |r| ==> VisibleTo(r[i], sid, now)
  {
    Filter(docs, (n: Notification) => VisibleTo(n, sid, now))
  }

  /** The `sort({ createdAt: -1 })` key. */
  function NewestFirst(n: Notification): real
  {
    -(n.createdAt as real)
  }

  /** getStudentNotifications' query: exactly the visible documents, newest
      first. */
  function StudentNotifications(docs: seq<Notification>, sid: Id, now: int): (r: seq<Notification>)
    ensures forall n :: n in r <==> n in docs && VisibleTo(n, sid, now)
    ensures multiset(r) == multiset(VisibleDocs(docs, sid, now))
    ensures forall i, j :: 0 <= i < j < |r| ==> r[i].createdAt >= r[j].createdAt
  {
    var r := SortBy(VisibleDocs(docs, sid, now), NewestFirst);
    SortByMembers(VisibleDocs(docs, sid, now), NewestFirst);
    assert forall i, j :: 0 <= i < j < |r| ==> NewestFirst(r[i]) <= NewestFirst(r[j]);
    r
  }

  /** One entry of the student's feed. */
  datatype FeedItem = FeedItem(
    id: Id,
    title: string,
    message: string,
    kind: NotifType,
    createdAt: int,
    expiresAt: Option<int>,
    isPersonal: bool,
    isRead: bool)

  /** The projection getStudentNotifications applies to each document. */
  function ToFeedItem(n: Notification, sid: Id): (r: FeedItem)
    ensures r.isRead <==> sid in n.readBy
    ensures r.isPersonal <==> n.student.Some?
    ensures r.id == n.id && r.title == n.title && r.message == n.message && r.kind == n.kind
    ensures r.createdAt == n.createdAt && r.expiresAt == n.expiresAt
  {
    FeedItem(n.id, n.title, n.message, n.kind, n.createdAt, n.expiresAt, n.student.Some?, sid in n.readBy)
  }

  /** The answer of getStudentNotifications. */
  function StudentFeed(docs: seq<Notification>, sid: Id, now: int): (r: seq<FeedItem>)
    ensures |r| == |StudentNotifications(docs, sid, now)|
    ensures forall i :: 0 <= i < |r| ==>
      var n := StudentNotifications(docs, sid, now)[i];
      n in docs && VisibleTo(n, sid, now)
      && r[i].isRead == (sid in n.readBy) && r[i].isPersonal == n.student.Some?
    ensures forall i :: 0 <= i < |r| ==>
      var n := StudentNotifications(docs, sid, now)[i];
      r[i].id == n.id && r[i].title == n.title && r[i].message == n.message && r[i].kind == n.kind
      && r[i].createdAt == n.createdAt && r[i].expiresAt == n.expiresAt
  {
    Map(StudentNotifications(docs, sid, now), (n: Notification) => ToFeedItem(n, sid))
  }

  predicate Unread(n: Notification, sid: Id)
  {
    sid !in n.readBy
  }

  /** getUnreadCount as written: active notifications the student has not
      read, addressed to anybody. */
  function UnreadCount(docs: seq<Notification>, sid: Id, now: int): (c: nat)
    ensures c <= |docs|
    ensures c == 0 <==> forall i :: 0 <= i < |docs| && IsActive(docs[i], now) ==> sid in docs[i].readBy
  {
    Count(docs, (n: Notification) => IsActive(n, now) && Unread(n, sid))
  }

  /** The unread count restricted to what the student can see: the number of
      unread entries of the student's feed. */
  function VisibleUnreadCount(docs: seq<Notification>, sid: Id, now: int): (c: nat)
    ensures c <= UnreadCount(docs, sid, now)
  {
    CountMonotone(docs, (n: Notification) => VisibleTo(n, sid, now) && Unread(n, sid),
                        (n: Notification) => IsActive(n, now) && Unread(n, sid));
    Count(docs, (n: Notification) => VisibleTo(n, sid, now) && Unread(n, sid))
  }

  function IsUnreadItem(item: FeedItem): bool { !item.isRead }

  /** The corrected count is what the student dashboard shows: the number of
      feed entries whose `isRead` is false. */
  lemma {:induction false} FeedUnreadIsVisibleUnread(docs: seq<Notification>, sid: Id, now: int)
    ensures Count(StudentFeed(docs, sid, now), IsUnreadItem) == VisibleUnreadCount(docs, sid, now)
  {
    var sorted := StudentNotifications(docs, sid, now);
    var visible := VisibleDocs(docs, sid, now);
    var unread := (n: Notification) => Unread(n, sid);
    CountMap(sorted, (n: Notification) => ToFeedItem(n, sid), IsUnreadItem, unread);
    CountPermutation(sorted, visible, unread);
    CountFilter(docs, (n: Notification) => VisibleTo(n, sid, now), unread,
                (n: Notification) => VisibleTo(n, sid, now) && Unread(n, sid));
  }

  /** getUnreadCount can exceed the number of unread entries in the feed: a
      personal notification for student 2 is counted for student 1. */
  lemma UnreadCountCountsOthersPersonal()
    ensures var docs := [Notification(7, "Mess", "Closed", Info, None, Some(2), None, [], 0)];
      UnreadCount(docs, 1, 0) == 1 && Count(StudentFeed(docs, 1, 0), IsUnreadItem) == 0
  {
    var docs := [Notification(7, "Mess", "Closed", Info, None, Some(2), None, [], 0)];
    assert !VisibleTo(docs[0], 1, 0);
    assert Unread(docs[0], 1) && IsActive(docs[0], 0);
    FeedUnreadIsVisibleUnread(docs, 1, 0);
  }

  /** After markAllAsRead nothing active is unread for that student, and the
      student's feed has no unread entry. */
  lemma {:induction false} MarkAllReadClearsUnread(docs: seq<Notification>, sid: Id, now: int)
    ensures UnreadCount(MarkAllRead(docs, sid, now), sid, now) == 0
    ensures Count(StudentFeed(MarkAllRead(docs, sid, now), sid, now), IsUnreadItem) == 0
  {
    var after := MarkAllRead(docs, sid, now);
    FeedUnreadIsVisibleUnread(after, sid, now);
    assert VisibleUnreadCount(after, sid, now) <= UnreadCount(after, sid, now);
  }

  /** markAllAsRead also marks personal notifications addressed to other
      students, so their `readBy` records a student who cannot see them. */
  lemma MarkAllReadReachesOthers(docs: seq<Notification>, sid: Id, now: int, i: nat)
    requires i < |docs| && IsActive(docs[i], now)
    requires docs[i].student.Some? && docs[i].student.value != sid
    ensures !VisibleTo(docs[i], sid, now)
    ensures sid in MarkAllRead(docs, sid, now)[i].readBy
  {
  }

  /** After markAsRead the entry for that notification in the student's feed
      is read, and no other document changed. */
  lemma {:induction false} MarkReadShowsRead(docs: seq<Notification>, id: Id, sid: Id, now: int, i: nat)
    requires i < |docs| && docs[i].id == id
    ensures ToFeedItem(MarkRead(docs, id, sid)[i], sid).isRead
    ensures forall j :: 0 <= j < |docs| && docs[j].id != id ==> MarkRead(docs, id, sid)[j] == docs[j]
  {
  }

  // ---------------------------------------------------------------------------
  // Admin listing
  // ---------------------------------------------------------------------------

  /** One row of getAllNotificationsAdmin. */
  datatype AdminItem = AdminItem(doc: Notification, readCount: nat, isActive: bool)

  function ToAdminItem(n: Notification, now: int): (r: AdminItem)
    ensures r.doc == n && r.readCount == |n.readBy| && (r.isActive <==> IsActive(n, now))
  {
    AdminItem(n, |n.readBy|, IsActive(n, now))
  }

  /** getAllNotificationsAdmin: every document, newest first, with its read
      count and whether it is active. */
  function AdminListing(docs: seq<Notification>, now: int): (r: seq<AdminItem>)
    ensures |r| == |docs|
    ensures forall i :: 0 <= i < |r| ==>
      r[i].doc == AdminOrder(docs)[i] && r[i].readCount == |r[i].doc.readBy| && (r[i].isActive <==> IsActive(r[i].doc, now))
  {
    Map(AdminOrder(docs), (n: Notification) => ToAdminItem(n, now))
  }

  /** The listing's documents: all of them, newest first. */
  function AdminOrder(docs: seq<Notification>): (r: seq<Notification>)
    ensures multiset(r) == multiset(docs)
    ensures forall n :: n in r <==> n in docs
    ensures forall i, j :: 0 <= i < j < |r| ==> r[i].createdAt >= r[j].createdAt
  {
    var r := SortBy(docs, NewestFirst);
    SortByMembers(docs, NewestFirst);
    assert forall i, j :: 0 <= i < j < |r| ==> NewestFirst(r[i]) <= NewestFirst(r[j]);
    r
  }

  /** In a well-formed collection a notification's read count is the number
      of distinct students who have read it. */
  lemma ReadCountIsReaders(docs: seq<Notification>, now: int, i: nat)
    requires WellFormed(docs)
    requires i < |docs|
    ensures ToAdminItem(docs[i], now).readCount == |Elements(docs[i].readBy)|
  {
    assert NoDuplicates(docs[i].readBy);
    NoDuplicatesCard(docs[i].readBy);
  }

  // ---------------------------------------------------------------------------
  // The collection
  // ---------------------------------------------------------------------------

  /** Deleting an id keeps the collection well formed; in a well-formed
      collection it removes exactly the one document holding that id. */
  lemma DeleteWellFormed(docs: seq<Notification>, id: Id)
    requires WellFormed(docs)
    ensures WellFormed(RemoveKey(docs, IdOf, id))
  {
    RemoveKeyExactly(docs, IdOf, id);
    var r := RemoveKey(docs, IdOf, id);
    forall k | 0 <= k < |r| ensures NoDuplicates(r[k].readBy) {
      assert r[k] in docs;
    }
  }

  /** Replacing a document by one with the same id and a duplicate-free
      `readBy` keeps the collection well formed. */
  lemma ReplaceWellFormed(docs: seq<Notification>, i: nat, n: Notification)
    requires WellFormed(docs) && i < |docs| && n.id == docs[i].id && NoDuplicates(n.readBy)
    ensures WellFormed(docs[i := n])
  {
    ReplaceKeysUnique(docs, IdOf, i, n);
  }

  /** In a well-formed collection markAsRead changes at most the document at
      the position `findById` gives. */
  lemma MarkReadAt(docs: seq<Notification>, id: Id, sid: Id, i: int)
    requires WellFormed(docs) && i == IndexOf(docs, id)
    ensures i < 0 ==> MarkRead(docs, id, sid) == docs
    ensures i >= 0 ==> MarkRead(docs, id, sid) == docs[i := AddReader(docs[i], sid)]
  {
    SameOffKey(docs, MarkRead(docs, id, sid), IdOf, id);
  }

  /** The notifications collection. */
  class NotificationStore {
    var docs: seq<Notification>

    ghost predicate Valid()
      reads this
    {
      WellFormed(docs)
    }

    constructor ()
      ensures Valid() && docs == []
    {
      docs := [];
    }

    /** createNotification; `id` is the fresh id the database assigns. */
    method Create(req: NotificationRequest, admin: Id, id: Id, now: int) returns (out: Outcome<Notification>)
      requires Valid() && id !in Ids(docs)
      modifies this
      ensures Valid()
      ensures out == CreateOutcome(req, admin, id, now)
      ensures docs == if out.Done? then old(docs) + [out.value] else old(docs)
    {
      out := CreateOutcome(req, admin, id, now);
      if out.Done? {
        Add(out.value);
      }
    }

    /** `Notification.create` of an already built document (used by the
        complaint workflow for its response notifications). */
    method Add(n: Notification)
      requires Valid() && n.id !in Ids(docs) && NoDuplicates(n.readBy)
      modifies this
      ensures Valid()
      ensures docs == old(docs) + [n]
    {
      AppendKeysUnique(docs, IdOf, n);
      docs := docs + [n];
    }

    /** updateNotification: 404 for an unknown id; otherwise the fields are
        assigned one by one and the document saved, which fails with 500
        when the schema rejects it. */
    method Update(id: Id, req: NotificationRequest) returns (out: Outcome<Notification>)
      requires Valid()
      modifies this
      ensures Valid()
      ensures out == UpdateOutcome(old(docs), id, req)
      ensures docs == if out.Done? then old(docs)[IndexOf(old(docs), id) := out.value] else old(docs)
    {
      var i := IndexOf(docs, id);
      if i < 0 {
        return Fail(404, "Notification not found");
      }
      var n := docs[i];
      if req.title != "" {
        n := n.(title := Trim(req.title));
      }
      if req.message != "" {
        n := n.(message := Trim(req.message));
      }
      if req.kind != "" {
        var kind := ParseType(req.kind);
        if kind.None? {
          return Fail(500, "Error updating notification");
        }
        n := n.(kind := kind.value);
      }
      match req.expiresAt {
        case Absent =>
        case Falsy => n := n.(expiresAt := None);
        case Date(t) => n := n.(expiresAt := Some(t));
      }
      assert Updated(docs[i], req) == Some(n);
      if !SchemaValid(n) {
        return Fail(500, "Error updating notification");
      }
      ReplaceWellFormed(docs, i, n);
      docs := docs[i := n];
      out := Done(n);
    }

    /** deleteNotification: 404 for an unknown id, else that document is
        removed. */
    method Delete(id: Id) returns (out: Outcome<string>)
      requires Valid()
      modifies this
      ensures Valid()
      ensures out.Fail? <==> id !in Ids(old(docs))
      ensures out.Fail? ==> out == Fail(404, "Notification not found")
      ensures out.Done? ==> out == Done("Notification deleted")
      ensures docs == RemoveKey(old(docs), IdOf, id)
    {
      var i := IndexOf(docs, id);
      RemoveKeyExactly(docs, IdOf, id);
      DeleteWellFormed(docs, id);
      if i < 0 {
        return Fail(404, "Notification not found");
      }
      docs := docs[..i] + docs[i + 1..];
      out := Done("Notification deleted");
    }

    /** markAsRead. */
    method MarkAsRead(id: Id, sid: Id) returns (out: Outcome<string>)
      requires Valid()
      modifies this
      ensures Valid()
      ensures out == Done("Marked as read")
      ensures docs == MarkRead(old(docs), id, sid)
    {
      var i := IndexOf(docs, id);
      MarkReadWellFormed(docs, id, sid, 0);
      MarkReadAt(docs, id, sid, i);
      if i >= 0 {
        docs := docs[i := AddReader(docs[i], sid)];
      }
      out := Done("Marked as read");
    }

    /** markAllAsRead: the `updateMany` applied document by document. */
    method MarkAllAsRead(sid: Id, now: int) returns (out: Outcome<string>)
      requires Valid()
      modifies this
      ensures Valid()
      ensures out == Done("All marked as read")
      ensures docs == MarkAllRead(old(docs), sid, now)
    {
      MarkReadWellFormed(docs, 0, sid, now);
      var i := 0;
      while i < |docs|
        invariant 0 <= i <= |docs| == |old(docs)|
        invariant forall k :: 0 <= k < i ==> docs[k] == MarkAllRead(old(docs), sid, now)[k]
        invariant forall k :: i <= k < |docs| ==> docs[k] == old(docs)[k]
      {
        if IsActive(docs[i], now) {
          docs := docs[i := AddReader(docs[i], sid)];
        }
        i := i + 1;
      }
      out := Done("All marked as read");
    }
  }
}
