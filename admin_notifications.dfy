/** The admin's notification bell on the server: the AdminNotification
    document (backend/models/AdminNotification.js) and its handlers
    (backend/controllers/adminNotificationController.js): the capped,
    newest-first listing, the read marks and dismissal. */
module AdminNotifications {
  import opened Base
  import opened Sorting

  /** The `type` enum: "complaint", "suggestion", "info", "warning". */
  datatype NoteType = ComplaintNote | SuggestionNote | InfoNote | WarningNote

  function NoteTypeName(t: NoteType): string
  {
    match t
    case ComplaintNote => "complaint"
    case SuggestionNote => "suggestion"
    case InfoNote => "info"
    case WarningNote => "warning"
  }

  const MAX_TITLE: nat := 150
  const MAX_BODY: nat := 500
  /** The listing's `limit(50)`. */
  const LISTING_LIMIT: nat := 50

  /** A stored admin notification; `refId`/`refModel` point back at the
      record that caused it. */
  datatype AdminNote = AdminNote(
    id: Id,
    title: string,
    body: string,
    kind: NoteType,
    refId: Option<Id>,
    refModel: Option<string>,
    read: bool,
    createdAt: int)

  function NoteId(n: AdminNote): Id { n.id }

  /** The schema's checks on a document whose `trim` setters have run:
      title and body required and within their maximum lengths, counted
      in UTF-16 code units. */
  predicate SchemaValid(n: AdminNote)
  {
    n.title != [] && JsLength(n.title) <= MAX_TITLE && n.body != [] && JsLength(n.body) <= MAX_BODY
  }

  /** `AdminNotification.create`: the trimmed document, or None when the
      schema rejects it. */
  function Create(id: Id, title: string, body: string, kind: NoteType, refId: Option<Id>,
                  refModel: Option<string>, now: int): (r: Option<AdminNote>)
    ensures r.Some? <==> Trim(title) != [] && JsLength(Trim(title)) <= MAX_TITLE
                         && Trim(body) != [] && JsLength(Trim(body)) <= MAX_BODY
    ensures r.Some? ==> r.value.title == Trim(title) && r.value.body == Trim(body)
                        && !r.value.read && r.value.id == id && r.value.kind == kind
                        && r.value.refId == refId && r.value.refModel == refModel
                        && r.value.createdAt == now
  {
    var t := Trim(title);
    var b := Trim(body);
    var n := AdminNote(id, t, b, kind, refId, refModel, false, now);
    if SchemaValid(n) then Some(n) else None
  }

  /** A body the `trim` setter leaves as it is, not empty and within 500
      units, under a title that is not blank and fits in 150 units, always
      passes the schema and is stored unchanged. */
  lemma CreateStored(id: Id, title: string, body: string, kind: NoteType, refId: Option<Id>,
                     refModel: Option<string>, now: int)
    requires body != [] && Trim(body) == body && JsLength(body) <= MAX_BODY
    requires Trim(title) != [] && JsLength(Trim(title)) <= MAX_TITLE
    ensures Create(id, title, body, kind, refId, refModel, now).Some?
    ensures Create(id, title, body, kind, refId, refModel, now).value.body == body
  {
  }

  function NewestFirst(n: AdminNote): real
  {
    -(n.createdAt as real)
  }

  /** getAdminNotifications: at most 50 notifications, newest first, none
      more often than it is stored, and all of them when there are at most 50. */
  function Listing(docs: seq<AdminNote>): (r: seq<AdminNote>)
    ensures |r| == if |docs| < LISTING_LIMIT then |docs| else LISTING_LIMIT
    ensures forall i, j :: 0 <= i < j < |r| ==> r[i].createdAt >= r[j].createdAt
    ensures multiset(r) <= multiset(docs)
    ensures |docs| <= LISTING_LIMIT ==> multiset(r) == multiset(docs)
  {
    var sorted := SortBy(docs, NewestFirst);
    assert forall i, j :: 0 <= i < j < |sorted| ==> NewestFirst(sorted[i]) <= NewestFirst(sorted[j]);
    PrefixSubMultiset(sorted, |Limit(sorted, LISTING_LIMIT)|);
    Limit(sorted, LISTING_LIMIT)
  }

  /** The listing keeps the newest notifications: each one it lists is in the
      collection, and each one it leaves out is no newer than any it lists. */
  lemma ListingKeepsNewest(docs: seq<AdminNote>, n: AdminNote, i: nat)
    requires n in docs && n !in Listing(docs) && i < |Listing(docs)|
    ensures Listing(docs)[i] in docs
    ensures n.createdAt <= Listing(docs)[i].createdAt
  {
    var sorted := SortBy(docs, NewestFirst);
    var r := Listing(docs);
    assert r == sorted[..|r|];
    assert r[i] in multiset(sorted);
    assert n in multiset(sorted);
    var j :| 0 <= j < |sorted| && sorted[j] == n;
    assert j >= |r|;
    assert NewestFirst(sorted[i]) <= NewestFirst(sorted[j]);
  }

  /** markAdminNotifRead: `read` becomes true on the notification with that
      id; nothing else changes, and an unknown id is not an error. */
  function MarkRead(docs: seq<AdminNote>, id: Id): (r: seq<AdminNote>)
    ensures |r| == |docs|
    ensures forall i :: 0 <= i < |docs| ==>
      r[i] == if docs[i].id == id then docs[i].(read := true) else docs[i]
  {
    if docs == [] then []
    else [if docs[0].id == id then docs[0].(read := true) else docs[0]] + MarkRead(docs[1..], id)
  }

  lemma MarkReadIdempotent(docs: seq<AdminNote>, id: Id)
    ensures MarkRead(MarkRead(docs, id), id) == MarkRead(docs, id)
  {
    var once := MarkRead(docs, id);
    assert forall i :: 0 <= i < |docs| ==> MarkRead(once, id)[i] == once[i];
  }

  /** markAllAdminNotifsRead: `updateMany({ read: false }, { read: true })`. */
  function MarkAllRead(docs: seq<AdminNote>): (r: seq<AdminNote>)
    ensures |r| == |docs|
    ensures forall i :: 0 <= i < |docs| ==> r[i] == docs[i].(read := true)
  {
    if docs == [] then [] else [docs[0].(read := true)] + MarkAllRead(docs[1..])
  }

  function IsUnread(n: AdminNote): bool { !n.read }

  /** After marking all read, nothing is unread. */
  lemma MarkAllReadClears(docs: seq<AdminNote>)
    ensures Count(MarkAllRead(docs), IsUnread) == 0
  {
  }

  /** Marking one id read lowers the unread count by the number of unread
      notifications with that id (at most one in the collection). */
  lemma {:induction false} MarkReadCount(docs: seq<AdminNote>, id: Id)
    ensures Count(MarkRead(docs, id), IsUnread) + Count(docs, (n: AdminNote) => n.id == id && !n.read)
            == Count(docs, IsUnread)
  {
    if docs != [] {
      MarkReadCount(docs[1..], id);
      assert MarkRead(docs, id)[1..] == MarkRead(docs[1..], id);
    }
  }

  /** In a well-formed collection markAdminNotifRead changes at most the one
      document with that id. */
  lemma MarkReadAt(docs: seq<AdminNote>, id: Id)
    requires KeysUnique(docs, NoteId)
    ensures var i := KeyIndex(docs, NoteId, id);
      (i < 0 ==> MarkRead(docs, id) == docs)
      && (i >= 0 ==> MarkRead(docs, id) == docs[i := docs[i].(read := true)])
  {
    SameOffKey(docs, MarkRead(docs, id), NoteId, id);
  }

  /** The AdminNotification collection. */
  class AdminMailbox {
    var docs: seq<AdminNote>

    ghost predicate Valid()
      reads this
    {
      KeysUnique(docs, NoteId)
    }

    constructor ()
      ensures Valid() && docs == []
    {
      docs := [];
    }

    /** Stores a notification built by `Create`; `n.id` is fresh. */
    method Add(n: AdminNote)
      requires Valid() && n.id !in KeySet(docs, NoteId)
      modifies this
      ensures Valid()
      ensures docs == old(docs) + [n]
    {
      AppendKeysUnique(docs, NoteId, n);
      docs := docs + [n];
    }

    /** markAdminNotifRead: `findByIdAndUpdate(id, { read: true })`. */
    method MarkAsRead(id: Id) returns (out: Outcome<string>)
      requires Valid()
      modifies this
      ensures Valid()
      ensures out == Done("Marked as read")
      ensures docs == MarkRead(old(docs), id)
    {
      var i := KeyIndex(docs, NoteId, id);
      MarkReadAt(docs, id);
      if i >= 0 {
        ReplaceKeysUnique(docs, NoteId, i, docs[i].(read := true));
        docs := docs[i := docs[i].(read := true)];
      }
      out := Done("Marked as read");
    }

    /** markAllAdminNotifsRead, document by document. */
    method MarkAllAsRead() returns (out: Outcome<string>)
      requires Valid()
      modifies this
      ensures Valid()
      ensures out == Done("All marked as read")
      ensures docs == MarkAllRead(old(docs))
    {
      var i := 0;
      while i < |docs|
        invariant 0 <= i <= |docs| == |old(docs)|
        invariant forall k :: 0 <= k < i ==> docs[k] == old(docs)[k].(read := true)
        invariant forall k :: i <= k < |docs| ==> docs[k] == old(docs)[k]
      {
        if !docs[i].read {
          docs := docs[i := docs[i].(read := true)];
        }
        i := i + 1;
      }
      out := Done("All marked as read");
      assert forall k :: 0 <= k < |docs| ==> NoteId(docs[k]) == NoteId(old(docs)[k]);
    }

    /** dismissAdminNotif: the notification with that id is deleted; the
        answer is the same whether or not it existed. */
    method Dismiss(id: Id) returns (out: Outcome<string>)
      requires Valid()
      modifies this
      ensures Valid()
      ensures out == Done("Dismissed")
      ensures docs == RemoveKey(old(docs), NoteId, id)
    {
      RemoveKeyExactly(docs, NoteId, id);
      docs := RemoveKey(docs, NoteId, id);
      out := Done("Dismissed");
    }
  }
}
