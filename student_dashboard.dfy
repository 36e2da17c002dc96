/** The student dashboard's own logic: which weekday is today, the unread
    badge of the bell, the feedback dialog (its prefill, the like/dislike
    toggle and the guard before sending). */
module StudentDashboard {
  import opened Base
  import opened Week
  import opened Feedback
  import opened NotificationModel
  import opened Notifications

  // ---------------------------------------------------------------------------
  // Today
  // ---------------------------------------------------------------------------

  /** `Date.prototype.getDay()` of a weekday: Sunday is 0, Monday 1, ... */
  function JsWeekday(d: Day): (n: nat)
    ensures n < 7
  {
    match d
    case Sunday => 0
    case Monday => 1
    case Tuesday => 2
    case Wednesday => 3
    case Thursday => 4
    case Friday => 5
    case Saturday => 6
  }

  /** `jsDay === 0 ? 6 : jsDay - 1`: the position of today in `DAYS`, which
      starts on Monday. `getDay()` only yields 0 to 6. */
  function TodayIndex(jsDay: nat): (i: nat)
    requires jsDay < 7
    ensures i < |DAYS|
    ensures JsWeekday(DAYS[i]) == jsDay
  {
    if jsDay == 0 then 6 else jsDay - 1
  }

  /** The lookup is the inverse of `getDay`: every weekday is found as
      itself. */
  lemma TodayOfWeekday(d: Day)
    ensures DAYS[TodayIndex(JsWeekday(d))] == d
  {
    var i := TodayIndex(JsWeekday(d));
    assert JsWeekday(DAYS[i]) == JsWeekday(d);
  }

  // ---------------------------------------------------------------------------
  // The bell
  // ---------------------------------------------------------------------------

  /** `data.filter(n => !n.isRead).length` over the student's feed. */
  function DashboardUnread(feed: seq<FeedItem>): (n: nat)
    ensures n <= |feed|
    ensures n == 0 <==> forall i :: 0 <= i < |feed| ==> feed[i].isRead
  {
    Count(feed, IsUnreadItem)
  }

  /** The dashboard's count is the number of notifications the student can
      see and has not read. */
  lemma DashboardUnreadIsVisibleUnread(docs: seq<Notification>, sid: Id, now: int)
    ensures DashboardUnread(StudentFeed(docs, sid, now)) == VisibleUnreadCount(docs, sid, now)
  {
    FeedUnreadIsVisibleUnread(docs, sid, now);
  }

  /** What the bell shows over its icon. */
  datatype Badge = Hidden | Shown(text: string)

  /** `unreadCount > 0 && (unreadCount > 9 ? '9+' : unreadCount)`. */
  function BadgeOf(count: nat): (b: Badge)
    ensures b.Hidden? <==> count == 0
    ensures b.Shown? ==> (b.text == "9+" <==> count > 9)
    ensures 0 < count <= 9 ==> b == Shown([DigitChar(count)])
  {
    if count == 0 then Hidden
    else if count > 9 then Shown("9+")
    else Shown(NatToString(count))
  }

  /** Up to nine the badge tells the exact count; every larger count shows
      the same badge. */
  lemma BadgeExactUpToNine(a: nat, b: nat)
    requires BadgeOf(a) == BadgeOf(b)
    ensures a <= 9 ==> a == b
    ensures a > 9 <==> b > 9
  {
    if 0 < a <= 9 && 0 < b <= 9 {
      assert DigitChar(a) == BadgeOf(a).text[0] == BadgeOf(b).text[0] == DigitChar(b);
    }
  }

  /** After "mark all read" the refreshed bell is hidden. */
  lemma BadgeAfterMarkAllRead(docs: seq<Notification>, sid: Id, now: int)
    ensures BadgeOf(DashboardUnread(StudentFeed(MarkAllRead(docs, sid, now), sid, now))) == Hidden
  {
    MarkAllReadClearsUnread(docs, sid, now);
  }

  // ---------------------------------------------------------------------------
  // The feedback dialog
  // ---------------------------------------------------------------------------

  /** The dialog's state: the stars (0 before any is picked), the thumb
      (None for neither) and the comment. */
  datatype Draft = Draft(rating: real, liked: Option<bool>, comment: string)

  predicate InSlot(f: FeedbackDoc, day: string, mealType: string)
  {
    f.day == day && f.mealType == mealType
  }

  /** getMyFb: the first of the student's records for that day and meal. */
  function GetMyFb(mine: seq<FeedbackDoc>, day: string, mealType: string): (r: Option<FeedbackDoc>)
    ensures r.Some? <==> exists f :: f in mine && InSlot(f, day, mealType)
    ensures r.Some? ==> r.value in mine && InSlot(r.value, day, mealType)
  {
    var i := FirstWhere(mine, (f: FeedbackDoc) => InSlot(f, day, mealType));
    if i >= 0 then Some(mine[i]) else None
  }

  /** openFeedback: the stored rating, thumb and comment when there is a
      record, else no stars, no thumb and no comment. */
  function Prefill(existing: Option<FeedbackDoc>): (d: Draft)
    ensures existing.None? ==> d == Draft(0.0, None, "")
    ensures existing.Some? ==>
      d.rating == existing.value.rating && d.liked == existing.value.liked && d.comment == existing.value.comment
  {
    match existing
    case None => Draft(0.0, None, "")
    case Some(f) => Draft(f.rating, f.liked, f.comment)
  }

  /** The "Liked it" button: pressing it again clears the thumb. */
  function PressLike(liked: Option<bool>): (r: Option<bool>)
    ensures r.None? <==> liked == Some(true)
    ensures r.Some? ==> r == Some(true)
  {
    if liked == Some(true) then None else Some(true)
  }

  /** The "Didn't like" button: pressing it again clears the thumb. */
  function PressDislike(liked: Option<bool>): (r: Option<bool>)
    ensures r.None? <==> liked == Some(false)
    ensures r.Some? ==> r == Some(false)
  {
    if liked == Some(false) then None else Some(false)
  }

  /** Pressing a button twice leaves no thumb unless that thumb was already
      chosen; pressing the other button always switches to it. */
  lemma ToggleLaws(liked: Option<bool>)
    ensures PressLike(PressLike(liked)) == (if liked == Some(true) then Some(true) else None)
    ensures PressDislike(PressDislike(liked)) == (if liked == Some(false) then Some(false) else None)
    ensures PressDislike(PressLike(liked)) == Some(false)
    ensures PressLike(PressDislike(liked)) == Some(true)
  {
  }

  /** What the dialog's Submit does. */
  datatype Submission = PickRating | Send(req: FeedbackRequest)

  const PICK_RATING_MESSAGE := "Please select a star rating"

  /** submitFeedback: with no stars it only alerts; otherwise it posts the
      dialog's values for its day and meal. */
  function Submit(day: string, mealType: string, d: Draft): (r: Submission)
    ensures r.PickRating? <==> d.rating == 0.0
    ensures r.Send? ==>
      r.req.day == day && r.req.mealType == mealType
      && r.req.rating == d.rating && r.req.liked == d.liked && r.req.comment == d.comment
  {
    if d.rating == 0.0 then PickRating else Send(FeedbackRequest(day, mealType, d.rating, d.liked, d.comment))
  }

  /** A request the dialog sends with one to five stars, for a day and meal
      of the menu, passes the server's checks; the dialog holds back exactly
      the requests the server would refuse as missing a rating. */
  lemma SubmitAgreesWithServer(day: string, mealType: string, d: Draft)
    requires day != "" && mealType != ""
    ensures 1.0 <= d.rating <= 5.0 ==> Submit(day, mealType, d).Send? && Rejection(Submit(day, mealType, d).req).None?
    ensures Submit(day, mealType, d).PickRating?
      <==> Rejection(FeedbackRequest(day, mealType, d.rating, d.liked, d.comment)) == Some(REQUIRED_MESSAGE)
  {
  }

  /** A fresh dialog cannot be sent until a star is picked. */
  lemma FreshDialogNeedsRating(day: string, mealType: string)
    ensures Submit(day, mealType, Prefill(None)) == PickRating
  {
  }

  /** After a submit, reopening the dialog of that meal shows what the server
      stored: the rating, the thumb and the trimmed comment. */
  lemma ReopenShowsSaved(docs: seq<FeedbackDoc>, sid: Id, req: FeedbackRequest, id: Id, now: int)
    requires Feedback.WellFormed(docs) && id !in KeySet(docs, Feedback.IdOf)
    ensures Prefill(GetMyFb(MyFeedback(Upsert(docs, sid, req, id, now), sid), req.day, req.mealType))
      == Draft(req.rating, req.liked, Trim(req.comment))
  {
    var r := Upsert(docs, sid, req, id, now);
    UpsertWellFormed(docs, sid, req, id, now);
    UpsertStores(docs, sid, req, id, now);
    FindsStored(r, sid, req.day, req.mealType, KeyIndex(r, KeyOf, FeedbackKey(sid, req.day, req.mealType)));
  }

  /** Under the unique index, the dashboard's lookup among the student's own
      records finds the record stored for that day and meal. */
  lemma FindsStored(docs: seq<FeedbackDoc>, sid: Id, day: string, mealType: string, j: int)
    requires KeysUnique(docs, KeyOf) && 0 <= j < |docs| && KeyOf(docs[j]) == FeedbackKey(sid, day, mealType)
    ensures GetMyFb(MyFeedback(docs, sid), day, mealType) == Some(docs[j])
  {
    var mine := MyFeedback(docs, sid);
    assert docs[j] in mine;
    var g := GetMyFb(mine, day, mealType).value;
    assert g in docs && KeyOf(g) == KeyOf(docs[j]);
    var n :| 0 <= n < |docs| && docs[n] == g;
    KeyIndexUnique(docs, KeyOf, n);
    KeyIndexUnique(docs, KeyOf, j);
  }
}
