/** The Notification document: its fields, the schema's bounds, defaults and
    enum, and the `isActive` virtual (backend/models/Notification.js). */
module NotificationModel {
  import opened Base

  /** The `type` enum. `SpecialMeal` is the string "Special Meal". */
  datatype NotifType = Info | Alert | SpecialMeal | Announcement | Response

  function TypeName(t: NotifType): string
  {
    match t
    case Info => "Info"
    case Alert => "Alert"
    case SpecialMeal => "Special Meal"
    case Announcement => "Announcement"
    case Response => "Response"
  }

  /** The enum validator: a string is accepted exactly when it names a type. */
  function ParseType(s: string): (r: Option<NotifType>)
    ensures r.Some? ==> TypeName(r.value) == s
    ensures forall t :: TypeName(t) == s ==> r == Some(t)
  {
    if s == "Info" then Some(Info)
    else if s == "Alert" then Some(Alert)
    else if s == "Special Meal" then Some(SpecialMeal)
    else if s == "Announcement" then Some(Announcement)
    else if s == "Response" then Some(Response)
    else None
  }

  const MAX_TITLE: nat := 150
  const MAX_MESSAGE: nat := 1000

  /** A stored notification. `student == None` is a broadcast, `Some(s)` is
      personal to student `s`; `expiresAt == None` never expires; `readBy`
      lists the students who have read it; times are milliseconds. */
  datatype Notification = Notification(
    id: Id,
    title: string,
    message: string,
    kind: NotifType,
    createdBy: Option<Id>,
    student: Option<Id>,
    expiresAt: Option<int>,
    readBy: seq<Id>,
    createdAt: int)

  /** The `isActive` virtual: no expiry, or the expiry instant lies strictly
      after `now`. */
  predicate IsActive(n: Notification, now: int)
  {
    n.expiresAt.None? || now < n.expiresAt.value
  }

  /** What the schema checks on save, after the `trim` setters have run:
      title and message are required (so not empty) and within their
      maximum lengths, counted in UTF-16 code units. */
  predicate SchemaValid(n: Notification)
  {
    n.title != [] && JsLength(n.title) <= MAX_TITLE && n.message != [] && JsLength(n.message) <= MAX_MESSAGE
  }

  /** Saves a document built from already trimmed fields, or reports the
      validation error the schema raises. */
  function Save(n: Notification): (r: Option<Notification>)
    ensures r.Some? <==> n.title != [] && n.message != []
                         && JsLength(n.title) <= MAX_TITLE && JsLength(n.message) <= MAX_MESSAGE
    ensures r.Some? ==> r.value == n
  {
    if SchemaValid(n) then Some(n) else None
  }

  /** A notification that never expires is active at every instant. */
  lemma NoExpiryAlwaysActive(n: Notification, now: int)
    requires n.expiresAt.None?
    ensures IsActive(n, now)
  {
  }

  /** A notification with an expiry is active before it and inactive from the
      expiry instant on. */
  lemma ExpiryBoundary(n: Notification, now: int)
    requires n.expiresAt.Some?
    ensures IsActive(n, now) <==> now < n.expiresAt.value
    ensures !IsActive(n, n.expiresAt.value)
  {
  }

  /** Once inactive, a notification stays inactive. */
  lemma ExpiryIsFinal(n: Notification, t1: int, t2: int)
    requires t1 <= t2 && !IsActive(n, t1)
    ensures !IsActive(n, t2)
  {
  }
}
