/** The admin's notification bell in the browser: the relative time shown
    beside each notification, the unread badge, and the local updates the
    bell makes to its copy of the server's listing after a successful
    request (mark one read, mark all read, dismiss), which agree with what
    the next poll of the listing would show. */
module NotificationBell {
  import opened Base
  import opened Sorting
  import opened AdminNotifications

  // ---------------------------------------------------------------------------
  // timeAgo
  // ---------------------------------------------------------------------------

  const MINUTE: int := 60000
  const HOUR: int := 60 * MINUTE
  const DAY: int := 24 * HOUR

  /** What timeAgo reports, before it is written out. */
  datatype Ago = JustNow | MinutesAgo(minutes: nat) | HoursAgo(hours: nat) | DaysAgo(days: nat)

  /** The whole minutes, hours or days between `createdAt` and `now`
      (milliseconds). `Math.floor` of a division by a positive number is
      Dafny's integer division, negative differences included. */
  function Elapsed(now: int, createdAt: int): (a: Ago)
    ensures a.JustNow? <==> now - createdAt < MINUTE
    ensures a.MinutesAgo? <==> MINUTE <= now - createdAt < HOUR
    ensures a.HoursAgo? <==> HOUR <= now - createdAt < DAY
    ensures a.DaysAgo? <==> DAY <= now - createdAt
    ensures a.MinutesAgo? ==> a.minutes * MINUTE <= now - createdAt < (a.minutes + 1) * MINUTE
    ensures a.HoursAgo? ==> a.hours * HOUR <= now - createdAt < (a.hours + 1) * HOUR
    ensures a.DaysAgo? ==> a.days * DAY <= now - createdAt < (a.days + 1) * DAY
  {
    var diff := now - createdAt;
    var m := diff / 60000;
    if m < 1 then JustNow
    else if m < 60 then MinutesAgo(m)
    else
      var h := m / 60;
      assert h * HOUR <= diff < (h + 1) * HOUR;
      if h < 24 then HoursAgo(h)
      else
        assert (h / 24) * DAY <= diff < (h / 24 + 1) * DAY;
        DaysAgo(h / 24)
  }

  /** timeAgo: the label, whose number is the elapsed time floored to the
      largest unit that fits. */
  function TimeAgo(now: int, createdAt: int): (s: string)
    ensures s == "just now" <==> now - createdAt < MINUTE
    ensures MINUTE <= now - createdAt < HOUR ==> s == NatToString((now - createdAt) / MINUTE) + " min ago"
    ensures HOUR <= now - createdAt < DAY ==> s == NatToString((now - createdAt) / HOUR) + " hr ago"
    ensures DAY <= now - createdAt ==> s == NatToString((now - createdAt) / DAY) + "d ago"
  {
    match Elapsed(now, createdAt)
    case JustNow => "just now"
    case MinutesAgo(m) =>
      FloorUnique(now - createdAt, m, MINUTE);
      NatToString(m) + " min ago"
    case HoursAgo(h) =>
      FloorUnique(now - createdAt, h, HOUR);
      var s := NatToString(h) + " hr ago";
      assert s[|s| - 1] != "just now"[7];
      s
    case DaysAgo(d) =>
      FloorUnique(now - createdAt, d, DAY);
      var s := NatToString(d) + "d ago";
      assert s[|s| - 1] != "just now"[7];
      s
  }

  /** A quotient is pinned by the interval it falls in. */
  lemma FloorUnique(x: int, q: int, d: int)
    requires d > 0 && q * d <= x < (q + 1) * d
    ensures x / d == q
  {
    var r := x / d;
    assert x == r * d + x % d;
    assert (r + 1) * d <= q * d || r >= q;
    assert (q + 1) * d <= r * d || r <= q;
  }

  /** The label of a later moment never reports a shorter time. */
  lemma ElapsedMonotone(now: int, later: int, createdAt: int)
    requires now <= later
    ensures Elapsed(now, createdAt).MinutesAgo? && Elapsed(later, createdAt).MinutesAgo? ==>
      Elapsed(now, createdAt).minutes <= Elapsed(later, createdAt).minutes
    ensures Elapsed(now, createdAt).HoursAgo? && Elapsed(later, createdAt).HoursAgo? ==>
      Elapsed(now, createdAt).hours <= Elapsed(later, createdAt).hours
    ensures Elapsed(now, createdAt).DaysAgo? && Elapsed(later, createdAt).DaysAgo? ==>
      Elapsed(now, createdAt).days <= Elapsed(later, createdAt).days
    ensures Elapsed(later, createdAt).JustNow? ==> Elapsed(now, createdAt).JustNow?
  {
  }

  // ---------------------------------------------------------------------------
  // The unread badge
  // ---------------------------------------------------------------------------

  /** unreadCount: the listed notifications not yet read. */
  function UnreadCount(notes: seq<AdminNote>): (n: nat)
    ensures n <= |notes|
    ensures n == 0 <==> forall i :: 0 <= i < |notes| ==> notes[i].read
  {
    Count(notes, IsUnread)
  }

  /** The badge counts the unread notifications of the listing; with at most
      fifty notifications that is every unread one. */
  lemma BadgeCountsListing(docs: seq<AdminNote>)
    ensures UnreadCount(Listing(docs)) <= |Listing(docs)| <= LISTING_LIMIT
    ensures |docs| <= LISTING_LIMIT ==> UnreadCount(Listing(docs)) == Count(docs, IsUnread)
  {
    if |docs| <= LISTING_LIMIT {
      CountPermutation(Listing(docs), docs, IsUnread);
    }
  }

  // ---------------------------------------------------------------------------
  // Local updates
  // ---------------------------------------------------------------------------

  /** `{ ...n, read: true }` for the notification with that id. */
  function ReadIf(id: Id): AdminNote -> AdminNote
  {
    (n: AdminNote) => if n.id == id then n.(read := true) else n
  }

  function ReadAll(n: AdminNote): AdminNote { n.(read := true) }

  /** The bell's list after a markRead request: updated only when the
      request succeeded (a failure is logged and changes nothing). */
  function AfterMarkRead(notes: seq<AdminNote>, id: Id, ok: bool): (r: seq<AdminNote>)
    ensures |r| == |notes|
    ensures forall i :: 0 <= i < |notes| ==>
      r[i] == if ok && notes[i].id == id then notes[i].(read := true) else notes[i]
  {
    if ok then Map(notes, ReadIf(id)) else notes
  }

  /** The bell's list after a markAllRead request. */
  function AfterMarkAllRead(notes: seq<AdminNote>, ok: bool): (r: seq<AdminNote>)
    ensures |r| == |notes|
    ensures forall i :: 0 <= i < |notes| ==> r[i] == if ok then notes[i].(read := true) else notes[i]
  {
    if ok then Map(notes, ReadAll) else notes
  }

  /** The bell's list after a dismiss request: every item with that id
      removed when the request succeeded. */
  function AfterDismiss(notes: seq<AdminNote>, id: Id, ok: bool): (r: seq<AdminNote>)
    ensures ok ==> forall n :: n in r <==> n in notes && n.id != id
    ensures !ok ==> r == notes
  {
    if ok then RemoveKey(notes, NoteId, id) else notes
  }

  /** After a successful markAllRead the badge is empty; after a successful
      markRead it drops by the unread items with that id. */
  lemma BadgeAfterMarking(notes: seq<AdminNote>, id: Id)
    ensures UnreadCount(AfterMarkAllRead(notes, true)) == 0
    ensures UnreadCount(AfterMarkRead(notes, id, true)) + Count(notes, (n: AdminNote) => n.id == id && !n.read)
      == UnreadCount(notes)
  {
    assert AfterMarkRead(notes, id, true) == MarkRead(notes, id);
    MarkReadCount(notes, id);
  }

  /** A click: an unread notification is marked read first; complaint and
      suggestion notifications close the dropdown and open the complaints
      page. */
  datatype ClickResult = ClickResult(notes: seq<AdminNote>, open: bool, navigateTo: Option<string>)

  function Click(notes: seq<AdminNote>, open: bool, n: AdminNote, ok: bool): (r: ClickResult)
    ensures r.navigateTo.Some? <==> n.kind == ComplaintNote || n.kind == SuggestionNote
    ensures r.navigateTo.Some? ==> r.navigateTo.value == "/complaints" && !r.open
    ensures r.navigateTo.None? ==> r.open == open
    ensures r.notes == if n.read then notes else AfterMarkRead(notes, n.id, ok)
  {
    var notes' := if !n.read then AfterMarkRead(notes, n.id, ok) else notes;
    if n.kind == ComplaintNote || n.kind == SuggestionNote then ClickResult(notes', false, Some("/complaints"))
    else ClickResult(notes', open, None)
  }

  // ---------------------------------------------------------------------------
  // The local updates agree with the server
  // ---------------------------------------------------------------------------

  /** A function that keeps each item's sort key. */
  ghost predicate KeepsKey<T(!new)>(f: T -> T, key: T -> real)
  {
    forall x :: key(f(x)) == key(x)
  }

  lemma MapSorted<T(!new)>(s: seq<T>, f: T -> T, key: T -> real)
    requires SortedBy(s, key) && KeepsKey(f, key)
    ensures SortedBy(Map(s, f), key)
  {
  }

  lemma {:induction false} InsertMap<T(!new)>(x: T, s: seq<T>, key: T -> real, f: T -> T)
    requires SortedBy(s, key) && KeepsKey(f, key)
    ensures SortedBy(Map(s, f), key)
    ensures Insert(f(x), Map(s, f), key) == Map(Insert(x, s, key), f)
    decreases |s|
  {
    MapSorted(s, f, key);
    if s != [] {
      assert Map(s, f)[1..] == Map(s[1..], f);
      if key(x) > key(s[0]) {
        InsertMap(x, s[1..], key, f);
        var t := Insert(x, s[1..], key);
        assert Map([s[0]] + t, f) == [f(s[0])] + Map(t, f);
      } else {
        assert Map([x] + s, f) == [f(x)] + Map(s, f);
      }
    }
  }

  /** Sorting and then applying a key-preserving update is the same as
      updating and then sorting. */
  lemma {:induction false} SortByMap<T(!new)>(s: seq<T>, key: T -> real, f: T -> T)
    requires KeepsKey(f, key)
    ensures SortBy(Map(s, f), key) == Map(SortBy(s, key), f)
  {
    if s != [] {
      assert Map(s, f)[1..] == Map(s[1..], f);
      SortByMap(s[1..], key, f);
      InsertMap(s[0], SortBy(s[1..], key), key, f);
    }
  }

  lemma LimitMap<T(!new)>(s: seq<T>, n: nat, f: T -> T)
    ensures Limit(Map(s, f), n) == Map(Limit(s, n), f)
  {
  }

  /** The listing after the server's update, the update applied to the
      listing: a key-preserving update commutes with it. */
  lemma ListingMap(docs: seq<AdminNote>, f: AdminNote -> AdminNote)
    requires KeepsKey(f, NewestFirst)
    ensures Listing(Map(docs, f)) == Map(Listing(docs), f)
  {
    SortByMap(docs, NewestFirst, f);
    LimitMap(SortBy(docs, NewestFirst), LISTING_LIMIT, f);
  }

  /** markRead's local update is what the next poll shows: the listing of
      the collection after the server marked the notification read. */
  lemma MarkReadMatchesServer(docs: seq<AdminNote>, id: Id)
    ensures AfterMarkRead(Listing(docs), id, true) == Listing(MarkRead(docs, id))
  {
    assert MarkRead(docs, id) == Map(docs, ReadIf(id));
    ListingMap(docs, ReadIf(id));
  }

  /** markAllRead's local update is what the next poll shows. */
  lemma MarkAllReadMatchesServer(docs: seq<AdminNote>)
    ensures AfterMarkAllRead(Listing(docs), true) == Listing(MarkAllRead(docs))
  {
    assert MarkAllRead(docs) == Map(docs, ReadAll);
    ListingMap(docs, ReadAll);
  }

  lemma {:induction false} InsertFilter<T(!new)>(x: T, s: seq<T>, key: T -> real, p: T -> bool)
    requires SortedBy(s, key)
    ensures SortedBy(Filter(s, p), key)
    ensures Filter(Insert(x, s, key), p) == if p(x) then Insert(x, Filter(s, p), key) else Filter(s, p)
    decreases |s|
  {
    FilterSorted(s, key, p);
    if s == [] {
      assert Insert(x, s, key) == [x];
      assert [x][1..] == [];
    } else if key(x) > key(s[0]) {
      InsertFilter(x, s[1..], key, p);
      InsertFilterBehind(x, s, key, p);
    } else {
      InsertFilterInFront(x, s, key, p);
    }
  }

  /** The step of InsertFilter where `x` goes before the head. */
  lemma InsertFilterInFront<T(!new)>(x: T, s: seq<T>, key: T -> real, p: T -> bool)
    requires SortedBy(s, key) && SortedBy(Filter(s, p), key)
    requires s != [] && key(x) <= key(s[0])
    ensures Filter(Insert(x, s, key), p) == if p(x) then Insert(x, Filter(s, p), key) else Filter(s, p)
  {
    assert Insert(x, s, key) == [x] + s;
    assert ([x] + s)[1..] == s;
    if p(x) {
      InsertFront(x, Filter(s, p), key, s);
    }
  }

  /** The step of InsertFilter where `x` goes behind the head, given the
      property for the tail. */
  lemma InsertFilterBehind<T(!new)>(x: T, s: seq<T>, key: T -> real, p: T -> bool)
    requires s != [] && SortedBy(s, key) && key(x) > key(s[0])
    requires SortedBy(Filter(s[1..], p), key) && SortedBy(Filter(s, p), key)
    requires Filter(Insert(x, s[1..], key), p)
      == if p(x) then Insert(x, Filter(s[1..], p), key) else Filter(s[1..], p)
    ensures Filter(Insert(x, s, key), p) == if p(x) then Insert(x, Filter(s, p), key) else Filter(s, p)
  {
    var f1 := Filter(s[1..], p);
    var p0 := if p(s[0]) then [s[0]] else [];
    assert Filter(s, p) == p0 + f1;
    FilterOfInsertBehind(x, s, key, p);
    if p(x) {
      PrefixBehind(x, s[0], p0, f1, key);
    }
  }

  /** Inserting behind a lower head, or into a list without it. */
  lemma PrefixBehind<T>(x: T, h: T, p0: seq<T>, f: seq<T>, key: T -> real)
    requires p0 == [] || p0 == [h]
    requires SortedBy(f, key) && SortedBy(p0 + f, key) && key(x) > key(h)
    ensures Insert(x, p0 + f, key) == p0 + Insert(x, f, key)
  {
    if p0 == [h] {
      InsertBehind(x, h, f, key);
    } else {
      assert p0 + f == f;
      assert p0 + Insert(x, f, key) == Insert(x, f, key);
    }
  }

  /** Filtering a list where `x` went behind the head. */
  lemma FilterOfInsertBehind<T(!new)>(x: T, s: seq<T>, key: T -> real, p: T -> bool)
    requires s != [] && SortedBy(s, key) && key(x) > key(s[0])
    ensures Filter(Insert(x, s, key), p) == (if p(s[0]) then [s[0]] else []) + Filter(Insert(x, s[1..], key), p)
  {
    var t := Insert(x, s[1..], key);
    assert Insert(x, s, key) == [s[0]] + t;
    assert ([s[0]] + t)[1..] == t;
  }

  /** `x` goes behind a head whose key is below its own. */
  lemma InsertBehind<T>(x: T, h: T, f: seq<T>, key: T -> real)
    requires SortedBy([h] + f, key) && key(x) > key(h)
    ensures SortedBy(f, key)
    ensures Insert(x, [h] + f, key) == [h] + Insert(x, f, key)
  {
    assert ([h] + f)[1..] == f;
  }

  /** Filtering keeps a sorted list sorted. */
  lemma {:induction false} FilterSorted<T(!new)>(s: seq<T>, key: T -> real, p: T -> bool)
    requires SortedBy(s, key)
    ensures SortedBy(Filter(s, p), key)
  {
    if s != [] {
      FilterSorted(s[1..], key, p);
      var t := Filter(s[1..], p);
      if p(s[0]) {
        forall j | 0 <= j < |t|
          ensures key(s[0]) <= key(t[j])
        {
          assert t[j] in s[1..];
          var i :| 0 <= i < |s[1..]| && s[1..][i] == t[j];
          assert s[i + 1] == t[j];
        }
        SortedCons(s[0], t, key);
      }
    }
  }

  /** Inserting an element whose key is at most every key of a sorted list
      `s` into a list `t` drawn from `s` puts it in front. */
  lemma InsertFront<T(!new)>(x: T, t: seq<T>, key: T -> real, s: seq<T>)
    requires SortedBy(t, key) && s != [] && key(x) <= key(s[0]) && SortedBy(s, key)
    requires forall y :: y in t ==> y in s
    ensures Insert(x, t, key) == [x] + t
  {
    if t != [] {
      assert t[0] in s;
      var i :| 0 <= i < |s| && s[i] == t[0];
      assert key(s[0]) <= key(s[i]);
    }
  }

  /** Sorting commutes with filtering (the sort is stable). */
  lemma {:induction false} SortByFilter<T(!new)>(s: seq<T>, key: T -> real, p: T -> bool)
    ensures SortBy(Filter(s, p), key) == Filter(SortBy(s, key), p)
  {
    if s != [] {
      SortByFilter(s[1..], key, p);
      InsertFilter(s[0], SortBy(s[1..], key), key, p);
      if p(s[0]) {
        assert Filter(s, p) == [s[0]] + Filter(s[1..], p);
        assert Filter(s, p)[1..] == Filter(s[1..], p);
      } else {
        assert Filter(s, p) == Filter(s[1..], p);
      }
    }
  }

  /** dismiss's local update is what the next poll shows, as long as the
      collection fits the listing (beyond fifty, the poll brings in the
      next older notification). */
  lemma DismissMatchesServer(docs: seq<AdminNote>, id: Id)
    requires |docs| <= LISTING_LIMIT
    ensures AfterDismiss(Listing(docs), id, true) == Listing(RemoveKey(docs, NoteId, id))
  {
    SortByFilter(docs, NewestFirst, LacksKey(NoteId, id));
  }
}
