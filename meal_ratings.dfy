/** The second rating path (backend/controllers/mealRatingController.js and
    backend/models/MealRating.js): a student's star rating of a meal, kept
    once per (student, day, meal type) only within the current calendar day,
    the student's ratings of today, and the admin's per-meal analytics. */
module MealRatings {
  import opened Base
  import opened Sorting
  import opened Week

  /** A MealRating document. Stored documents passed the schema, so the
      day and meal type are enum values and the rating lies in 1..5.
      `comment` is None when it was never set. `date` and `createdAt` are
      both the creation time. */
  datatype RatingDoc = RatingDoc(
    id: Id,
    student: Id,
    day: Day,
    mealType: Meal,
    rating: real,
    comment: Option<string>,
    date: int,
    createdAt: int)

  function IdOf(r: RatingDoc): Id { r.id }

  /** The body of a submit: the day and meal type as sent, the rating None
      when missing, the comment None when missing. */
  datatype RatingRequest = RatingRequest(day: string, mealType: string, rating: Option<real>, comment: Option<string>)

  /** The schema's `required`, `min: 1` and `max: 5` on the rating. */
  predicate RatingValid(r: Option<real>)
  {
    r.Some? && 1.0 <= r.value <= 5.0
  }

  /** The `findOne` filter: this student, this day and meal, created since
      the start of today. */
  predicate RatedToday(r: RatingDoc, sid: Id, req: RatingRequest, startOfDay: int)
  {
    r.student == sid && DayName(r.day) == req.day && MealName(r.mealType) == req.mealType
    && r.createdAt >= startOfDay
  }

  /** The position of the document `findOne` returns, or -1. */
  function TodayIndex(docs: seq<RatingDoc>, sid: Id, req: RatingRequest, startOfDay: int): (i: int)
    ensures -1 <= i < |docs|
    ensures i >= 0 ==> RatedToday(docs[i], sid, req, startOfDay)
    ensures i == -1 <==> forall j :: 0 <= j < |docs| ==> !RatedToday(docs[j], sid, req, startOfDay)
  {
    FirstWhere(docs, (r: RatingDoc) => RatedToday(r, sid, req, startOfDay))
  }

  /** What the handler answers: 200 with the overwritten rating, 201 with a
      new one, or 500 when the schema rejects the document. */
  datatype Reply = Reply(status: int, doc: RatingDoc)

  const SUBMIT_ERROR := "Error submitting rating"

  /** submitRating. Today's rating of the meal, when there is one, gets the new
      rating and comment and is saved; otherwise a new rating dated `now` is
      created. The handler validates nothing itself: a bad day, meal type or
      rating fails only in the schema, as 500. */
  function SubmitOutcome(docs: seq<RatingDoc>, sid: Id, req: RatingRequest, id: Id, now: int, startOfDay: int): (r: Outcome<Reply>)
    ensures !r.Unhandled?
    ensures r.Fail? ==> r == Fail(500, SUBMIT_ERROR)
    ensures r.Done? ==> RatingValid(req.rating) && r.value.doc.rating == req.rating.value
                        && r.value.doc.comment == req.comment
    ensures TodayIndex(docs, sid, req, startOfDay) >= 0 ==>
      (r.Done? <==> RatingValid(req.rating))
      && (r.Done? ==> r.value.status == 200 && r.value.doc.id == docs[TodayIndex(docs, sid, req, startOfDay)].id)
    ensures TodayIndex(docs, sid, req, startOfDay) < 0 ==>
      (r.Done? <==> RatingValid(req.rating) && ParseDay(req.day).Some? && ParseMeal(req.mealType).Some?)
      && (r.Done? ==> r.value.status == 201 && r.value.doc.id == id && r.value.doc.createdAt == now
                      && r.value.doc.date == now && r.value.doc.student == sid)
  {
    var i := TodayIndex(docs, sid, req, startOfDay);
    if !RatingValid(req.rating) then Fail(500, SUBMIT_ERROR)
    else if i >= 0 then Done(Reply(200, docs[i].(rating := req.rating.value, comment := req.comment)))
    else
      match (ParseDay(req.day), ParseMeal(req.mealType))
      case (Some(day), Some(meal)) =>
        Done(Reply(201, RatingDoc(id, sid, day, meal, req.rating.value, req.comment, now, now)))
      case _ => Fail(500, SUBMIT_ERROR)
  }

  /** The collection after a submit: the overwritten rating in place, or the
      new one appended, or no change on failure. */
  function AfterSubmit(docs: seq<RatingDoc>, sid: Id, req: RatingRequest, id: Id, now: int, startOfDay: int): (r: seq<RatingDoc>)
    ensures !SubmitOutcome(docs, sid, req, id, now, startOfDay).Done? ==> r == docs
    ensures SubmitOutcome(docs, sid, req, id, now, startOfDay).Done? ==>
      SubmitOutcome(docs, sid, req, id, now, startOfDay).value.doc in r
      && |r| == (if TodayIndex(docs, sid, req, startOfDay) >= 0 then |docs| else |docs| + 1)
    ensures forall j :: 0 <= j < |docs| && j != TodayIndex(docs, sid, req, startOfDay) ==> r[j] == docs[j]
  {
    var i := TodayIndex(docs, sid, req, startOfDay);
    match SubmitOutcome(docs, sid, req, id, now, startOfDay)
    case Done(reply) =>
      if i >= 0 then assert docs[i := reply.doc][i] == reply.doc; docs[i := reply.doc] else docs + [reply.doc]
    case _ => docs
  }

  /** The uniqueness the schema's comment promises but its non-unique index
      does not enforce: at most one rating per (student, day, meal type)
      created since `startOfDay`. */
  ghost predicate OncePerDay(docs: seq<RatingDoc>, startOfDay: int)
  {
    forall i, j :: 0 <= i < j < |docs| && docs[i].createdAt >= startOfDay && docs[j].createdAt >= startOfDay ==>
      (docs[i].student, docs[i].day, docs[i].mealType) != (docs[j].student, docs[j].day, docs[j].mealType)
  }

  /** An overwrite changes only the rating and the comment of today's
      document: no document is added and no other one changes. */
  lemma SubmitOverwrites(docs: seq<RatingDoc>, sid: Id, req: RatingRequest, id: Id, now: int, startOfDay: int)
    requires TodayIndex(docs, sid, req, startOfDay) >= 0 && RatingValid(req.rating)
    ensures var r := AfterSubmit(docs, sid, req, id, now, startOfDay);
      var i := TodayIndex(docs, sid, req, startOfDay);
      |r| == |docs| && r[i] == docs[i].(rating := req.rating.value, comment := req.comment)
      && forall j :: 0 <= j < |docs| && j != i ==> r[j] == docs[j]
  {
  }

  /** Within one day a submit keeps the ratings of the day unique. */
  lemma SubmitKeepsOncePerDay(docs: seq<RatingDoc>, sid: Id, req: RatingRequest, id: Id, now: int, startOfDay: int)
    requires OncePerDay(docs, startOfDay)
    ensures OncePerDay(AfterSubmit(docs, sid, req, id, now, startOfDay), startOfDay)
  {
    var r := AfterSubmit(docs, sid, req, id, now, startOfDay);
    var out := SubmitOutcome(docs, sid, req, id, now, startOfDay);
    var i := TodayIndex(docs, sid, req, startOfDay);
    if out.Done? && i < 0 {
      var n := out.value.doc;
      assert r == docs + [n];
      forall a, b | 0 <= a < b < |r| && r[a].createdAt >= startOfDay && r[b].createdAt >= startOfDay
        ensures (r[a].student, r[a].day, r[a].mealType) != (r[b].student, r[b].day, r[b].mealType)
      {
        if b == |docs| {
          assert r[a] == docs[a] && !RatedToday(docs[a], sid, req, startOfDay);
          assert n.student == sid && DayName(n.day) == req.day && MealName(n.mealType) == req.mealType;
        } else {
          assert r[a] == docs[a] && r[b] == docs[b];
        }
      }
    } else if out.Done? {
      forall a, b | 0 <= a < b < |r| && r[a].createdAt >= startOfDay && r[b].createdAt >= startOfDay
        ensures (r[a].student, r[a].day, r[a].mealType) != (r[b].student, r[b].day, r[b].mealType)
      {
        assert (r[a].student, r[a].day, r[a].mealType) == (docs[a].student, docs[a].day, docs[a].mealType);
        assert (r[b].student, r[b].day, r[b].mealType) == (docs[b].student, docs[b].day, docs[b].mealType);
      }
    }
  }

  /** Across the day boundary the same submission adds a second document:
      yesterday's rating of the meal is not found, so two ratings of the
      same (student, day, meal type) exist afterwards. */
  lemma NextDayAddsSecond(docs: seq<RatingDoc>, sid: Id, req: RatingRequest, id: Id, now: int, startOfDay: int, k: nat)
    requires k < |docs| && docs[k].student == sid && DayName(docs[k].day) == req.day
    requires MealName(docs[k].mealType) == req.mealType && docs[k].createdAt < startOfDay
    requires forall j :: 0 <= j < |docs| ==> docs[j].createdAt < startOfDay
    requires RatingValid(req.rating)
    ensures var r := AfterSubmit(docs, sid, req, id, now, startOfDay);
      |r| == |docs| + 1 && r[k] == docs[k] && r[|docs|].student == sid
      && r[|docs|].day == docs[k].day && r[|docs|].mealType == docs[k].mealType
  {
    DayNameInjective(docs[k].day, docs[k].day);
    assert ParseDay(req.day) == Some(docs[k].day);
    assert ParseMeal(req.mealType) == Some(docs[k].mealType);
  }

  /** getStudentRatingsToday: exactly the requester's ratings created since
      the start of today, in collection order. */
  function RatingsToday(docs: seq<RatingDoc>, sid: Id, startOfDay: int): (r: seq<RatingDoc>)
    ensures forall d :: d in r <==> d in docs && d.student == sid && d.createdAt >= startOfDay
    ensures IsSubsequence(r, docs)
  {
    var p := (d: RatingDoc) => d.student == sid && d.createdAt >= startOfDay;
    FilterIsSubsequence(docs, p);
    Filter(docs, p)
  }

  // ---------------------------------------------------------------------------
  // getAnalytics
  // ---------------------------------------------------------------------------

  /** The `$group` key. */
  datatype MealKey = MealKey(day: Day, mealType: Meal)

  function MealOf(r: RatingDoc): MealKey { MealKey(r.day, r.mealType) }

  function RatingOf(r: RatingDoc): real { r.rating }

  /** One pushed `{ rating, comment, date }`. */
  datatype Entry = Entry(rating: real, comment: Option<string>, date: int)

  function EntryOf(r: RatingDoc): Entry { Entry(r.rating, r.comment, r.date) }

  /** One analytics entry. */
  datatype RatingGroup = RatingGroup(key: MealKey, averageRating: real, totalRatings: nat, comments: seq<Entry>)

  /** The accumulators of one group: the size is the number of ratings of
      the meal and the length of `comments`, and the average is their mean. */
  function GroupOf(docs: seq<RatingDoc>, k: MealKey): (r: RatingGroup)
    ensures r.key == k
    ensures r.totalRatings == |r.comments| == Count(docs, HasKey(MealOf, k))
    ensures r.totalRatings > 0 ==> r.averageRating == Sum(Filter(docs, HasKey(MealOf, k)), RatingOf) / (r.totalRatings as real)
  {
    var members := Filter(docs, HasKey(MealOf, k));
    FilterLength(docs, HasKey(MealOf, k));
    var avg := if members == [] then 0.0 else Sum(members, RatingOf) / (|members| as real);
    RatingGroup(k, avg, |members|, Map(members, EntryOf))
  }

  function GroupsFor(docs: seq<RatingDoc>, ks: seq<MealKey>): (r: seq<RatingGroup>)
    ensures |r| == |ks|
    ensures forall i :: 0 <= i < |ks| ==> r[i] == GroupOf(docs, ks[i])
  {
    if ks == [] then [] else [GroupOf(docs, ks[0])] + GroupsFor(docs, ks[1..])
  }

  /** The position of a day name in alphabetical order. */
  function DayRank(d: Day): (n: nat)
    ensures n < 7
  {
    match d
    case Friday => 0
    case Monday => 1
    case Saturday => 2
    case Sunday => 3
    case Thursday => 4
    case Tuesday => 5
    case Wednesday => 6
  }

  /** The position of a meal name in alphabetical order. */
  function MealRank(m: Meal): (n: nat)
    ensures n < 3
  {
    match m
    case Breakfast => 0
    case Dinner => 1
    case Lunch => 2
  }

  /** `$sort: { "_id.day": 1, "_id.mealType": 1 }` as one number. */
  function SortKey(g: RatingGroup): real
  {
    (DayRank(g.key.day) * 3 + MealRank(g.key.mealType)) as real
  }

  /** The alphabetical ranks are the binary string order of the names. */
  lemma DayRankIsStringOrder(a: Day, b: Day)
    ensures DayRank(a) < DayRank(b) <==> StringBefore(DayName(a), DayName(b))
  {
    StringBeforeIrreflexive(DayName(a));
    match a
    case Friday =>
    case Monday =>
    case Saturday =>
    case Sunday =>
    case Thursday =>
    case Tuesday =>
    case Wednesday =>
  }

  lemma MealRankIsStringOrder(a: Meal, b: Meal)
    ensures MealRank(a) < MealRank(b) <==> StringBefore(MealName(a), MealName(b))
  {
    StringBeforeIrreflexive(MealName(a));
  }

  /** So the order is alphabetical, not the order of the week: Friday's
      meals come first and Wednesday's last. */
  lemma FridayFirst()
    ensures StringBefore(DayName(Friday), DayName(Monday))
    ensures StringBefore(DayName(Tuesday), DayName(Wednesday))
  {
    DayRankIsStringOrder(Friday, Monday);
    DayRankIsStringOrder(Tuesday, Wednesday);
  }

  /** getAnalytics: one group per (day, meal type) that has ratings, sorted
      by day name and then meal type name. */
  function Analytics(docs: seq<RatingDoc>): (r: seq<RatingGroup>)
    ensures forall i, j :: 0 <= i < j < |r| ==> SortKey(r[i]) <= SortKey(r[j])
  {
    var r := SortBy(GroupsFor(docs, DistinctKeys(docs, MealOf)), SortKey);
    assert forall i, j :: 0 <= i < j < |r| ==> SortKey(r[i]) <= SortKey(r[j]);
    r
  }

  /** Consecutive groups are in name order: an earlier group's day name is
      before the later one's, or the day is the same and the meal type name
      is not after it. */
  lemma AnalyticsNameOrder(docs: seq<RatingDoc>, i: nat, j: nat)
    requires i < j < |Analytics(docs)|
    ensures var a, b := Analytics(docs)[i].key, Analytics(docs)[j].key;
      StringBefore(DayName(a.day), DayName(b.day))
      || (a.day == b.day && (a.mealType == b.mealType || StringBefore(MealName(a.mealType), MealName(b.mealType))))
  {
    var a, b := Analytics(docs)[i].key, Analytics(docs)[j].key;
    DayRankIsStringOrder(a.day, b.day);
    MealRankIsStringOrder(a.mealType, b.mealType);
    if DayRank(a.day) == DayRank(b.day) {
      DayRankInjective(a.day, b.day);
    }
    if a.day == b.day && MealRank(a.mealType) == MealRank(b.mealType) {
      MealRankInjective(a.mealType, b.mealType);
    }
  }

  lemma DayRankInjective(a: Day, b: Day)
    requires DayRank(a) == DayRank(b)
    ensures a == b
  {
  }

  lemma MealRankInjective(a: Meal, b: Meal)
    requires MealRank(a) == MealRank(b)
    ensures a == b
  {
  }

  /** Every group is the group of its own key, and that key has ratings. */
  lemma AnalyticsEntries(docs: seq<RatingDoc>, g: RatingGroup)
    requires g in Analytics(docs)
    ensures g == GroupOf(docs, g.key)
    ensures g.totalRatings > 0 && g.totalRatings == |g.comments|
  {
    var gs := GroupsFor(docs, DistinctKeys(docs, MealOf));
    var keys := DistinctKeys(docs, MealOf);
    SortByMembers(gs, SortKey);
    var j :| 0 <= j < |gs| && gs[j] == g;
    assert g.key == keys[j] && keys[j] in keys;
    var i :| 0 <= i < |docs| && MealOf(docs[i]) == g.key;
    assert docs[i] in Filter(docs, HasKey(MealOf, g.key));
  }

  /** Every rated meal has a group. */
  lemma AnalyticsCoversKeys(docs: seq<RatingDoc>, i: nat)
    requires i < |docs|
    ensures exists g :: g in Analytics(docs) && g.key == MealOf(docs[i])
  {
    var keys := DistinctKeys(docs, MealOf);
    var k := MealOf(docs[i]);
    assert k in keys by {
      assert 0 <= i < |docs| && MealOf(docs[i]) == k;
    }
    var j :| 0 <= j < |keys| && keys[j] == k;
    var gs := GroupsFor(docs, keys);
    assert gs[j].key == k;
    assert gs[j] in gs;
    SortByMembers(gs, SortKey);
  }

  /** One group per (day, meal type): no key has two groups. */
  lemma AnalyticsDistinct(docs: seq<RatingDoc>)
    ensures forall i, j :: 0 <= i < j < |Analytics(docs)| ==> Analytics(docs)[i].key != Analytics(docs)[j].key
  {
    var keys := DistinctKeys(docs, MealOf);
    var gs := GroupsFor(docs, keys);
    assert NoDuplicates(gs) by {
      forall i, j | 0 <= i < j < |gs| ensures gs[i] != gs[j] {
        assert gs[i].key == keys[i] && gs[j].key == keys[j];
      }
    }
    var r := Analytics(docs);
    NoDuplicatesPermutation(gs, r);
    forall i, j | 0 <= i < j < |r| ensures r[i].key != r[j].key {
      assert r[i] in r && r[j] in r;
      AnalyticsEntries(docs, r[i]);
      AnalyticsEntries(docs, r[j]);
    }
  }

  /** The MealRating collection. */
  class RatingStore {
    var docs: seq<RatingDoc>

    ghost predicate Valid()
      reads this
    {
      KeysUnique(docs, IdOf)
    }

    constructor ()
      ensures Valid() && docs == []
    {
      docs := [];
    }

    /** submitRating; `id` is the fresh id a create gets, `now` the clock and
        `startOfDay` local midnight of today. */
    method Submit(sid: Id, req: RatingRequest, id: Id, now: int, startOfDay: int) returns (out: Outcome<Reply>)
      requires Valid() && id !in KeySet(docs, IdOf)
      modifies this
      ensures Valid()
      ensures out == SubmitOutcome(old(docs), sid, req, id, now, startOfDay)
      ensures docs == AfterSubmit(old(docs), sid, req, id, now, startOfDay)
    {
      var i := TodayIndex(docs, sid, req, startOfDay);
      out := SubmitOutcome(docs, sid, req, id, now, startOfDay);
      if i >= 0 {
        if !RatingValid(req.rating) {
          return;
        }
        ReplaceKeysUnique(docs, IdOf, i, out.value.doc);
        docs := docs[i := out.value.doc];
        return;
      }
      if out.Done? {
        AppendKeysUnique(docs, IdOf, out.value.doc);
        docs := docs + [out.value.doc];
      }
    }
  }
}
