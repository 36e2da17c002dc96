/** Meal feedback (backend/controllers/feedbackController.js): the student's
    submit, which upserts one record per (student, day, meal type), the two
    listings, and the admin's analytics (per-meal groups, overall totals and
    recent comments). The collection is a store object; the queries and the
    analytics are functions of its contents. */
module Feedback {
  import opened Base
  import opened Sorting

  /** A Feedback document. `day` and `mealType` are the strings the request
      sent: the upsert runs no schema validators, so the enums are not
      checked on this path. `liked` is None for null (no thumb). */
  datatype FeedbackDoc = FeedbackDoc(
    id: Id,
    student: Id,
    day: string,
    mealType: string,
    rating: real,
    liked: Option<bool>,
    comment: string,
    createdAt: int)

  /** The unique index `{ student, day, mealType }`. */
  datatype FeedbackKey = FeedbackKey(student: Id, day: string, mealType: string)

  function KeyOf(f: FeedbackDoc): FeedbackKey
  {
    FeedbackKey(f.student, f.day, f.mealType)
  }

  function IdOf(f: FeedbackDoc): Id { f.id }

  /** What the collection keeps true: unique ids and the unique index. */
  predicate WellFormed(docs: seq<FeedbackDoc>)
  {
    KeysUnique(docs, IdOf) && KeysUnique(docs, KeyOf)
  }

  /** The body of a submit. A missing string is "", a missing rating 0 (both
      falsy, as in the source's checks). */
  datatype FeedbackRequest = FeedbackRequest(
    day: string,
    mealType: string,
    rating: real,
    liked: Option<bool>,
    comment: string)

  // ---------------------------------------------------------------------------
  // submitFeedback
  // ---------------------------------------------------------------------------

  const REQUIRED_MESSAGE := "day, mealType and rating are required"
  const RANGE_MESSAGE := "Rating must be between 1 and 5"

  /** The handler's two 400 checks, in order: None when the request passes. */
  function Rejection(req: FeedbackRequest): (r: Option<string>)
    ensures r == Some(REQUIRED_MESSAGE) <==> req.day == "" || req.mealType == "" || req.rating == 0.0
    ensures r == Some(RANGE_MESSAGE) <==>
      req.day != "" && req.mealType != "" && req.rating != 0.0 && (req.rating < 1.0 || req.rating > 5.0)
    ensures r.None? <==> req.day != "" && req.mealType != "" && 1.0 <= req.rating <= 5.0
  {
    if req.day == "" || req.mealType == "" || req.rating == 0.0 then Some(REQUIRED_MESSAGE)
    else if req.rating < 1.0 || req.rating > 5.0 then Some(RANGE_MESSAGE)
    else None
  }

  /** The record the upsert leaves for the request's key: the existing one
      with the new rating, liked and trimmed comment, or a fresh one. */
  function Saved(docs: seq<FeedbackDoc>, sid: Id, req: FeedbackRequest, id: Id, now: int): (r: FeedbackDoc)
    ensures KeyOf(r) == FeedbackKey(sid, req.day, req.mealType)
    ensures r.rating == req.rating && r.liked == req.liked && r.comment == Trim(req.comment)
  {
    var i := KeyIndex(docs, KeyOf, FeedbackKey(sid, req.day, req.mealType));
    if i >= 0 then docs[i].(rating := req.rating, liked := req.liked, comment := Trim(req.comment))
    else FeedbackDoc(id, sid, req.day, req.mealType, req.rating, req.liked, Trim(req.comment), now)
  }

  /** `findOneAndUpdate(key, update, { upsert: true })`: the record with the
      request's key is replaced in place, or a new one is appended. */
  function Upsert(docs: seq<FeedbackDoc>, sid: Id, req: FeedbackRequest, id: Id, now: int): (r: seq<FeedbackDoc>)
    ensures Saved(docs, sid, req, id, now) in r
    ensures |r| == if FeedbackKey(sid, req.day, req.mealType) in KeySet(docs, KeyOf) then |docs| else |docs| + 1
    ensures forall j :: 0 <= j < |docs| && KeyOf(docs[j]) != FeedbackKey(sid, req.day, req.mealType) ==> r[j] == docs[j]
  {
    var i := KeyIndex(docs, KeyOf, FeedbackKey(sid, req.day, req.mealType));
    var f := Saved(docs, sid, req, id, now);
    if i >= 0 then assert docs[i := f][i] == f; docs[i := f] else docs + [f]
  }

  /** The upsert keeps both unique indexes. */
  lemma UpsertWellFormed(docs: seq<FeedbackDoc>, sid: Id, req: FeedbackRequest, id: Id, now: int)
    requires WellFormed(docs) && id !in KeySet(docs, IdOf)
    ensures WellFormed(Upsert(docs, sid, req, id, now))
  {
    var k := FeedbackKey(sid, req.day, req.mealType);
    var i := KeyIndex(docs, KeyOf, k);
    var f := Saved(docs, sid, req, id, now);
    if i >= 0 {
      ReplaceKeysUnique(docs, KeyOf, i, f);
      ReplaceKeysUnique(docs, IdOf, i, f);
    } else {
      AppendKeysUnique(docs, KeyOf, f);
      AppendKeysUnique(docs, IdOf, f);
    }
  }

  /** After a submit exactly one record has the request's key (the index is
      unique), and it holds the new values. */
  lemma UpsertStores(docs: seq<FeedbackDoc>, sid: Id, req: FeedbackRequest, id: Id, now: int)
    requires WellFormed(docs) && id !in KeySet(docs, IdOf)
    ensures var r := Upsert(docs, sid, req, id, now);
      var j := KeyIndex(r, KeyOf, FeedbackKey(sid, req.day, req.mealType));
      j >= 0 && r[j].rating == req.rating && r[j].liked == req.liked && r[j].comment == Trim(req.comment)
  {
    var r := Upsert(docs, sid, req, id, now);
    var f := Saved(docs, sid, req, id, now);
    var i := KeyIndex(docs, KeyOf, FeedbackKey(sid, req.day, req.mealType));
    UpsertWellFormed(docs, sid, req, id, now);
    var at := if i >= 0 then i else |docs|;
    assert r[at] == f;
    KeyIndexUnique(r, KeyOf, at);
  }

  /** Records with any other key are neither changed, dropped nor added. */
  lemma UpsertKeepsOthers(docs: seq<FeedbackDoc>, sid: Id, req: FeedbackRequest, id: Id, now: int, d: FeedbackDoc)
    requires KeyOf(d) != FeedbackKey(sid, req.day, req.mealType)
    ensures d in Upsert(docs, sid, req, id, now) <==> d in docs
  {
    var i := KeyIndex(docs, KeyOf, FeedbackKey(sid, req.day, req.mealType));
    if i >= 0 {
      ReplaceKeepsOthers(docs, i, Saved(docs, sid, req, id, now), d);
    }
  }

  /** Submitting the same payload twice leaves what submitting it once left,
      whatever id and time the second call carries. */
  lemma UpsertIdempotent(docs: seq<FeedbackDoc>, sid: Id, req: FeedbackRequest, id: Id, now: int, id2: Id, now2: int)
    requires WellFormed(docs) && id !in KeySet(docs, IdOf)
    ensures Upsert(Upsert(docs, sid, req, id, now), sid, req, id2, now2) == Upsert(docs, sid, req, id, now)
  {
    var r := Upsert(docs, sid, req, id, now);
    var k := FeedbackKey(sid, req.day, req.mealType);
    UpsertStores(docs, sid, req, id, now);
    var j := KeyIndex(r, KeyOf, k);
    assert Saved(r, sid, req, id2, now2) == r[j];
    assert r[j := r[j]] == r;
  }

  // ---------------------------------------------------------------------------
  // getMyFeedback and getAllFeedback
  // ---------------------------------------------------------------------------

  /** getMyFeedback: every copy of the requester's records and nothing
      else, in collection order. */
  function MyFeedback(docs: seq<FeedbackDoc>, sid: Id): (r: seq<FeedbackDoc>)
    ensures forall f :: f in r <==> f in docs && f.student == sid
    ensures forall f :: multiset(r)[f] == if f.student == sid then multiset(docs)[f] else 0
  {
    FilterMultiset(docs, (f: FeedbackDoc) => f.student == sid);
    Filter(docs, (f: FeedbackDoc) => f.student == sid)
  }

  /** The `filter` object of getAllFeedback: each query parameter is applied
      only when it is non-empty. */
  predicate MatchesQuery(f: FeedbackDoc, day: string, mealType: string)
  {
    (day == "" || f.day == day) && (mealType == "" || f.mealType == mealType)
  }

  function NewestFirst(f: FeedbackDoc): real
  {
    -(f.createdAt as real)
  }

  /** getAllFeedback: every copy of the matching records and nothing else,
      newest first. */
  function AllFeedback(docs: seq<FeedbackDoc>, day: string, mealType: string): (r: seq<FeedbackDoc>)
    ensures forall f :: f in r <==> f in docs && MatchesQuery(f, day, mealType)
    ensures forall f :: multiset(r)[f] == if MatchesQuery(f, day, mealType) then multiset(docs)[f] else 0
    ensures forall i, j :: 0 <= i < j < |r| ==> r[i].createdAt >= r[j].createdAt
  {
    var matching := Filter(docs, (f: FeedbackDoc) => MatchesQuery(f, day, mealType));
    FilterMultiset(docs, (f: FeedbackDoc) => MatchesQuery(f, day, mealType));
    SortByMembers(matching, NewestFirst);
    SortBy(matching, NewestFirst)
  }

  /** Without query parameters the admin sees every record exactly once. */
  lemma AllFeedbackUnfiltered(docs: seq<FeedbackDoc>)
    ensures multiset(AllFeedback(docs, "", "")) == multiset(docs)
  {
    FilterKeepsAll(docs, (f: FeedbackDoc) => MatchesQuery(f, "", ""));
  }

  // ---------------------------------------------------------------------------
  // getFeedbackAnalytics
  // ---------------------------------------------------------------------------

  /** The `$group` key `{ day, mealType }`. */
  datatype MealKey = MealKey(day: string, mealType: string)

  function MealOf(f: FeedbackDoc): MealKey
  {
    MealKey(f.day, f.mealType)
  }

  function RatingOf(f: FeedbackDoc): real { f.rating }

  function LikedOf(f: FeedbackDoc): bool { f.liked == Some(true) }

  function DislikedOf(f: FeedbackDoc): bool { f.liked == Some(false) }

  /** The records of meal `k` whose thumb is up (down). */
  function LikedIn(k: MealKey): FeedbackDoc -> bool
  {
    (f: FeedbackDoc) => MealOf(f) == k && LikedOf(f)
  }

  function DislikedIn(k: MealKey): FeedbackDoc -> bool
  {
    (f: FeedbackDoc) => MealOf(f) == k && DislikedOf(f)
  }

  /** One `perMeal` entry. */
  datatype MealGroup = MealGroup(
    key: MealKey,
    avgRating: real,
    totalCount: nat,
    likeCount: nat,
    dislikeCount: nat,
    ratings: seq<real>)

  function InMeal(k: MealKey): FeedbackDoc -> bool
  {
    HasKey(MealOf, k)
  }

  /** `$avg`: the mean, or 0 for an empty list (never needed for a group). */
  function Average(s: seq<FeedbackDoc>): real
  {
    if s == [] then 0.0 else Sum(s, RatingOf) / (|s| as real)
  }

  /** The accumulators of one group, over the records with that key: the
      size is the number of those records and the length of `ratings`, the
      average is their mean, and likes and dislikes are disjoint parts of
      the group: `likeCount` counts the records of that meal with `liked`
      true, `dislikeCount` those with `liked` false. */
  function GroupOf(docs: seq<FeedbackDoc>, k: MealKey): (r: MealGroup)
    ensures r.key == k
    ensures r.totalCount == |r.ratings| == Count(docs, InMeal(k))
    ensures r.likeCount == Count(docs, LikedIn(k)) && r.dislikeCount == Count(docs, DislikedIn(k))
    ensures r.likeCount + r.dislikeCount <= r.totalCount
    ensures r.totalCount > 0 ==> r.avgRating == Sum(Filter(docs, InMeal(k)), RatingOf) / (r.totalCount as real)
  {
    var members := Filter(docs, InMeal(k));
    FilterLength(docs, InMeal(k));
    CountFilter(docs, InMeal(k), LikedOf, LikedIn(k));
    CountFilter(docs, InMeal(k), DislikedOf, DislikedIn(k));
    LikesFit(members);
    MealGroup(k, Average(members), |members|, Count(members, LikedOf), Count(members, DislikedOf),
              Map(members, RatingOf))
  }

  function HighestFirst(g: MealGroup): real
  {
    -g.avgRating
  }

  /** The groups in the order of the keys' first appearance, before the sort. */
  function Groups(docs: seq<FeedbackDoc>): seq<MealGroup>
  {
    GroupsFor(docs, DistinctKeys(docs, MealOf))
  }

  /** The group of each key of `ks`, in that order. */
  function GroupsFor(docs: seq<FeedbackDoc>, ks: seq<MealKey>): (r: seq<MealGroup>)
    ensures |r| == |ks|
    ensures forall i :: 0 <= i < |ks| ==> r[i] == GroupOf(docs, ks[i])
  {
    if ks == [] then [] else [GroupOf(docs, ks[0])] + GroupsFor(docs, ks[1..])
  }

  /** The `perMeal` pipeline: a group per distinct key, `$sort: { avgRating: -1 }`. */
  function PerMeal(docs: seq<FeedbackDoc>): (r: seq<MealGroup>)
    ensures forall i, j :: 0 <= i < j < |r| ==> r[i].avgRating >= r[j].avgRating
  {
    var r := SortBy(Groups(docs), HighestFirst);
    assert forall i, j :: 0 <= i < j < |r| ==> HighestFirst(r[i]) <= HighestFirst(r[j]);
    r
  }

  /** A key that occurs has a non-empty group. */
  lemma GroupNotEmpty(docs: seq<FeedbackDoc>, k: MealKey, i: nat)
    requires i < |docs| && MealOf(docs[i]) == k
    ensures GroupOf(docs, k).totalCount > 0
  {
    assert docs[i] in Filter(docs, InMeal(k));
  }

  /** Likes and dislikes never overlap, so together they are at most the
      number of records. */
  lemma LikesFit(s: seq<FeedbackDoc>)
    ensures Count(s, LikedOf) + Count(s, DislikedOf) <= |s|
  {
    CountMonotone(s, LikedOf, (f: FeedbackDoc) => !DislikedOf(f));
    CountComplement(s, DislikedOf, (f: FeedbackDoc) => !DislikedOf(f));
  }

  /** Every key of the collection has a group in `perMeal`. */
  lemma PerMealCoversKeys(docs: seq<FeedbackDoc>, i: nat)
    requires i < |docs|
    ensures exists g :: g in PerMeal(docs) && g.key == MealOf(docs[i])
  {
    var keys := DistinctKeys(docs, MealOf);
    var k := MealOf(docs[i]);
    assert k in keys by {
      assert 0 <= i < |docs| && MealOf(docs[i]) == k;
    }
    var j :| 0 <= j < |keys| && keys[j] == k;
    var g := Groups(docs)[j];
    assert g.key == k;
    assert g in Groups(docs);
    SortByMembers(Groups(docs), HighestFirst);
  }

  /** Every `perMeal` entry is the group of its own key. */
  lemma PerMealEntries(docs: seq<FeedbackDoc>, g: MealGroup)
    requires g in PerMeal(docs)
    ensures g == GroupOf(docs, g.key)
    ensures exists i :: 0 <= i < |docs| && MealOf(docs[i]) == g.key
  {
    var gs := Groups(docs);
    var keys := DistinctKeys(docs, MealOf);
    SortByMembers(gs, HighestFirst);
    var j :| 0 <= j < |gs| && gs[j] == g;
    assert g.key == keys[j] && keys[j] in keys;
  }

  /** No key has two groups. */
  lemma PerMealDistinct(docs: seq<FeedbackDoc>)
    ensures forall i, j :: 0 <= i < j < |PerMeal(docs)| ==> PerMeal(docs)[i].key != PerMeal(docs)[j].key
  {
    var gs := Groups(docs);
    var keys := DistinctKeys(docs, MealOf);
    assert NoDuplicates(gs) by {
      forall i, j | 0 <= i < j < |gs| ensures gs[i] != gs[j] {
        assert gs[i].key == keys[i] && gs[j].key == keys[j];
      }
    }
    var r := PerMeal(docs);
    NoDuplicatesPermutation(gs, r);
    forall i, j | 0 <= i < j < |r| ensures r[i].key != r[j].key {
      assert r[i] in r && r[j] in r;
      PerMealEntries(docs, r[i]);
      PerMealEntries(docs, r[j]);
    }
  }

  function TotalCountOf(g: MealGroup): real { g.totalCount as real }

  lemma {:induction false} GroupTotals(docs: seq<FeedbackDoc>, ks: seq<MealKey>)
    ensures Sum(GroupsFor(docs, ks), TotalCountOf) == KeyCounts(docs, MealOf, ks) as real
  {
    if ks != [] {
      var gs := GroupsFor(docs, ks);
      GroupTotals(docs, ks[1..]);
      assert gs[1..] == GroupsFor(docs, ks[1..]);
      assert Sum(gs, TotalCountOf) == TotalCountOf(gs[0]) + Sum(gs[1..], TotalCountOf);
    }
  }

  /** The group sizes add up to the number of records: each record is in
      exactly one group. */
  lemma PerMealPartition(docs: seq<FeedbackDoc>)
    ensures Sum(PerMeal(docs), TotalCountOf) == |docs| as real
  {
    GroupTotals(docs, DistinctKeys(docs, MealOf));
    PartitionByKeys(docs, MealOf);
    SumPermutation(Groups(docs), PerMeal(docs), TotalCountOf);
  }

  /** The `overall` entry: the single group of the whole collection, or the
      literal `{ totalFeedback: 0, avgRating: 0 }` when there is none. */
  datatype Overall =
    | Summary(totalFeedback: nat, avgRating: real, totalLikes: nat, totalDislikes: nat)
    | Default(totalFeedback: nat, avgRating: real)

  function OverallOf(docs: seq<FeedbackDoc>): (r: Overall)
    ensures r.Default? <==> docs == []
    ensures r.Default? ==> r.totalFeedback == 0 && r.avgRating == 0.0
    ensures r.Summary? ==>
      r.totalFeedback == |docs| && r.avgRating == Sum(docs, RatingOf) / (|docs| as real)
      && r.totalLikes == Count(docs, LikedOf) && r.totalDislikes == Count(docs, DislikedOf)
      && r.totalLikes + r.totalDislikes <= r.totalFeedback
  {
    if docs == [] then Default(0, 0.0)
    else
      LikesFit(docs);
      Summary(|docs|, Average(docs), Count(docs, LikedOf), Count(docs, DislikedOf))
  }

  /** The overall total is the sum of the per-meal totals. */
  lemma OverallMatchesPerMeal(docs: seq<FeedbackDoc>)
    ensures Sum(PerMeal(docs), TotalCountOf) == OverallOf(docs).totalFeedback as real
  {
    PerMealPartition(docs);
  }

  function LikesOf(g: MealGroup): real { g.likeCount as real }

  function DislikesOf(g: MealGroup): real { g.dislikeCount as real }

  /** The like (dislike) counts of the groups of `ks` add up to the liked
      (disliked) records whose key is among `ks`. */
  lemma {:induction false} GroupLikeTotals(docs: seq<FeedbackDoc>, ks: seq<MealKey>)
    ensures Sum(GroupsFor(docs, ks), LikesOf) == KeyCounts(Filter(docs, LikedOf), MealOf, ks) as real
    ensures Sum(GroupsFor(docs, ks), DislikesOf) == KeyCounts(Filter(docs, DislikedOf), MealOf, ks) as real
  {
    if ks != [] {
      var gs := GroupsFor(docs, ks);
      GroupLikeTotals(docs, ks[1..]);
      assert gs[1..] == GroupsFor(docs, ks[1..]);
      assert Sum(gs, LikesOf) == LikesOf(gs[0]) + Sum(gs[1..], LikesOf);
      assert Sum(gs, DislikesOf) == DislikesOf(gs[0]) + Sum(gs[1..], DislikesOf);
      CountFilter(docs, LikedOf, HasKey(MealOf, ks[0]), LikedIn(ks[0]));
      CountFilter(docs, DislikedOf, HasKey(MealOf, ks[0]), DislikedIn(ks[0]));
    }
  }

  /** Each record passing `p` has its meal among the distinct keys, so
      counting it per key counts it once. */
  lemma TallyCover(docs: seq<FeedbackDoc>, p: FeedbackDoc -> bool)
    ensures KeyCounts(Filter(docs, p), MealOf, DistinctKeys(docs, MealOf)) == Count(docs, p)
  {
    var keys := DistinctKeys(docs, MealOf);
    var kept := Filter(docs, p);
    forall i | 0 <= i < |kept| ensures MealOf(kept[i]) in keys {
      assert kept[i] in docs;
    }
    KeysCover(kept, MealOf, keys);
    FilterLength(docs, p);
  }

  /** Every like and every dislike is in exactly one `perMeal` group: the
      groups' counts add up to the `overall` totals. */
  lemma OverallLikesMatchPerMeal(docs: seq<FeedbackDoc>)
    requires docs != []
    ensures Sum(PerMeal(docs), LikesOf) == OverallOf(docs).totalLikes as real
    ensures Sum(PerMeal(docs), DislikesOf) == OverallOf(docs).totalDislikes as real
  {
    GroupLikeTotals(docs, DistinctKeys(docs, MealOf));
    TallyCover(docs, LikedOf);
    TallyCover(docs, DislikedOf);
    SumPermutation(Groups(docs), PerMeal(docs), LikesOf);
    SumPermutation(Groups(docs), PerMeal(docs), DislikesOf);
  }

  const RECENT_LIMIT := 20

  function HasComment(f: FeedbackDoc): bool { f.comment != "" }

  /** recentComments: `find({ comment: { $ne: '' } }).sort({ createdAt: -1 }).limit(20)`. */
  function RecentComments(docs: seq<FeedbackDoc>): (r: seq<FeedbackDoc>)
    ensures |r| <= RECENT_LIMIT
    ensures forall f :: f in r ==> f in docs && f.comment != ""
    ensures multiset(r) <= multiset(docs)
    ensures forall i, j :: 0 <= i < j < |r| ==> r[i].createdAt >= r[j].createdAt
    ensures |r| == if Count(docs, HasComment) < RECENT_LIMIT then Count(docs, HasComment) else RECENT_LIMIT
  {
    var sorted := SortBy(Filter(docs, HasComment), NewestFirst);
    RecentMembers(docs, sorted);
    RecentOrder(docs, sorted);
    Limit(sorted, RECENT_LIMIT)
  }

  /** The first 20 of the sorted commented records come from `docs`, each at
      most as often, and there are 20 of them or all of them. */
  lemma RecentMembers(docs: seq<FeedbackDoc>, sorted: seq<FeedbackDoc>)
    requires sorted == SortBy(Filter(docs, HasComment), NewestFirst)
    ensures forall f :: f in Limit(sorted, RECENT_LIMIT) ==> f in docs && f.comment != ""
    ensures multiset(Limit(sorted, RECENT_LIMIT)) <= multiset(docs)
    ensures |Limit(sorted, RECENT_LIMIT)| == if Count(docs, HasComment) < RECENT_LIMIT then Count(docs, HasComment) else RECENT_LIMIT
  {
    var commented := Filter(docs, HasComment);
    SortByMembers(commented, NewestFirst);
    FilterLength(docs, HasComment);
    LimitElements(sorted, RECENT_LIMIT);
    FilterSubMultiset(docs, HasComment);
    LimitMultiset(commented, sorted, RECENT_LIMIT);
  }

  /** The first 20 of the sorted records are newest first. */
  lemma RecentOrder(docs: seq<FeedbackDoc>, sorted: seq<FeedbackDoc>)
    requires sorted == SortBy(Filter(docs, HasComment), NewestFirst)
    ensures forall i, j :: 0 <= i < j < |Limit(sorted, RECENT_LIMIT)| ==>
      Limit(sorted, RECENT_LIMIT)[i].createdAt >= Limit(sorted, RECENT_LIMIT)[j].createdAt
  {
    LimitSorted(sorted, RECENT_LIMIT, NewestFirst);
    var r := Limit(sorted, RECENT_LIMIT);
    forall i, j | 0 <= i < j < |r| ensures r[i].createdAt >= r[j].createdAt {
      assert NewestFirst(r[i]) <= NewestFirst(r[j]);
    }
  }

  /** The list keeps the newest commented records: a commented record it
      leaves out is no newer than any record it lists. */
  lemma RecentCommentsKeepNewest(docs: seq<FeedbackDoc>, f: FeedbackDoc, i: nat)
    requires f in docs && f.comment != "" && f !in RecentComments(docs) && i < |RecentComments(docs)|
    ensures f.createdAt <= RecentComments(docs)[i].createdAt
  {
    var commented := Filter(docs, HasComment);
    var sorted := SortBy(commented, NewestFirst);
    var r := RecentComments(docs);
    assert r == sorted[..|r|];
    assert f in commented;
    assert f in multiset(sorted);
    var j :| 0 <= j < |sorted| && sorted[j] == f;
    assert j >= |r|;
    assert NewestFirst(sorted[i]) <= NewestFirst(sorted[j]);
  }

  /** With at most 20 commented records, every one of them is listed. */
  lemma RecentCommentsAreNewest(docs: seq<FeedbackDoc>, f: FeedbackDoc)
    requires f in docs && f.comment != ""
    requires Count(docs, HasComment) <= RECENT_LIMIT
    ensures f in RecentComments(docs)
  {
    var commented := Filter(docs, HasComment);
    SortByMembers(commented, NewestFirst);
    FilterLength(docs, HasComment);
  }

  /** The analytics response. */
  datatype Analytics = Analytics(perMeal: seq<MealGroup>, overall: Overall, recentComments: seq<FeedbackDoc>)

  function FeedbackAnalytics(docs: seq<FeedbackDoc>): (r: Analytics)
    ensures r.perMeal == PerMeal(docs) && r.overall == OverallOf(docs) && r.recentComments == RecentComments(docs)
  {
    Analytics(PerMeal(docs), OverallOf(docs), RecentComments(docs))
  }

  /** The Feedback collection. */
  class FeedbackStore {
    var docs: seq<FeedbackDoc>

    ghost predicate Valid()
      reads this
    {
      WellFormed(docs)
    }

    constructor ()
      ensures Valid() && docs == []
    {
      docs := [];
    }

    /** submitFeedback: the two 400 checks, then the upsert, which always
        answers 200 with the saved record. `id` and `now` are what an insert
        would get. */
    method Submit(sid: Id, req: FeedbackRequest, id: Id, now: int) returns (out: Outcome<FeedbackDoc>)
      requires Valid() && id !in KeySet(docs, IdOf)
      modifies this
      ensures Valid()
      ensures Rejection(req).Some? ==> out == Fail(400, Rejection(req).value) && docs == old(docs)
      ensures Rejection(req).None? ==>
        out == Done(Saved(old(docs), sid, req, id, now)) && docs == Upsert(old(docs), sid, req, id, now)
    {
      var rejection := Rejection(req);
      if rejection.Some? {
        return Fail(400, rejection.value);
      }
      var saved := Saved(docs, sid, req, id, now);
      UpsertWellFormed(docs, sid, req, id, now);
      var i := KeyIndex(docs, KeyOf, FeedbackKey(sid, req.day, req.mealType));
      if i >= 0 {
        docs := docs[i := saved];
      } else {
        docs := docs + [saved];
      }
      out := Done(saved);
    }
  }
}
