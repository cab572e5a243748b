/** The store record: its validations, the one-store-per-proprietor rule,
    the cached average rating that rating saves and deletions keep up to
    date, and the derived reads `rating_statistics` and `highly_rated`. */
module Stores {
  import opened Basics
  import opened Text
  import opened NameRule
  import opened FieldRules
  import opened Ratings

  /** A saved row of the `stores` table. */
  datatype StoreRow = StoreRow(
    name: Option<string>,
    email: Option<string>,
    address: Option<string>,
    proprietor: UserId,
    averageRating: Option<real>)

  const OWNS_DIFFERENT_STORE_MESSAGE := "already owns a different store"
  const RECENT_LIMIT := 5
  const HIGH_RATING := 4

  /** `validates :address, presence: true, length: { maximum: 400 }`; no
      character set check for stores. */
  function StoreAddressErrors(address: Option<string>): (errs: seq<Error>)
    ensures forall e :: e in errs ==> e.field == Address
    ensures errs == [] <==>
            address.Some? && !Blank(address.value) && |address.value| <= MAX_ADDRESS_LENGTH
  {
    PresenceErrors(Address, address) + MaxLengthErrors(Address, address)
  }

  /** The invariant that `unique_proprietor_store` protects. */
  ghost predicate OneStorePerProprietor(stores: map<StoreId, StoreRow>) {
    forall s, t :: s in stores && t in stores && stores[s].proprietor == stores[t].proprietor ==> s == t
  }

  /** `proprietor.owned_store.present? && proprietor.owned_store != self`:
      the proprietor already owns a store other than the one being saved
      (`self` is `None` for a new store). */
  predicate OwnsOtherStore(stores: map<StoreId, StoreRow>, self: Option<StoreId>, proprietor: UserId) {
    exists t :: t in stores && stores[t].proprietor == proprietor && Some(t) != self
  }

  /** `unique_proprietor_store` */
  function ProprietorErrors(stores: map<StoreId, StoreRow>, self: Option<StoreId>, proprietor: UserId)
    : (errs: seq<Error>)
    ensures errs == [] <==>
            forall t :: t in stores && stores[t].proprietor == proprietor ==> Some(t) == self
    ensures errs != [] ==> errs == [Error(Proprietor, OWNS_DIFFERENT_STORE_MESSAGE)]
  {
    if OwnsOtherStore(stores, self, proprietor) then [Error(Proprietor, OWNS_DIFFERENT_STORE_MESSAGE)] else []
  }

  /** Re-validating a store with its own proprietor succeeds. */
  lemma RevalidateOwnStore(stores: map<StoreId, StoreRow>, s: StoreId)
    requires OneStorePerProprietor(stores) && s in stores
    ensures ProprietorErrors(stores, Some(s), stores[s].proprietor) == []
  {
    forall t | t in stores && stores[t].proprietor == stores[s].proprietor
      ensures Some(t) == Some(s)
    {
    }
  }

  /** A proprietor who owns a store cannot be given a second one. */
  lemma SecondStoreRefused(stores: map<StoreId, StoreRow>, self: Option<StoreId>, t: StoreId)
    requires t in stores && self != Some(t)
    ensures ProprietorErrors(stores, self, stores[t].proprietor)
            == [Error(Proprietor, OWNS_DIFFERENT_STORE_MESSAGE)]
  {
    assert OwnsOtherStore(stores, self, stores[t].proprietor);
  }

  /** Saving a row that passed the proprietor check, as a new store `id` or
      over the row `id` itself, keeps one store per proprietor. */
  lemma {:induction false} SaveKeepsOneStorePerProprietor(
    stores: map<StoreId, StoreRow>, id: StoreId, row: StoreRow)
    requires OneStorePerProprietor(stores)
    requires ProprietorErrors(stores, if id in stores then Some(id) else None, row.proprietor) == []
    ensures OneStorePerProprietor(stores[id := row])
  {
    var after := stores[id := row];
    forall s, t | s in after && t in after && after[s].proprietor == after[t].proprietor
      ensures s == t
    {
    }
  }

  /** The emails of the other saved stores. */
  function OtherEmails(stores: map<StoreId, StoreRow>, self: Option<StoreId>): set<Option<string>> {
    set t | t in stores && Some(t) != self :: stores[t].email
  }

  /** All validations of a store, in declaration order: the name rule,
      email, address, and the proprietor rule. A store is valid exactly
      when every rule passes. */
  function StoreErrors(stores: map<StoreId, StoreRow>, self: Option<StoreId>,
                       name: Option<string>, email: Option<string>, address: Option<string>,
                       proprietor: UserId, emailFormat: string -> bool)
    : (errs: seq<Error>)
    ensures forall e :: e in errs ==> e.field in {Name, Email, Address, Proprietor}
    ensures errs == [] <==>
            (BlankValue(name)
             || (MIN_NAME_LENGTH <= |name.value| <= MAX_NAME_LENGTH && NameFormatMatches(name.value)))
            && !BlankValue(email) && !EmailTaken(email, OtherEmails(stores, self)) && emailFormat(ToS(email))
            && address.Some? && !Blank(address.value) && |address.value| <= MAX_ADDRESS_LENGTH
            && !OwnsOtherStore(stores, self, proprietor)
  {
    NameErrors(name) + EmailErrors(email, OtherEmails(stores, self), emailFormat)
    + StoreAddressErrors(address) + ProprietorErrors(stores, self, proprietor)
  }

  /** Every store's cached `average_rating` is the mean of its ratings. */
  ghost predicate AveragesCurrent(stores: map<StoreId, StoreRow>, ratings: seq<Rating>) {
    forall s {:trigger StoreAverage(ratings, s)} :: s in stores ==> stores[s].averageRating == StoreAverage(ratings, s)
  }

  /** No row is a rating of a store by that store's proprietor. */
  ghost predicate NoSelfRatings(stores: map<StoreId, StoreRow>, ratings: seq<Rating>) {
    forall k :: 0 <= k < |ratings| && ratings[k].store in stores ==>
      ratings[k].user != stores[ratings[k].store].proprietor
  }

  /** `update_store_average_rating` for one store: its cached average
      becomes the mean of its current ratings; nothing else changes. */
  function RefreshAverage(stores: map<StoreId, StoreRow>, ratings: seq<Rating>, s: StoreId)
    : (after: map<StoreId, StoreRow>)
    requires s in stores
    ensures after.Keys == stores.Keys
    ensures after[s] == stores[s].(averageRating := StoreAverage(ratings, s))
    ensures forall t :: t in stores && t != s ==> after[t] == stores[t]
  {
    stores[s := stores[s].(averageRating := StoreAverage(ratings, s))]
  }

  /** When a change to the ratings could only have affected store `s`,
      refreshing `s` makes every cached average current again. */
  lemma RefreshRestoresAverages(stores: map<StoreId, StoreRow>, ratings: seq<Rating>, s: StoreId)
    requires s in stores
    requires forall t :: t in stores && t != s ==> stores[t].averageRating == StoreAverage(ratings, t)
    ensures AveragesCurrent(RefreshAverage(stores, ratings, s), ratings)
  {
  }

  /** The callback as written, after an update of a rating: it refreshes
      only the store the saved row now belongs to. */
  function AfterUpdateAsWritten(stores: map<StoreId, StoreRow>, ratings: seq<Rating>, saved: Rating)
    : (after: map<StoreId, StoreRow>)
    requires saved.store in stores
    ensures after.Keys == stores.Keys
    ensures after[saved.store].averageRating == StoreAverage(ratings, saved.store)
    ensures forall t :: t in stores && t != saved.store ==> after[t] == stores[t]
  {
    RefreshAverage(stores, ratings, saved.store)
  }

  /** When an update moves a rating to another store, the callback as
      written leaves the old store's cached average stale: store 0 keeps
      the average 5 although it has no ratings left. */
  lemma MovedRatingLeavesStaleAverage()
    ensures var stores := map[0 := StoreRow(None, None, None, 10, Some(5.0)),
                              1 := StoreRow(None, None, None, 11, None)];
            var before := [Rating(20, 0, 5)];
            var after := before[0 := Rating(20, 1, 5)];
            AveragesCurrent(stores, before)
            && !AveragesCurrent(AfterUpdateAsWritten(stores, after, after[0]), after)
  {
    var stores := map[0 := StoreRow(None, None, None, 10, Some(5.0)),
                      1 := StoreRow(None, None, None, 11, None)];
    var before := [Rating(20, 0, 5)];
    var after := before[0 := Rating(20, 1, 5)];
    assert RatingsFor(before, 0) == before by { assert before[..0] == []; }
    assert RatingsFor(before, 1) == [] by { assert before[..0] == []; }
    assert Values(before) == [5];
    assert RatingsFor(after, 0) == [] by { assert after[..0] == []; }
    assert StoreAverage(before, 0) == Some(5.0) && StoreAverage(before, 1) == None;
    assert StoreAverage(after, 0) == None;
    assert AfterUpdateAsWritten(stores, after, after[0])[0].averageRating == Some(5.0);
  }

  /** The callback as intended, after an update of a rating: both the store
      the row was in and the store it is in now are refreshed. */
  function AfterUpdate(stores: map<StoreId, StoreRow>, ratings: seq<Rating>, previous: Rating, saved: Rating)
    : (after: map<StoreId, StoreRow>)
    requires previous.store in stores && saved.store in stores
    ensures after.Keys == stores.Keys
    ensures forall t :: t in stores ==> after[t] == stores[t].(averageRating := after[t].averageRating)
    ensures after[previous.store].averageRating == StoreAverage(ratings, previous.store)
    ensures after[saved.store].averageRating == StoreAverage(ratings, saved.store)
    ensures forall t :: t in stores && t != previous.store && t != saved.store ==> after[t] == stores[t]
  {
    RefreshAverage(RefreshAverage(stores, ratings, previous.store), ratings, saved.store)
  }

  /** Updating row `k` and refreshing both affected stores keeps every
      cached average current. */
  lemma UpdateKeepsAveragesCurrent(stores: map<StoreId, StoreRow>, ratings: seq<Rating>, k: nat, r: Rating)
    requires AveragesCurrent(stores, ratings)
    requires k < |ratings| && ratings[k].store in stores && r.store in stores
    ensures AveragesCurrent(AfterUpdate(stores, ratings[k := r], ratings[k], r), ratings[k := r])
  {
    var after := ratings[k := r];
    var mid := RefreshAverage(stores, after, ratings[k].store);
    forall t | t in mid && t != r.store
      ensures mid[t].averageRating == StoreAverage(after, t)
    {
      if t != ratings[k].store {
        ReplaceKeepsOtherAverage(ratings, k, r, t);
      }
    }
    RefreshRestoresAverages(mid, after, r.store);
  }

  /** Creating a rating and refreshing its store keeps every cached
      average current. */
  lemma CreateKeepsAveragesCurrent(stores: map<StoreId, StoreRow>, ratings: seq<Rating>, r: Rating)
    requires AveragesCurrent(stores, ratings) && r.store in stores
    ensures AveragesCurrent(RefreshAverage(stores, ratings + [r], r.store), ratings + [r])
  {
    forall t | t in stores && t != r.store
      ensures stores[t].averageRating == StoreAverage(ratings + [r], t)
    {
      AppendKeepsOtherAverage(ratings, r, t);
    }
    RefreshRestoresAverages(stores, ratings + [r], r.store);
  }

  /** Deleting row `k` and refreshing its store keeps every cached average
      current. */
  lemma DeleteKeepsAveragesCurrent(stores: map<StoreId, StoreRow>, ratings: seq<Rating>, k: nat)
    requires AveragesCurrent(stores, ratings) && k < |ratings| && ratings[k].store in stores
    ensures AveragesCurrent(RefreshAverage(stores, ratings[..k] + ratings[k + 1..], ratings[k].store),
                            ratings[..k] + ratings[k + 1..])
  {
    var after := ratings[..k] + ratings[k + 1..];
    forall t | t in stores && t != ratings[k].store
      ensures stores[t].averageRating == StoreAverage(after, t)
    {
      DeleteKeepsOtherAverage(ratings, k, t);
    }
    RefreshRestoresAverages(stores, after, ratings[k].store);
  }

  /** Users `u` and `v`, neither of them the proprietor, rate store `s` of a
      table without ratings with 3 and 5: both ratings pass validation, and
      after each is saved and the callback runs, the cached average is 4.0.
      The row valued 5 is then destroyed and the callback runs: the cached
      average is 3.0. */
  lemma AverageScenario(stores: map<StoreId, StoreRow>, s: StoreId, u: UserId, v: UserId)
    requires s in stores && u != v
    requires stores[s].proprietor != u && stores[s].proprietor != v
    ensures RatingErrors({u, v}, [], None, u, s, Some(3), stores[s].proprietor) == []
    ensures RatingErrors({u, v}, [Rating(u, s, 3)], None, v, s, Some(5), stores[s].proprietor) == []
    ensures var t1 := [Rating(u, s, 3)];
            var t2 := t1 + [Rating(v, s, 5)];
            var t3 := t2[..1] + t2[2..];
            var m2 := RefreshAverage(RefreshAverage(stores, t1, s), t2, s);
            m2[s].averageRating == Some(4.0)
            && RefreshAverage(m2, t3, s)[s].averageRating == Some(3.0)
  {
    var t1 := [Rating(u, s, 3)];
    var t2 := t1 + [Rating(v, s, 5)];
    var t3 := t2[..1] + t2[2..];
    assert t2[..1] == t1 && t1[..0] == [];
    assert RatingsFor(t1, s) == t1;
    assert RatingsFor(t2, s) == t2;
    assert Values(t2) == [3, 5];
    assert Sum([3, 5]) == 8 by { assert [3, 5][..1] == [3] && [3][..0] == []; }
    assert StoreAverage(t2, s) == Some(4.0);
    assert t3 == t1;
    assert Values(t1) == [3];
    assert Sum([3]) == 3 by { assert [3][..0] == []; }
    assert StoreAverage(t1, s) == Some(3.0);
  }

  /** `rating_statistics` */
  datatype Statistics = Statistics(
    average: real,
    totalRatings: nat,
    ratingDistribution: map<int, nat>,
    recentRatings: seq<Rating>)

  /** `group(:value).count`: each value that occurs, with its number of
      occurrences. */
  function Distribution(vs: seq<int>): (d: map<int, nat>)
    ensures forall v :: v in d <==> v in vs
    ensures forall v :: v in d ==> d[v] == Count(vs, v) > 0
  {
    var d := map v | v in vs :: Count(vs, v);
    assert forall v :: v in d ==> d[v] > 0 by {
      forall v | v in d ensures d[v] > 0 {
        if Count(vs, v) == 0 { CountZeroAbsent(vs, v); }
      }
    }
    d
  }

  /** The count of a value that does not occur is zero. */
  lemma {:induction false} CountAbsent(vs: seq<int>, v: int)
    requires v !in vs
    ensures Count(vs, v) == 0
  {
    if vs != [] {
      assert forall x :: x in vs[..|vs| - 1] ==> x in vs;
      CountAbsent(vs[..|vs| - 1], v);
    }
  }

  /** The counts of the values lo, ..., hi - 1 added up. */
  function CountRange(vs: seq<int>, lo: int, hi: int): nat
    decreases hi - lo
  {
    if lo >= hi then 0 else Count(vs, lo) + CountRange(vs, lo + 1, hi)
  }

  /** The histogram entries for lo, ..., hi - 1 added up. */
  function HistogramTotal(d: map<int, nat>, lo: int, hi: int): nat
    decreases hi - lo
  {
    if lo >= hi then 0 else (if lo in d then d[lo] else 0) + HistogramTotal(d, lo + 1, hi)
  }

  lemma {:induction false} HistogramIsCountRange(vs: seq<int>, lo: int, hi: int)
    ensures HistogramTotal(Distribution(vs), lo, hi) == CountRange(vs, lo, hi)
    decreases hi - lo
  {
    if lo < hi {
      if lo !in vs {
        CountAbsent(vs, lo);
      }
      HistogramIsCountRange(vs, lo + 1, hi);
    }
  }

  lemma {:induction false} CountRangeAppend(vs: seq<int>, x: int, lo: int, hi: int)
    ensures CountRange(vs + [x], lo, hi) == CountRange(vs, lo, hi) + (if lo <= x < hi then 1 else 0)
    decreases hi - lo
  {
    assert (vs + [x])[..|vs|] == vs;
    if lo < hi {
      CountRangeAppend(vs, x, lo + 1, hi);
    }
  }

  /** When every value lies in lo..hi - 1, the counts add up to the number
      of values. */
  lemma {:induction false} CountRangeCoversAll(vs: seq<int>, lo: int, hi: int)
    requires forall i :: 0 <= i < |vs| ==> lo <= vs[i] < hi
    ensures CountRange(vs, lo, hi) == |vs|
  {
    if vs == [] {
      CountRangeIsZero(lo, hi);
    } else {
      var init := vs[..|vs| - 1];
      assert vs == init + [vs[|vs| - 1]];
      CountRangeCoversAll(init, lo, hi);
      CountRangeAppend(init, vs[|vs| - 1], lo, hi);
    }
  }

  lemma {:induction false} CountRangeIsZero(lo: int, hi: int)
    ensures CountRange([], lo, hi) == 0
    decreases hi - lo
  {
    if lo < hi {
      CountRangeIsZero(lo + 1, hi);
    }
  }

  /** `rating_statistics`: the exact mean (0 when there are no ratings), the
      number of ratings, the histogram of values, and the five newest
      ratings, newest first. */
  function RatingStatistics(ratings: seq<Rating>, store: StoreId): (st: Statistics)
    ensures st.totalRatings == |RatingsFor(ratings, store)|
    ensures st.totalRatings == 0 ==> st.average == 0.0
    ensures st.totalRatings > 0 ==>
            st.average * (st.totalRatings as real) == Sum(Values(RatingsFor(ratings, store))) as real
    ensures forall v :: v in st.ratingDistribution <==> v in Values(RatingsFor(ratings, store))
    ensures forall v :: v in st.ratingDistribution ==>
              st.ratingDistribution[v] == Count(Values(RatingsFor(ratings, store)), v) > 0
    ensures |st.recentRatings| <= RECENT_LIMIT && |st.recentRatings| <= st.totalRatings
    ensures |st.recentRatings| == RECENT_LIMIT || |st.recentRatings| == st.totalRatings
    ensures forall i :: 0 <= i < |st.recentRatings| ==>
              st.recentRatings[i] == RatingsFor(ratings, store)[st.totalRatings - 1 - i]
  {
    var own := RatingsFor(ratings, store);
    var vs := Values(own);
    if vs == [] then Statistics(0.0, 0, Distribution(vs), NewestFirst(own, RECENT_LIMIT))
    else
      MeanTimesCount(vs);
      Statistics(Mean(vs).value, |own|, Distribution(vs), NewestFirst(own, RECENT_LIMIT))
  }

  /** A value with count zero does not occur. */
  lemma {:induction false} CountZeroAbsent(vs: seq<int>, v: int)
    requires Count(vs, v) == 0
    ensures v !in vs
  {
    if vs != [] {
      CountZeroAbsent(vs[..|vs| - 1], v);
      assert vs == vs[..|vs| - 1] + [vs[|vs| - 1]];
    }
  }

  /** With values in 1..5, the histogram's counts add up to the total. */
  lemma DistributionSumsToTotal(ratings: seq<Rating>, store: StoreId)
    requires forall k :: 0 <= k < |ratings| ==> MIN_VALUE <= ratings[k].value <= MAX_VALUE
    ensures var st := RatingStatistics(ratings, store);
            HistogramTotal(st.ratingDistribution, MIN_VALUE, MAX_VALUE + 1) == st.totalRatings
  {
    var vs := Values(RatingsFor(ratings, store));
    HistogramIsCountRange(vs, MIN_VALUE, MAX_VALUE + 1);
    CountRangeCoversAll(vs, MIN_VALUE, MAX_VALUE + 1);
  }

  /** A mean of at least 4 over n > 0 values is a sum of at least 4n. */
  lemma MeanAtLeastHigh(m: real, n: nat, total: int)
    requires n > 0 && m * (n as real) == total as real
    ensures m >= HIGH_RATING as real <==> total >= HIGH_RATING * n
  {
    var nr := n as real;
    if m >= HIGH_RATING as real {
      assert (m - HIGH_RATING as real) * nr >= 0.0;
    } else {
      assert (HIGH_RATING as real - m) * nr > 0.0;
    }
  }

  /** The integer test of `highly_rated` is the test on the exact mean. */
  lemma HighlyRatedTest(ratings: seq<Rating>, s: StoreId)
    ensures (|RatingsFor(ratings, s)| > 0
             && Sum(Values(RatingsFor(ratings, s))) >= HIGH_RATING * |RatingsFor(ratings, s)|)
            <==> StoreAverage(ratings, s).Some? && StoreAverage(ratings, s).value >= HIGH_RATING as real
  {
    var vs := Values(RatingsFor(ratings, s));
    if |vs| > 0 {
      MeanTimesCount(vs);
      MeanAtLeastHigh(Mean(vs).value, |vs|, Sum(vs));
    }
  }

  /** Scope `highly_rated`: the stores that have ratings and whose average
      is at least 4.0, decided as in SQL with integer sums. */
  function HighlyRated(stores: map<StoreId, StoreRow>, ratings: seq<Rating>): (r: set<StoreId>)
    ensures forall s :: s in r <==>
              s in stores && StoreAverage(ratings, s).Some?
              && StoreAverage(ratings, s).value >= HIGH_RATING as real
  {
    forall s ensures (|RatingsFor(ratings, s)| > 0
                      && Sum(Values(RatingsFor(ratings, s))) >= HIGH_RATING * |RatingsFor(ratings, s)|)
                     <==> StoreAverage(ratings, s).Some? && StoreAverage(ratings, s).value >= HIGH_RATING as real {
      HighlyRatedTest(ratings, s);
    }
    set s | s in stores
            && |RatingsFor(ratings, s)| > 0
            && Sum(Values(RatingsFor(ratings, s))) >= HIGH_RATING * |RatingsFor(ratings, s)|
  }
}
