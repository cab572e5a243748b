/** A user's rating of a store: its validations, and the queries over the
    `store_ratings` table that the store model and the callbacks use. The
    table is a sequence in creation order, oldest first. */
module Ratings {
  import opened Basics

  datatype Rating = Rating(user: UserId, store: StoreId, value: int)

  const MIN_VALUE := 1
  const MAX_VALUE := 5
  const VALUE_RANGE_MESSAGE := "must be between 1 and 5"
  const ALREADY_RATED_MESSAGE := "has already rated this store"
  const OWN_STORE_MESSAGE := "Store owners cannot rate their own stores"

  /** `validates :value, presence: true, inclusion: { in: 1..5 }`: a nil
      value gets both errors, an integer outside 1..5 the range error. */
  function ValueErrors(value: Option<int>): (errs: seq<Error>)
    ensures forall e :: e in errs ==> e.field == Value
    ensures errs == [] <==> value.Some? && MIN_VALUE <= value.value <= MAX_VALUE
    ensures Error(Value, BLANK_MESSAGE) in errs <==> value.None?
    ensures Error(Value, VALUE_RANGE_MESSAGE) in errs <==> errs != []
  {
    (if value.None? then [Error(Value, BLANK_MESSAGE)] else [])
    + (if value.Some? && MIN_VALUE <= value.value <= MAX_VALUE then [] else [Error(Value, VALUE_RANGE_MESSAGE)])
  }

  /** Another row (not the one at position `self`, the record being saved)
      already pairs this user with this store. */
  predicate PairTaken(ratings: seq<Rating>, self: Option<nat>, user: UserId, store: StoreId) {
    exists k :: 0 <= k < |ratings| && Some(k) != self && ratings[k].user == user && ratings[k].store == store
  }

  /** The errors of saving a rating with these attributes, in declaration
      order: the user must exist, the value rule, one rating per (user,
      store), and no rating by the store's own proprietor. `self` is the
      position of the row being updated, `None` for a new one. */
  function RatingErrors(users: set<UserId>, ratings: seq<Rating>, self: Option<nat>,
                        user: UserId, store: StoreId, value: Option<int>, proprietor: UserId)
    : (errs: seq<Error>)
    ensures Error(UserRef, MUST_EXIST_MESSAGE) in errs <==> user !in users
    ensures Error(UserIdField, ALREADY_RATED_MESSAGE) in errs <==> PairTaken(ratings, self, user, store)
    ensures Error(Base, OWN_STORE_MESSAGE) in errs <==> proprietor == user
    ensures errs == [] <==>
            user in users && value.Some? && MIN_VALUE <= value.value <= MAX_VALUE
            && !PairTaken(ratings, self, user, store) && proprietor != user
  {
    (if user in users then [] else [Error(UserRef, MUST_EXIST_MESSAGE)])
    + ValueErrors(value)
    + (if PairTaken(ratings, self, user, store) then [Error(UserIdField, ALREADY_RATED_MESSAGE)] else [])
    + (if proprietor == user then [Error(Base, OWN_STORE_MESSAGE)] else [])
  }

  /** No two rows pair the same user with the same store. */
  ghost predicate UniquePairs(ratings: seq<Rating>) {
    forall i, j :: 0 <= i < |ratings| && 0 <= j < |ratings| && i != j ==>
      ratings[i].user != ratings[j].user || ratings[i].store != ratings[j].store
  }

  /** A row may be saved with (user, store) exactly when no other row holds
      that pair: then the table keeps unique pairs. */
  lemma {:induction false} SaveKeepsUniquePairs(ratings: seq<Rating>, k: nat, r: Rating)
    requires UniquePairs(ratings)
    requires k <= |ratings|
    requires !PairTaken(ratings, if k < |ratings| then Some(k) else None, r.user, r.store)
    ensures UniquePairs(if k < |ratings| then ratings[k := r] else ratings + [r])
  {
    var after := if k < |ratings| then ratings[k := r] else ratings + [r];
    forall i, j | 0 <= i < |after| && 0 <= j < |after| && i != j
      ensures after[i].user != after[j].user || after[i].store != after[j].store
    {
      if i == k {
        assert after[j] == ratings[j];
      } else if j == k {
        assert after[i] == ratings[i];
      } else {
        assert after[i] == ratings[i] && after[j] == ratings[j];
      }
    }
  }

  /** Deleting a row keeps the pairs unique. */
  lemma {:induction false} DeleteKeepsUniquePairs(ratings: seq<Rating>, k: nat)
    requires UniquePairs(ratings) && k < |ratings|
    ensures UniquePairs(ratings[..k] + ratings[k + 1..])
  {
    var after := ratings[..k] + ratings[k + 1..];
    forall i, j | 0 <= i < |after| && 0 <= j < |after| && i != j
      ensures after[i].user != after[j].user || after[i].store != after[j].store
    {
      var i' := if i < k then i else i + 1;
      var j' := if j < k then j else j + 1;
      assert after[i] == ratings[i'] && after[j] == ratings[j'];
    }
  }

  /** `store.store_ratings`: the rows of one store, in creation order. The
      same filter shape as `ByValue` here and the user scopes
      `Users.ByRole` and `Users.ActiveUsers`. */
  function RatingsFor(ratings: seq<Rating>, store: StoreId): (r: seq<Rating>)
    ensures |r| <= |ratings|
    ensures forall i :: 0 <= i < |r| ==> r[i] in ratings && r[i].store == store
    ensures forall i :: 0 <= i < |ratings| && ratings[i].store == store ==> ratings[i] in r
  {
    if ratings == [] then []
    else
      var last := ratings[|ratings| - 1];
      RatingsFor(ratings[..|ratings| - 1], store) + (if last.store == store then [last] else [])
  }

  /** Filtering a concatenation filters each part. */
  lemma {:induction false} RatingsForConcat(a: seq<Rating>, b: seq<Rating>, store: StoreId)
    ensures RatingsFor(a + b, store) == RatingsFor(a, store) + RatingsFor(b, store)
  {
    if b == [] {
      assert a + b == a;
    } else {
      var last := b[|b| - 1];
      assert (a + b)[..|a + b| - 1] == a + b[..|b| - 1];
      RatingsForConcat(a, b[..|b| - 1], store);
    }
  }

  /** The `value` column of some rows. */
  function Values(ratings: seq<Rating>): (vs: seq<int>)
    ensures |vs| == |ratings|
    ensures forall i :: 0 <= i < |ratings| ==> vs[i] == ratings[i].value
  {
    seq(|ratings|, i requires 0 <= i < |ratings| => ratings[i].value)
  }

  function Sum(vs: seq<int>): int {
    if vs == [] then 0 else Sum(vs[..|vs| - 1]) + vs[|vs| - 1]
  }

  /** SQL `AVG(value)`: NULL over no rows, otherwise the exact mean. */
  function Mean(vs: seq<int>): (m: Option<real>)
    ensures m.None? <==> vs == []
  {
    if vs == [] then None else Some(Sum(vs) as real / |vs| as real)
  }

  /** The mean times the number of values is their sum. */
  lemma MeanTimesCount(vs: seq<int>)
    requires vs != []
    ensures Mean(vs).value * (|vs| as real) == Sum(vs) as real
  {
  }

  /** `store.store_ratings.average(:value)`: the mean value of one store's
      rows, or none when it has none. */
  function StoreAverage(ratings: seq<Rating>, store: StoreId): Option<real> {
    Mean(Values(RatingsFor(ratings, store)))
  }

  /** A new row for another store leaves a store's average as it was. */
  lemma AppendKeepsOtherAverage(ratings: seq<Rating>, r: Rating, store: StoreId)
    requires r.store != store
    ensures StoreAverage(ratings + [r], store) == StoreAverage(ratings, store)
  {
    assert (ratings + [r])[..|ratings|] == ratings;
    assert RatingsFor(ratings + [r], store) == RatingsFor(ratings, store);
  }

  /** Taking out, or putting in, a row of another store between two parts of
      the table does not change that store's rows. */
  lemma RowOfOtherStoreIsInvisible(a: seq<Rating>, x: Rating, b: seq<Rating>, store: StoreId)
    requires x.store != store
    ensures RatingsFor(a + [x] + b, store) == RatingsFor(a + b, store)
  {
    RatingsForConcat(a + [x], b, store);
    RatingsForConcat(a, [x], store);
    RatingsForConcat(a, b, store);
    assert RatingsFor([x], store) == [] by {
      assert [x][..0] == [];
    }
  }

  /** Deleting a row of another store leaves a store's average as it was. */
  lemma DeleteKeepsOtherAverage(ratings: seq<Rating>, k: nat, store: StoreId)
    requires k < |ratings| && ratings[k].store != store
    ensures StoreAverage(ratings[..k] + ratings[k + 1..], store) == StoreAverage(ratings, store)
  {
    var a, b := ratings[..k], ratings[k + 1..];
    assert ratings == a + [ratings[k]] + b;
    RowOfOtherStoreIsInvisible(a, ratings[k], b, store);
  }

  /** Replacing a row that neither was nor becomes one of a store's rows
      leaves that store's average as it was. */
  lemma ReplaceKeepsOtherAverage(ratings: seq<Rating>, k: nat, r: Rating, store: StoreId)
    requires k < |ratings| && ratings[k].store != store && r.store != store
    ensures StoreAverage(ratings[k := r], store) == StoreAverage(ratings, store)
  {
    var a, b := ratings[..k], ratings[k + 1..];
    assert ratings == a + [ratings[k]] + b;
    assert ratings[k := r] == a + [r] + b;
    RowOfOtherStoreIsInvisible(a, ratings[k], b, store);
    RowOfOtherStoreIsInvisible(a, r, b, store);
  }

  /** How many of `vs` equal `v`. */
  function Count(vs: seq<int>, v: int): nat {
    if vs == [] then 0 else Count(vs[..|vs| - 1], v) + (if vs[|vs| - 1] == v then 1 else 0)
  }

  /** Scope `recent` with `limit(n)`: the newest `n` rows first (creation
      order stands for `created_at`). */
  function NewestFirst(ratings: seq<Rating>, limit: nat): (r: seq<Rating>)
    ensures |r| == if limit < |ratings| then limit else |ratings|
    ensures forall i :: 0 <= i < |r| ==> r[i] == ratings[|ratings| - 1 - i]
  {
    if limit == 0 || ratings == [] then []
    else [ratings[|ratings| - 1]] + NewestFirst(ratings[..|ratings| - 1], limit - 1)
  }

  /** Scope `by_value`: the rows with exactly this value, in table order. */
  function ByValue(ratings: seq<Rating>, value: int): (r: seq<Rating>)
    ensures |r| == Count(Values(ratings), value)
    ensures forall i :: 0 <= i < |r| ==> r[i] in ratings && r[i].value == value
    ensures forall i :: 0 <= i < |ratings| && ratings[i].value == value ==> ratings[i] in r
  {
    if ratings == [] then []
    else
      var last := ratings[|ratings| - 1];
      assert Values(ratings)[..|ratings| - 1] == Values(ratings[..|ratings| - 1]);
      ByValue(ratings[..|ratings| - 1], value) + (if last.value == value then [last] else [])
  }
}
