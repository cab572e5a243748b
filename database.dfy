/** The three tables the models persist to, and the save and destroy
    operations that validate a record before writing it. Creating or
    destroying a rating runs the average-rating callback on the store it
    belongs to; updating a rating runs the corrected callback, which also
    refreshes the store the rating left. */
module Database {
  import opened Basics
  import opened Users
  import opened Ratings
  import opened Stores

  /** Saved users below the next id, each with the email it holds. */
  type UserTable = map<UserId, Option<string>>

  /** Every row refers to saved records and has a value in range. */
  ghost predicate RowsWellFormed(users: UserTable, stores: map<StoreId, StoreRow>, ratings: seq<Rating>) {
    forall k :: 0 <= k < |ratings| ==>
      ratings[k].store in stores && ratings[k].user in users
      && MIN_VALUE <= ratings[k].value <= MAX_VALUE
  }

  /** Every store is below the next id and belongs to a saved user. */
  ghost predicate StoresWellFormed(users: UserTable, stores: map<StoreId, StoreRow>, nextStoreId: nat) {
    forall s :: s in stores ==> s < nextStoreId && stores[s].proprietor in users
  }

  /** The invariant of the three tables: references hold, one store per
      proprietor, one rating per (user, store), and every cached average is
      current. */
  ghost predicate Consistent(users: UserTable, stores: map<StoreId, StoreRow>, ratings: seq<Rating>,
                             nextUserId: nat, nextStoreId: nat) {
    && (forall u :: u in users ==> u < nextUserId)
    && StoresWellFormed(users, stores, nextStoreId)
    && OneStorePerProprietor(stores)
    && RowsWellFormed(users, stores, ratings)
    && UniquePairs(ratings)
    && AveragesCurrent(stores, ratings)
  }

  /** The row references depend only on which stores are saved. */
  lemma RowsWellFormedSameKeys(users: UserTable, stores: map<StoreId, StoreRow>,
                               stores': map<StoreId, StoreRow>, ratings: seq<Rating>)
    requires RowsWellFormed(users, stores, ratings) && stores'.Keys == stores.Keys
    ensures RowsWellFormed(users, stores', ratings)
  {
  }

  /** The store references depend only on which stores are saved and on
      their proprietors. */
  lemma StoresWellFormedSameOwners(users: UserTable, stores: map<StoreId, StoreRow>,
                                   stores': map<StoreId, StoreRow>, nextStoreId: nat)
    requires StoresWellFormed(users, stores, nextStoreId) && stores'.Keys == stores.Keys
    requires forall t :: t in stores' ==> stores'[t].proprietor == stores[t].proprietor
    ensures StoresWellFormed(users, stores', nextStoreId)
    ensures OneStorePerProprietor(stores) ==> OneStorePerProprietor(stores')
  {
  }

  /** Appending a row that refers to saved records keeps the references. */
  lemma AppendKeepsRowsWellFormed(users: UserTable, stores: map<StoreId, StoreRow>, ratings: seq<Rating>, r: Rating)
    requires RowsWellFormed(users, stores, ratings)
    requires r.store in stores && r.user in users && MIN_VALUE <= r.value <= MAX_VALUE
    ensures RowsWellFormed(users, stores, ratings + [r])
  {
    var rows := ratings + [r];
    forall i | 0 <= i < |rows|
      ensures rows[i].store in stores && rows[i].user in users && MIN_VALUE <= rows[i].value <= MAX_VALUE
    {
      if i < |ratings| { assert rows[i] == ratings[i]; }
    }
  }

  /** Replacing a row by one that refers to saved records keeps the references. */
  lemma ReplaceKeepsRowsWellFormed(users: UserTable, stores: map<StoreId, StoreRow>, ratings: seq<Rating>,
                                   k: nat, r: Rating)
    requires RowsWellFormed(users, stores, ratings) && k < |ratings|
    requires r.store in stores && r.user in users && MIN_VALUE <= r.value <= MAX_VALUE
    ensures RowsWellFormed(users, stores, ratings[k := r])
  {
    var rows := ratings[k := r];
    forall i | 0 <= i < |rows|
      ensures rows[i].store in stores && rows[i].user in users && MIN_VALUE <= rows[i].value <= MAX_VALUE
    {
      if i != k { assert rows[i] == ratings[i]; }
    }
  }

  /** Deleting a row keeps the references of the others. */
  lemma DeleteKeepsRowsWellFormed(users: UserTable, stores: map<StoreId, StoreRow>, ratings: seq<Rating>, k: nat)
    requires RowsWellFormed(users, stores, ratings) && k < |ratings|
    ensures RowsWellFormed(users, stores, ratings[..k] + ratings[k + 1..])
  {
    var rows := ratings[..k] + ratings[k + 1..];
    forall i | 0 <= i < |rows|
      ensures rows[i].store in stores && rows[i].user in users && MIN_VALUE <= rows[i].value <= MAX_VALUE
    {
      assert rows[i] == ratings[if i < k then i else i + 1];
    }
  }

  /** Creating a valid rating keeps the tables consistent. */
  lemma CreateRatingKeepsConsistent(users: UserTable, stores: map<StoreId, StoreRow>, ratings: seq<Rating>,
                                    nextUserId: nat, nextStoreId: nat, r: Rating)
    requires Consistent(users, stores, ratings, nextUserId, nextStoreId)
    requires r.store in stores && r.user in users && MIN_VALUE <= r.value <= MAX_VALUE
    requires !PairTaken(ratings, None, r.user, r.store)
    ensures Consistent(users, RefreshAverage(stores, ratings + [r], r.store), ratings + [r],
                       nextUserId, nextStoreId)
  {
    var rows := ratings + [r];
    var after := RefreshAverage(stores, rows, r.store);
    StoresWellFormedSameOwners(users, stores, after, nextStoreId);
    AppendKeepsRowsWellFormed(users, stores, ratings, r);
    RowsWellFormedSameKeys(users, stores, after, rows);
    SaveKeepsUniquePairs(ratings, |ratings|, r);
    CreateKeepsAveragesCurrent(stores, ratings, r);
  }

  /** Updating row `k` with a valid rating keeps the tables consistent. */
  lemma UpdateRatingKeepsConsistent(users: UserTable, stores: map<StoreId, StoreRow>, ratings: seq<Rating>,
                                    nextUserId: nat, nextStoreId: nat, k: nat, r: Rating)
    requires Consistent(users, stores, ratings, nextUserId, nextStoreId)
    requires k < |ratings|
    requires r.store in stores && r.user in users && MIN_VALUE <= r.value <= MAX_VALUE
    requires !PairTaken(ratings, Some(k), r.user, r.store)
    ensures ratings[k].store in stores
    ensures Consistent(users, AfterUpdate(stores, ratings[k := r], ratings[k], r), ratings[k := r],
                       nextUserId, nextStoreId)
  {
    var rows := ratings[k := r];
    var after := AfterUpdate(stores, rows, ratings[k], r);
    StoresWellFormedSameOwners(users, stores, after, nextStoreId);
    ReplaceKeepsRowsWellFormed(users, stores, ratings, k, r);
    RowsWellFormedSameKeys(users, stores, after, rows);
    SaveKeepsUniquePairs(ratings, k, r);
    UpdateKeepsAveragesCurrent(stores, ratings, k, r);
  }

  /** Destroying row `k` keeps the tables consistent. */
  lemma DestroyRatingKeepsConsistent(users: UserTable, stores: map<StoreId, StoreRow>, ratings: seq<Rating>,
                                     nextUserId: nat, nextStoreId: nat, k: nat)
    requires Consistent(users, stores, ratings, nextUserId, nextStoreId)
    requires k < |ratings|
    ensures ratings[k].store in stores
    ensures Consistent(users, RefreshAverage(stores, ratings[..k] + ratings[k + 1..], ratings[k].store),
                       ratings[..k] + ratings[k + 1..], nextUserId, nextStoreId)
  {
    var rows := ratings[..k] + ratings[k + 1..];
    var after := RefreshAverage(stores, rows, ratings[k].store);
    StoresWellFormedSameOwners(users, stores, after, nextStoreId);
    DeleteKeepsRowsWellFormed(users, stores, ratings, k);
    RowsWellFormedSameKeys(users, stores, after, rows);
    DeleteKeepsUniquePairs(ratings, k);
    DeleteKeepsAveragesCurrent(stores, ratings, k);
  }

  /** No rating belongs to a store id that is not saved. */
  lemma UnsavedStoreHasNoRatings(users: UserTable, stores: map<StoreId, StoreRow>, ratings: seq<Rating>, id: StoreId)
    requires RowsWellFormed(users, stores, ratings) && id !in stores
    ensures StoreAverage(ratings, id) == None
  {
  }

  /** Saving a store that passed validation keeps the tables consistent. */
  lemma SaveStoreKeepsConsistent(users: UserTable, stores: map<StoreId, StoreRow>, ratings: seq<Rating>,
                                 nextUserId: nat, nextStoreId: nat, id: StoreId, row: StoreRow)
    requires Consistent(users, stores, ratings, nextUserId, nextStoreId)
    requires row.proprietor in users
    requires id in stores || id == nextStoreId
    requires id in stores ==> row.averageRating == stores[id].averageRating
    requires id !in stores ==> row.averageRating == None
    requires ProprietorErrors(stores, if id in stores then Some(id) else None, row.proprietor) == []
    ensures Consistent(users, stores[id := row], ratings, nextUserId,
                       if id in stores then nextStoreId else nextStoreId + 1)
  {
    SaveKeepsOneStorePerProprietor(stores, id, row);
    if id !in stores {
      UnsavedStoreHasNoRatings(users, stores, ratings, id);
    }
  }

  /** A new rating that is not by its store's proprietor keeps the table
      free of self-ratings. */
  lemma CreateKeepsNoSelfRatings(stores: map<StoreId, StoreRow>, ratings: seq<Rating>, r: Rating)
    requires NoSelfRatings(stores, ratings) && r.store in stores && r.user != stores[r.store].proprietor
    ensures NoSelfRatings(RefreshAverage(stores, ratings + [r], r.store), ratings + [r])
  {
    var after := RefreshAverage(stores, ratings + [r], r.store);
    forall k | 0 <= k < |ratings + [r]| && (ratings + [r])[k].store in after
      ensures (ratings + [r])[k].user != after[(ratings + [r])[k].store].proprietor
    {
      if k < |ratings| { assert (ratings + [r])[k] == ratings[k]; }
    }
  }

  /** Updating a row to one not by its store's proprietor keeps the table
      free of self-ratings. */
  lemma UpdateKeepsNoSelfRatings(stores: map<StoreId, StoreRow>, ratings: seq<Rating>, k: nat, r: Rating)
    requires NoSelfRatings(stores, ratings) && k < |ratings|
    requires ratings[k].store in stores && r.store in stores && r.user != stores[r.store].proprietor
    ensures NoSelfRatings(AfterUpdate(stores, ratings[k := r], ratings[k], r), ratings[k := r])
  {
  }

  /** Deleting a row keeps the table free of self-ratings. */
  lemma DestroyKeepsNoSelfRatings(stores: map<StoreId, StoreRow>, ratings: seq<Rating>, k: nat)
    requires NoSelfRatings(stores, ratings) && k < |ratings| && ratings[k].store in stores
    ensures NoSelfRatings(RefreshAverage(stores, ratings[..k] + ratings[k + 1..], ratings[k].store),
                          ratings[..k] + ratings[k + 1..])
  {
    var after := ratings[..k] + ratings[k + 1..];
    var refreshed := RefreshAverage(stores, after, ratings[k].store);
    forall i | 0 <= i < |after| && after[i].store in refreshed
      ensures after[i].user != refreshed[after[i].store].proprietor
    {
      assert after[i] == ratings[if i < k then i else i + 1];
    }
  }

  class Db {
    /** Saved users, with the email each holds. */
    var users: UserTable
    var stores: map<StoreId, StoreRow>
    /** The `store_ratings` table, oldest row first. */
    var ratings: seq<Rating>
    var nextUserId: nat
    var nextStoreId: nat

    ghost predicate Valid()
      reads this
    {
      Consistent(users, stores, ratings, nextUserId, nextStoreId)
    }

    constructor ()
      ensures Valid()
      ensures users == map[] && stores == map[] && ratings == []
    {
      users, stores, ratings := map[], map[], [];
      nextUserId, nextStoreId := 0, 0;
    }

    /** `user.save` for a new user: validated against the emails of the
        saved users, then inserted under a fresh id. */
    method CreateUser(u: User, emailFormat: string -> bool) returns (errs: seq<Error>, id: UserId)
      requires Valid()
      modifies this`users, this`nextUserId
      ensures Valid()
      ensures errs == u.ValidationErrors(old(users).Values, emailFormat)
      ensures errs == [] ==> id == old(nextUserId) && id !in old(users)
                             && users == old(users)[id := u.email] && nextUserId == id + 1
      ensures errs != [] ==> users == old(users) && nextUserId == old(nextUserId)
    {
      errs := u.ValidationErrors(users.Values, emailFormat);
      id := nextUserId;
      if errs == [] {
        users := users[id := u.email];
        nextUserId := nextUserId + 1;
      }
    }

    /** `store.save`, for a new store (`self` is `None`) or over the saved
        store `self`. The proprietor must be a saved user: the proprietor
        rule dereferences it. A saved store keeps its cached average; a new
        one has none. */
    method SaveStore(self: Option<StoreId>, name: Option<string>, email: Option<string>,
                     address: Option<string>, proprietor: UserId, emailFormat: string -> bool)
      returns (errs: seq<Error>, id: StoreId)
      requires Valid()
      requires proprietor in users
      requires self.Some? ==> self.value in stores
      modifies this`stores, this`nextStoreId
      ensures Valid()
      ensures errs == StoreErrors(old(stores), self, name, email, address, proprietor, emailFormat)
      ensures errs == [] && self.None? ==>
                id == old(nextStoreId) && id !in old(stores) && nextStoreId == id + 1
                && stores == old(stores)[id := StoreRow(name, email, address, proprietor, None)]
      ensures errs == [] && self.Some? ==>
                id == self.value && nextStoreId == old(nextStoreId)
                && stores == old(stores)[id := StoreRow(name, email, address, proprietor,
                                                         old(stores)[id].averageRating)]
      ensures errs != [] ==> stores == old(stores) && nextStoreId == old(nextStoreId)
    {
      errs := StoreErrors(stores, self, name, email, address, proprietor, emailFormat);
      id := if self.Some? then self.value else nextStoreId;
      if errs == [] {
        var average := if self.Some? then stores[id].averageRating else None;
        var row := StoreRow(name, email, address, proprietor, average);
        SaveStoreKeepsConsistent(users, stores, ratings, nextUserId, nextStoreId, id, row);
        if self.None? {
          nextStoreId := nextStoreId + 1;
        }
        stores := stores[id := row];
      }
    }

    /** A new rating row: validated, inserted, then the callback refreshes
        its store's cached average. On any error nothing changes. */
    method CreateRating(user: UserId, store: StoreId, value: Option<int>) returns (errs: seq<Error>)
      requires Valid()
      requires store in stores
      modifies this`ratings, this`stores
      ensures Valid()
      ensures errs == RatingErrors(users.Keys, old(ratings), None, user, store, value,
                                   old(stores)[store].proprietor)
      ensures errs == [] ==>
                ratings == old(ratings) + [Rating(user, store, value.value)]
                && stores == RefreshAverage(old(stores), ratings, store)
      ensures errs != [] ==> ratings == old(ratings) && stores == old(stores)
      ensures NoSelfRatings(old(stores), old(ratings)) ==> NoSelfRatings(stores, ratings)
    {
      errs := RatingErrors(users.Keys, ratings, None, user, store, value, stores[store].proprietor);
      if errs == [] {
        var r := Rating(user, store, value.value);
        CreateRatingKeepsConsistent(users, stores, ratings, nextUserId, nextStoreId, r);
        if NoSelfRatings(stores, ratings) {
          CreateKeepsNoSelfRatings(stores, ratings, r);
        }
        ratings := ratings + [r];
        stores := RefreshAverage(stores, ratings, store);
      }
    }

    /** Saving the rating at row `k` with new attributes: validated with
        that row excluded from the uniqueness check, then written in place.
        The source's callback then refreshes only the store the row now
        belongs to, which leaves a stale average when the row changes store
        (see `Stores.MovedRatingLeavesStaleAverage`). This operation runs
        the corrected callback `Stores.AfterUpdate` instead, which refreshes
        both the store the row left and the store it joined. */
    method UpdateRating(k: nat, user: UserId, store: StoreId, value: Option<int>) returns (errs: seq<Error>)
      requires Valid()
      requires k < |ratings| && store in stores
      modifies this`ratings, this`stores
      ensures Valid()
      ensures errs == RatingErrors(users.Keys, old(ratings), Some(k), user, store, value,
                                   old(stores)[store].proprietor)
      ensures errs == [] ==>
                ratings == old(ratings)[k := Rating(user, store, value.value)]
                && stores == AfterUpdate(old(stores), ratings, old(ratings)[k], ratings[k])
      ensures errs != [] ==> ratings == old(ratings) && stores == old(stores)
      ensures NoSelfRatings(old(stores), old(ratings)) ==> NoSelfRatings(stores, ratings)
    {
      errs := RatingErrors(users.Keys, ratings, Some(k), user, store, value, stores[store].proprietor);
      if errs == [] {
        var r := Rating(user, store, value.value);
        var previous := ratings[k];
        UpdateRatingKeepsConsistent(users, stores, ratings, nextUserId, nextStoreId, k, r);
        if NoSelfRatings(stores, ratings) {
          UpdateKeepsNoSelfRatings(stores, ratings, k, r);
        }
        ratings := ratings[k := r];
        stores := AfterUpdate(stores, ratings, previous, r);
      }
    }

    /** `rating.destroy` for the row at `k`, then the callback refreshes its
        store's cached average (none once no rating is left). */
    method DestroyRating(k: nat)
      requires Valid()
      requires k < |ratings|
      modifies this`ratings, this`stores
      ensures Valid()
      ensures ratings == old(ratings)[..k] + old(ratings)[k + 1..]
      ensures stores == RefreshAverage(old(stores), ratings, old(ratings)[k].store)
      ensures NoSelfRatings(old(stores), old(ratings)) ==> NoSelfRatings(stores, ratings)
    {
      var store := ratings[k].store;
      DestroyRatingKeepsConsistent(users, stores, ratings, nextUserId, nextStoreId, k);
      if NoSelfRatings(stores, ratings) {
        DestroyKeepsNoSelfRatings(stores, ratings, k);
      }
      ratings := ratings[..k] + ratings[k + 1..];
      stores := RefreshAverage(stores, ratings, store);
    }
  }
}
