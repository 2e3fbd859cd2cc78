/** The store handlers: the rating upsert a normal user submits, and the read
    side an owner or a user sees (the owner's dashboard, the owner's rating
    list and average, and the store list with the caller's own rating). */
module StoreController {
  import opened Common
  import opened Tables
  import AdminController

  // ---------------------------------------------------------------- submitUserRating

  /** The JSON body of `POST /api/stores/rate`. */
  datatype RatingBody = RatingBody(storeId: Option<int>, rating: Option<int>, comment: Option<string>)

  /** The ratings table after one accepted submission by `userId`: the first
      row for the pair is updated by its id, or a fresh row is appended with
      the next auto-increment id and the creation time `now`. */
  function Upserted(ratings: seq<Rating>, nextId: nat, userId: int, storeId: int, rating: int,
                    comment: Option<string>, now: int): seq<Rating>
  {
    match FirstRatingFor(ratings, userId, storeId)
    case Some(k) => SetRatingById(ratings, ratings[k].id, rating, comment)
    case None => ratings + [Rating(nextId, storeId, userId, rating, comment, now)]
  }

  method SubmitUserRating(db: Database, userId: int, body: RatingBody, now: int) returns (reply: Reply)
    requires db.Valid()
    modifies db
    ensures db.Valid()
    ensures db.users == old(db.users) && db.stores == old(db.stores)
    ensures db.nextUserId == old(db.nextUserId) && db.nextStoreId == old(db.nextStoreId)
    ensures !TruthyNum(body.storeId) || !TruthyNum(body.rating) ==>
              reply == Msg(400, "Store ID and rating required")
              && db.ratings == old(db.ratings) && db.nextRatingId == old(db.nextRatingId)
    ensures TruthyNum(body.storeId) && TruthyNum(body.rating) ==>
              db.ratings == Upserted(old(db.ratings), old(db.nextRatingId), userId, body.storeId.value,
                                     body.rating.value, OrNull(body.comment), now)
    ensures TruthyNum(body.storeId) && TruthyNum(body.rating) ==>
              if FirstRatingFor(old(db.ratings), userId, body.storeId.value).Some? then
                reply == Msg(200, "Rating updated successfully") && db.nextRatingId == old(db.nextRatingId)
              else
                reply == Msg(200, "Rating submitted successfully") && db.nextRatingId == old(db.nextRatingId) + 1
    ensures AtMostOnePerPair(old(db.ratings)) ==> AtMostOnePerPair(db.ratings)
  {
    if !TruthyNum(body.storeId) || !TruthyNum(body.rating) {
      return Msg(400, "Store ID and rating required");
    }
    var storeId, rating, comment := body.storeId.value, body.rating.value, OrNull(body.comment);
    ghost var before := db.ratings;
    var found := FirstRatingFor(db.ratings, userId, storeId);
    if found.Some? {
      db.UpdateRating(db.ratings[found.value].id, rating, comment);
      reply := Msg(200, "Rating updated successfully");
    } else {
      var _ := db.InsertRating(Rating(db.nextRatingId, storeId, userId, rating, comment, now));
      reply := Msg(200, "Rating submitted successfully");
    }
    if AtMostOnePerPair(before) {
      UpsertKeepsOnePerPair(before, old(db.nextRatingId), userId, storeId, rating, comment, now);
    }
  }

  // Counting rows per (user, store) pair.

  lemma {:induction false} CountForAppend(ratings: seq<Rating>, r: Rating, userId: int, storeId: int)
    ensures CountFor(ratings + [r], userId, storeId)
            == CountFor(ratings, userId, storeId) + (if r.userId == userId && r.storeId == storeId then 1 else 0)
  {
    assert (ratings + [r])[..|ratings|] == ratings;
  }

  /** No row for the pair exactly when its count is zero. */
  lemma {:induction false} CountForZero(ratings: seq<Rating>, userId: int, storeId: int)
    ensures CountFor(ratings, userId, storeId) == 0 <==> FirstRatingFor(ratings, userId, storeId).None?
  {
    if |ratings| > 0 {
      var init := ratings[..|ratings| - 1];
      CountForZero(init, userId, storeId);
      assert forall i :: 0 <= i < |init| ==> init[i] == ratings[i];
    }
  }

  /** The update by id rewrites ratings and comments only, so no pair's count
      changes. */
  lemma {:induction false} CountForSetById(ratings: seq<Rating>, id: int, rating: int, comment: Option<string>,
                                           userId: int, storeId: int)
    ensures CountFor(SetRatingById(ratings, id, rating, comment), userId, storeId) == CountFor(ratings, userId, storeId)
  {
    if |ratings| > 0 {
      var n := |ratings| - 1;
      CountForSetById(ratings[..n], id, rating, comment, userId, storeId);
      assert SetRatingById(ratings, id, rating, comment)[..n] == SetRatingById(ratings[..n], id, rating, comment);
    }
  }

  /** An accepted submission changes only the first row for the pair, and only
      its rating and comment, when there is one; otherwise it appends exactly
      one row for the pair. */
  lemma UpsertShape(ratings: seq<Rating>, nextId: nat, userId: int, storeId: int, rating: int,
                    comment: Option<string>, now: int)
    requires RatingIdsValid(ratings, nextId)
    ensures var after := Upserted(ratings, nextId, userId, storeId, rating, comment, now);
            match FirstRatingFor(ratings, userId, storeId)
            case Some(k) => after == ratings[k := ratings[k].(rating := rating, comment := comment)]
            case None => after == ratings + [Rating(nextId, storeId, userId, rating, comment, now)]
  {
    match FirstRatingFor(ratings, userId, storeId)
    case Some(k) => SetRatingByUniqueId(ratings, nextId, k, rating, comment);
    case None =>
  }

  /** After an accepted submission the first row for the pair holds the
      submitted rating and comment, and the number of rows grew by one
      exactly when the pair had no row. */
  lemma UpsertHoldsSubmission(ratings: seq<Rating>, nextId: nat, userId: int, storeId: int, rating: int,
                              comment: Option<string>, now: int)
    requires RatingIdsValid(ratings, nextId)
    ensures var after := Upserted(ratings, nextId, userId, storeId, rating, comment, now);
            && FirstRatingFor(after, userId, storeId).Some?
            && after[FirstRatingFor(after, userId, storeId).value].rating == rating
            && after[FirstRatingFor(after, userId, storeId).value].comment == comment
    ensures |Upserted(ratings, nextId, userId, storeId, rating, comment, now)|
            == |ratings| + (if FirstRatingFor(ratings, userId, storeId).Some? then 0 else 1)
  {
    var after := Upserted(ratings, nextId, userId, storeId, rating, comment, now);
    var p := (r: Rating) => r.userId == userId && r.storeId == storeId;
    UpsertShape(ratings, nextId, userId, storeId, rating, comment, now);
    match FirstRatingFor(ratings, userId, storeId)
    case Some(k) =>
      FirstWhereAgree(ratings, after, p);
    case None =>
      FirstWhereAppend(ratings, Rating(nextId, storeId, userId, rating, comment, now), p);
  }

  /** Sequential submissions keep at most one row per (user, store), and after
      one the submitted pair has exactly one. */
  lemma UpsertKeepsOnePerPair(ratings: seq<Rating>, nextId: nat, userId: int, storeId: int, rating: int,
                              comment: Option<string>, now: int)
    requires AtMostOnePerPair(ratings)
    ensures AtMostOnePerPair(Upserted(ratings, nextId, userId, storeId, rating, comment, now))
    ensures CountFor(Upserted(ratings, nextId, userId, storeId, rating, comment, now), userId, storeId) == 1
  {
    var after := Upserted(ratings, nextId, userId, storeId, rating, comment, now);
    CountForZero(ratings, userId, storeId);
    match FirstRatingFor(ratings, userId, storeId)
    case Some(k) =>
      forall u, s ensures CountFor(after, u, s) == CountFor(ratings, u, s) {
        CountForSetById(ratings, ratings[k].id, rating, comment, u, s);
      }
    case None =>
      var r := Rating(nextId, storeId, userId, rating, comment, now);
      forall u, s ensures CountFor(after, u, s) <= 1 {
        CountForAppend(ratings, r, u, s);
        if u == userId && s == storeId {
        }
      }
      CountForAppend(ratings, r, userId, storeId);
  }

  /** The admin dashboard counts after an accepted submission: one more
      rating exactly when the pair had none, users and stores unchanged. */
  lemma StatsAfterSubmit(users: seq<User>, stores: seq<Store>, ratings: seq<Rating>, nextId: nat, userId: int,
                         storeId: int, rating: int, comment: Option<string>, now: int)
    requires RatingIdsValid(ratings, nextId)
    ensures var before := AdminController.DashboardStats(users, stores, ratings);
            var after := AdminController.DashboardStats(users, stores,
                                                        Upserted(ratings, nextId, userId, storeId, rating, comment, now));
            && after.totalUsers == before.totalUsers && after.totalStores == before.totalStores
            && after.totalRatings == before.totalRatings
                                     + (if FirstRatingFor(ratings, userId, storeId).Some? then 0 else 1)
  {
    UpsertHoldsSubmission(ratings, nextId, userId, storeId, rating, comment, now);
  }

  // ---------------------------------------------------------------- averages

  /** The `rating` of every row satisfying `keep`, in table order. */
  function RatingsWhere(ratings: seq<Rating>, keep: Rating -> bool): (values: seq<int>)
    ensures |values| <= |ratings|
  {
    if |ratings| == 0 then []
    else (if keep(ratings[0]) then [ratings[0].rating] else []) + RatingsWhere(ratings[1..], keep)
  }

  /** Two filters that agree on every row select the same values. */
  lemma {:induction false} RatingsWhereAgree(ratings: seq<Rating>, keep: Rating -> bool, keep': Rating -> bool)
    requires forall i :: 0 <= i < |ratings| ==> keep(ratings[i]) == keep'(ratings[i])
    ensures RatingsWhere(ratings, keep) == RatingsWhere(ratings, keep')
  {
    if |ratings| > 0 {
      RatingsWhereAgree(ratings[1..], keep, keep');
    }
  }

  function Sum(values: seq<int>): int
  {
    if |values| == 0 then 0 else values[0] + Sum(values[1..])
  }

  /** SQL `AVG`: NULL over no rows. */
  function Mean(values: seq<int>): (m: Option<real>)
    ensures m.None? <==> |values| == 0
  {
    if |values| == 0 then None else Some(Sum(values) as real / |values| as real)
  }

  lemma {:induction false} SumWithin(values: seq<int>, lo: int, hi: int)
    requires forall i :: 0 <= i < |values| ==> lo <= values[i] <= hi
    ensures lo as real * |values| as real <= Sum(values) as real <= hi as real * |values| as real
  {
    if |values| > 0 {
      SumWithin(values[1..], lo, hi);
      var m := |values[1..]| as real;
      assert |values| as real == m + 1.0;
      assert lo as real * (m + 1.0) == lo as real * m + lo as real;
      assert hi as real * (m + 1.0) == hi as real * m + hi as real;
    }
  }

  /** The average of values in [lo, hi] lies in [lo, hi]. */
  lemma MeanWithin(values: seq<int>, lo: int, hi: int)
    requires |values| > 0
    requires forall i :: 0 <= i < |values| ==> lo <= values[i] <= hi
    ensures lo as real <= Mean(values).value <= hi as real
  {
    SumWithin(values, lo, hi);
    QuotientWithin(Sum(values) as real, |values| as real, lo as real, hi as real);
  }

  lemma QuotientWithin(total: real, n: real, lo: real, hi: real)
    requires n > 0.0 && lo * n <= total <= hi * n
    ensures lo <= total / n <= hi
  {
    var q := total / n;
    assert q * n == total;
    assert (q - lo) * n >= 0.0;
    assert (hi - q) * n >= 0.0;
  }

  /** `avg ? Number(avg) : 0`: a NULL average is reported as 0. An average of
      0 also takes the fallback, which changes nothing. */
  function SafeAverage(m: Option<real>): (r: real)
    ensures m.None? ==> r == 0.0
    ensures m.Some? ==> r == m.value
  {
    if m.Some? && m.value != 0.0 then m.value else 0.0
  }

  predicate RatesStore(r: Rating, storeId: int)
  {
    r.storeId == storeId
  }

  /** The reported average of one store's ratings. */
  function StoreAverage(ratings: seq<Rating>, storeId: int): real
  {
    SafeAverage(Mean(RatingsWhere(ratings, (r: Rating) => RatesStore(r, storeId))))
  }

  /** With every rating in [lo, hi], a store's reported average is 0 when it
      has no rating and lies in [lo, hi] otherwise. */
  lemma StoreAverageWithin(ratings: seq<Rating>, storeId: int, lo: int, hi: int)
    requires forall i :: 0 <= i < |ratings| ==> lo <= ratings[i].rating <= hi
    ensures var values := RatingsWhere(ratings, (r: Rating) => RatesStore(r, storeId));
            if |values| == 0 then StoreAverage(ratings, storeId) == 0.0
            else lo as real <= StoreAverage(ratings, storeId) <= hi as real
  {
    var keep := (r: Rating) => RatesStore(r, storeId);
    var values := RatingsWhere(ratings, keep);
    RatingsWhereFrom(ratings, keep, lo, hi);
    if |values| > 0 {
      MeanWithin(values, lo, hi);
    }
  }

  /** Every selected value is the rating of some row. */
  lemma {:induction false} RatingsWhereFrom(ratings: seq<Rating>, keep: Rating -> bool, lo: int, hi: int)
    requires forall i :: 0 <= i < |ratings| ==> lo <= ratings[i].rating <= hi
    ensures forall j :: 0 <= j < |RatingsWhere(ratings, keep)| ==> lo <= RatingsWhere(ratings, keep)[j] <= hi
  {
    if |ratings| > 0 {
      RatingsWhereFrom(ratings[1..], keep, lo, hi);
    }
  }

  // ---------------------------------------------------------------- getStoreDashboard

  predicate OwnedBy(s: Store, ownerId: int)
  {
    s.ownerId == Some(ownerId)
  }

  /** `SELECT id, name, address FROM stores WHERE owner_id = ?`, first row. */
  function FirstOwnedStore(stores: seq<Store>, ownerId: int): Option<nat>
  {
    FirstWhere(stores, (s: Store) => OwnedBy(s, ownerId))
  }

  datatype DashboardReply =
    | NoStoreForOwner
    | Dashboard(id: nat, name: string, address: Option<string>, totalRatings: nat, averageRating: real)
  {
    function Response(): Reply
    {
      match this
      case NoStoreForOwner => Msg(404, "No store found for this owner")
      case Dashboard(_, _, _, _, _) => Msg(200, "Store dashboard data fetched successfully")
    }
  }

  /** `getStoreDashboard` for the owner `ownerId`. */
  function StoreDashboard(stores: seq<Store>, ratings: seq<Rating>, ownerId: int): (d: DashboardReply)
    ensures d.NoStoreForOwner? <==> forall i :: 0 <= i < |stores| ==> !OwnedBy(stores[i], ownerId)
    ensures d.Dashboard? ==>
              exists k :: 0 <= k < |stores| && OwnedBy(stores[k], ownerId)
                          && d.id == stores[k].id && d.name == stores[k].name && d.address == stores[k].address
                          && forall j :: 0 <= j < k ==> !OwnedBy(stores[j], ownerId)
    ensures d.Dashboard? ==>
              && d.totalRatings == |RatingsWhere(ratings, (r: Rating) => RatesStore(r, d.id))|
              && d.averageRating == StoreAverage(ratings, d.id)
    ensures d.Dashboard? && d.totalRatings == 0 ==> d.averageRating == 0.0
  {
    match FirstOwnedStore(stores, ownerId)
    case None => NoStoreForOwner
    case Some(k) =>
      var store := stores[k];
      var values := RatingsWhere(ratings, (r: Rating) => RatesStore(r, store.id));
      Dashboard(store.id, store.name, store.address, |values|, SafeAverage(Mean(values)))
  }

  /** A rating for the owner's dashboard store that adds a row raises the
      dashboard count by one; one that updates a row leaves it unchanged. */
  lemma DashboardCountAfterSubmit(stores: seq<Store>, ratings: seq<Rating>, ownerId: int, nextId: nat,
                                  userId: int, rating: int, comment: Option<string>, now: int)
    requires RatingIdsValid(ratings, nextId)
    requires StoreDashboard(stores, ratings, ownerId).Dashboard?
    ensures var before := StoreDashboard(stores, ratings, ownerId);
            var after := StoreDashboard(stores, Upserted(ratings, nextId, userId, before.id, rating, comment, now),
                                        ownerId);
            after.Dashboard? && after.id == before.id
            && after.totalRatings == before.totalRatings
                                     + (if FirstRatingFor(ratings, userId, before.id).Some? then 0 else 1)
  {
    var before := StoreDashboard(stores, ratings, ownerId);
    var keep := (r: Rating) => RatesStore(r, before.id);
    var updated := Upserted(ratings, nextId, userId, before.id, rating, comment, now);
    UpsertShape(ratings, nextId, userId, before.id, rating, comment, now);
    match FirstRatingFor(ratings, userId, before.id)
    case Some(k) =>
      RatingsWhereReplace(ratings, keep, k, ratings[k].(rating := rating, comment := comment));
    case None =>
      RatingsWhereAppend(ratings, keep, Rating(nextId, before.id, userId, rating, comment, now));
  }

  lemma {:induction false} RatingsWhereAppend(ratings: seq<Rating>, keep: Rating -> bool, r: Rating)
    ensures RatingsWhere(ratings + [r], keep) == RatingsWhere(ratings, keep) + (if keep(r) then [r.rating] else [])
  {
    if |ratings| > 0 {
      assert (ratings + [r])[1..] == ratings[1..] + [r];
      RatingsWhereAppend(ratings[1..], keep, r);
    } else {
      assert ratings + [r] == [r];
    }
  }

  /** Replacing a row by one the filter treats alike keeps the number of
      selected values. */
  lemma {:induction false} RatingsWhereReplace(ratings: seq<Rating>, keep: Rating -> bool, k: nat, r: Rating)
    requires k < |ratings| && keep(r) == keep(ratings[k])
    ensures |RatingsWhere(ratings[k := r], keep)| == |RatingsWhere(ratings, keep)|
  {
    if k > 0 {
      assert ratings[k := r][1..] == ratings[1..][k - 1 := r];
      RatingsWhereReplace(ratings[1..], keep, k - 1, r);
    } else {
      assert ratings[k := r][1..] == ratings[1..];
    }
  }

  // ---------------------------------------------------------------- getAverageRating

  /** The rating joins to a store the owner owns. */
  predicate RatesOwnedStore(stores: seq<Store>, ownerId: int, r: Rating)
  {
    exists i :: 0 <= i < |stores| && stores[i].id == r.storeId && OwnedBy(stores[i], ownerId)
  }

  /** `getAverageRating`: the average over the ratings of all the owner's
      stores, NULL reported as 0. */
  function OwnerAverage(stores: seq<Store>, ratings: seq<Rating>, ownerId: int): real
  {
    SafeAverage(Mean(RatingsWhere(ratings, (r: Rating) => RatesOwnedStore(stores, ownerId, r))))
  }

  /** An owner of exactly one store sees the same average on the dashboard
      and from the average endpoint. */
  lemma OwnerAverageMatchesDashboard(stores: seq<Store>, ratings: seq<Rating>, ownerId: int, k: nat)
    requires k < |stores| && OwnedBy(stores[k], ownerId)
    requires forall j :: 0 <= j < |stores| && j != k ==> !OwnedBy(stores[j], ownerId)
    ensures StoreDashboard(stores, ratings, ownerId).Dashboard?
    ensures OwnerAverage(stores, ratings, ownerId) == StoreDashboard(stores, ratings, ownerId).averageRating
  {
    var d := StoreDashboard(stores, ratings, ownerId);
    assert d.id == stores[k].id;
    RatingsWhereAgree(ratings, (r: Rating) => RatesOwnedStore(stores, ownerId, r),
                      (r: Rating) => RatesStore(r, stores[k].id));
  }

  // ---------------------------------------------------------------- getAllStoresForUser

  datatype UserRating = UserRating(rating: int, comment: Option<string>)

  /** One row of the store list: the selected columns, then `userRating`
      and the defaulted `averageRating` the handler adds. */
  datatype StoreListing = StoreListing(id: nat, name: string, address: Option<string>, averageRating: real,
                                       userRatingValue: Option<int>, userComment: Option<string>,
                                       userRating: Option<UserRating>)

  /** The list, or 500 "Error fetching stores" when a scalar subquery meets
      more than one row of the caller for one store. */
  datatype StoreList = ListError | Listed(stores: seq<StoreListing>)

  /** `userRatingValue ? {rating, comment} : null`. */
  function ShapeUserRating(value: Option<int>, comment: Option<string>): (u: Option<UserRating>)
    ensures u.Some? <==> TruthyNum(value)
    ensures u.Some? ==> u.value == UserRating(value.value, comment)
  {
    if TruthyNum(value) then Some(UserRating(value.value, comment)) else None
  }

  /** The listing of `store` for `userId`, when the subqueries yield at most
      one row. */
  function ListingOf(store: Store, ratings: seq<Rating>, userId: int): StoreListing
    requires CountFor(ratings, userId, store.id) <= 1
  {
    var own := FirstRatingFor(ratings, userId, store.id);
    var value := if own.Some? then Some(ratings[own.value].rating) else None;
    var comment := if own.Some? then ratings[own.value].comment else None;
    StoreListing(store.id, store.name, store.address, StoreAverage(ratings, store.id),
                 value, comment, ShapeUserRating(value, comment))
  }

  /** `getAllStoresForUser` for the caller `userId`. */
  function StoresForUser(stores: seq<Store>, ratings: seq<Rating>, userId: int): (l: StoreList)
    ensures l.ListError? <==> exists i :: 0 <= i < |stores| && CountFor(ratings, userId, stores[i].id) > 1
    ensures l.Listed? ==> |l.stores| == |stores|
    ensures l.Listed? ==> forall i :: 0 <= i < |stores| ==>
              && l.stores[i].id == stores[i].id
              && l.stores[i].name == stores[i].name
              && l.stores[i].address == stores[i].address
              && l.stores[i].averageRating == StoreAverage(ratings, stores[i].id)
              && l.stores[i].userRating == ShapeUserRating(l.stores[i].userRatingValue, l.stores[i].userComment)
    ensures l.Listed? ==> forall i :: 0 <= i < |stores| ==>
              match FirstRatingFor(ratings, userId, stores[i].id)
              case Some(k) => l.stores[i].userRatingValue == Some(ratings[k].rating)
                              && l.stores[i].userComment == ratings[k].comment
              case None => l.stores[i].userRatingValue.None? && l.stores[i].userComment.None?
  {
    if exists i :: 0 <= i < |stores| && CountFor(ratings, userId, stores[i].id) > 1 then ListError
    else Listed(seq(|stores|, i requires 0 <= i < |stores| => ListingOf(stores[i], ratings, userId)))
  }

  /** With at most one rating per (user, store) the list never fails, and each
      store shows the caller's own rating exactly when the caller has a row
      for it with a non-zero rating. */
  lemma StoresForUserShowsOwnRating(stores: seq<Store>, ratings: seq<Rating>, userId: int)
    requires AtMostOnePerPair(ratings)
    ensures StoresForUser(stores, ratings, userId).Listed?
    ensures forall i :: 0 <= i < |stores| ==>
              var u := StoresForUser(stores, ratings, userId).stores[i].userRating;
              u.Some? <==> exists j :: 0 <= j < |ratings| && ratings[j].userId == userId
                                       && ratings[j].storeId == stores[i].id && ratings[j].rating != 0
  {
    var l := StoresForUser(stores, ratings, userId);
    forall i | 0 <= i < |stores|
      ensures var u := l.stores[i].userRating;
              u.Some? <==> exists j :: 0 <= j < |ratings| && ratings[j].userId == userId
                                       && ratings[j].storeId == stores[i].id && ratings[j].rating != 0
    {
      OnlyRowForPair(ratings, userId, stores[i].id);
    }
  }

  /** Under the one-per-pair invariant the first row for a pair is its only
      row. */
  lemma OnlyRowForPair(ratings: seq<Rating>, userId: int, storeId: int)
    requires AtMostOnePerPair(ratings)
    ensures FirstRatingFor(ratings, userId, storeId).Some? ==>
              forall j :: 0 <= j < |ratings| && ratings[j].userId == userId && ratings[j].storeId == storeId ==>
                j == FirstRatingFor(ratings, userId, storeId).value
  {
    var first := FirstRatingFor(ratings, userId, storeId);
    if first.Some? {
      forall j | 0 <= j < |ratings| && ratings[j].userId == userId && ratings[j].storeId == storeId
        ensures j == first.value
      {
        if j != first.value {
          CountForTwo(ratings, first.value, j, userId, storeId);
        }
      }
    }
  }

  /** Two distinct rows for one pair make its count at least two. */
  lemma {:induction false} CountForTwo(ratings: seq<Rating>, a: nat, b: nat, userId: int, storeId: int)
    requires a < |ratings| && b < |ratings| && a != b
    requires ratings[a].userId == userId && ratings[a].storeId == storeId
    requires ratings[b].userId == userId && ratings[b].storeId == storeId
    ensures CountFor(ratings, userId, storeId) >= 2
  {
    var n := |ratings| - 1;
    var init := ratings[..n];
    if a == n || b == n {
      var other := if a == n then b else a;
      assert init[other] == ratings[other];
      CountForZero(init, userId, storeId);
    } else {
      assert init[a] == ratings[a] && init[b] == ratings[b];
      CountForTwo(init, a, b, userId, storeId);
    }
  }

  /** After a user's accepted submission of a non-zero rating the store
      list shows it back, with the stored comment. */
  lemma SubmittedRatingIsListed(stores: seq<Store>, ratings: seq<Rating>, nextId: nat, userId: int,
                                i: nat, rating: int, comment: Option<string>, now: int)
    requires AtMostOnePerPair(ratings) && RatingIdsValid(ratings, nextId)
    requires i < |stores| && rating != 0
    ensures var after := Upserted(ratings, nextId, userId, stores[i].id, rating, comment, now);
            var l := StoresForUser(stores, after, userId);
            l.Listed? && l.stores[i].userRating == Some(UserRating(rating, comment))
  {
    var after := Upserted(ratings, nextId, userId, stores[i].id, rating, comment, now);
    UpsertKeepsOnePerPair(ratings, nextId, userId, stores[i].id, rating, comment, now);
    UpsertHoldsSubmission(ratings, nextId, userId, stores[i].id, rating, comment, now);
    StoresForUserShowsOwnRating(stores, after, userId);
  }

  // ---------------------------------------------------------------- getStoreRatings

  /** One row of the owner's rating list. */
  datatype OwnerRatingRow = OwnerRatingRow(id: nat, rating: int, comment: Option<string>, createdAt: int,
                                           userName: string)

  /** The rows the joins select, in table order: each rating of an owned store
      whose author exists, with the author's name. */
  function JoinOwnerRatings(ratings: seq<Rating>, users: seq<User>, stores: seq<Store>, ownerId: int)
    : seq<OwnerRatingRow>
  {
    if |ratings| == 0 then []
    else
      var r := ratings[0];
      var author := FirstUserById(users, r.userId);
      (if author.Some? && RatesOwnedStore(stores, ownerId, r)
       then [OwnerRatingRow(r.id, r.rating, r.comment, r.createdAt, users[author.value].name)]
       else [])
      + JoinOwnerRatings(ratings[1..], users, stores, ownerId)
  }

  predicate NewestFirst(rows: seq<OwnerRatingRow>)
  {
    forall i, j :: 0 <= i < j < |rows| ==> rows[i].createdAt >= rows[j].createdAt
  }

  /** Places `row` into a list already ordered newest first. */
  function InsertByDate(row: OwnerRatingRow, rows: seq<OwnerRatingRow>): (r: seq<OwnerRatingRow>)
    requires NewestFirst(rows)
    ensures NewestFirst(r)
    ensures multiset(r) == multiset(rows) + multiset{row}
    ensures |r| == |rows| + 1 && (r[0] == row || (|rows| > 0 && r[0] == rows[0]))
  {
    if |rows| == 0 then [row]
    else if row.createdAt >= rows[0].createdAt then [row] + rows
    else
      var rest := InsertByDate(row, rows[1..]);
      assert rows == [rows[0]] + rows[1..];
      assert rest[0].createdAt <= rows[0].createdAt;
      [rows[0]] + rest
  }

  /** `ORDER BY r.created_at DESC`: a newest-first reordering of the rows. */
  function SortNewestFirst(rows: seq<OwnerRatingRow>): (r: seq<OwnerRatingRow>)
    ensures NewestFirst(r)
    ensures multiset(r) == multiset(rows)
  {
    if |rows| == 0 then []
    else
      assert rows == [rows[0]] + rows[1..];
      InsertByDate(rows[0], SortNewestFirst(rows[1..]))
  }

  /** `getStoreRatings` for the owner `ownerId`. */
  function StoreRatings(ratings: seq<Rating>, users: seq<User>, stores: seq<Store>, ownerId: int)
    : (rows: seq<OwnerRatingRow>)
    ensures NewestFirst(rows)
    ensures multiset(rows) == multiset(JoinOwnerRatings(ratings, users, stores, ownerId))
  {
    SortNewestFirst(JoinOwnerRatings(ratings, users, stores, ownerId))
  }

  /** The joined rows are exactly the ratings of the owner's stores whose
      author exists. */
  lemma {:induction false} JoinOwnerRatingsExact(ratings: seq<Rating>, users: seq<User>, stores: seq<Store>,
                                                 ownerId: int)
    ensures forall row :: row in JoinOwnerRatings(ratings, users, stores, ownerId) <==>
              exists j :: 0 <= j < |ratings| && RatesOwnedStore(stores, ownerId, ratings[j])
                          && FirstUserById(users, ratings[j].userId).Some?
                          && row == OwnerRatingRow(ratings[j].id, ratings[j].rating, ratings[j].comment,
                                                   ratings[j].createdAt,
                                                   users[FirstUserById(users, ratings[j].userId).value].name)
  {
    if |ratings| > 0 {
      JoinOwnerRatingsExact(ratings[1..], users, stores, ownerId);
      forall j | 1 <= j < |ratings| ensures ratings[j] == ratings[1..][j - 1] { }
    }
  }

  lemma SameElements(a: seq<OwnerRatingRow>, b: seq<OwnerRatingRow>)
    requires multiset(a) == multiset(b)
    ensures forall x :: x in a <==> x in b
  {
    forall x ensures x in a <==> x in b {
      assert x in a <==> x in multiset(a);
      assert x in b <==> x in multiset(b);
    }
  }

  /** An owner's list holds only ratings of stores that owner owns. */
  lemma StoreRatingsOnlyOwned(ratings: seq<Rating>, users: seq<User>, stores: seq<Store>, ownerId: int)
    ensures forall row :: row in StoreRatings(ratings, users, stores, ownerId) ==>
              exists j :: 0 <= j < |ratings| && ratings[j].id == row.id && RatesOwnedStore(stores, ownerId, ratings[j])
  {
    JoinOwnerRatingsExact(ratings, users, stores, ownerId);
    SameElements(StoreRatings(ratings, users, stores, ownerId), JoinOwnerRatings(ratings, users, stores, ownerId));
  }

  /** Every rating of an owner's store whose author exists is in the owner's
      list, with its rating, comment, creation time and author's name. */
  lemma StoreRatingsAllOwned(ratings: seq<Rating>, users: seq<User>, stores: seq<Store>, ownerId: int, j: nat)
    requires j < |ratings| && RatesOwnedStore(stores, ownerId, ratings[j])
    requires FirstUserById(users, ratings[j].userId).Some?
    ensures OwnerRatingRow(ratings[j].id, ratings[j].rating, ratings[j].comment, ratings[j].createdAt,
                           users[FirstUserById(users, ratings[j].userId).value].name)
            in StoreRatings(ratings, users, stores, ownerId)
  {
    JoinOwnerRatingsExact(ratings, users, stores, ownerId);
    SameElements(StoreRatings(ratings, users, stores, ownerId), JoinOwnerRatings(ratings, users, stores, ownerId));
  }
}
