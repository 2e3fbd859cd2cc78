/** The three tables the controllers share (`users`, `stores`, `ratings`),
    held in memory. Ids are auto-increment: each table keeps its rows in
    insertion order with strictly increasing ids, all below the next id the
    engine will hand out. */
module Tables {
  import opened Common

  datatype User = User(id: nat, name: string, email: string, password: string,
                       address: Option<string>, role: string)

  datatype Store = Store(id: nat, name: string, email: Option<string>,
                         address: Option<string>, ownerId: Option<int>)

  datatype Rating = Rating(id: nat, storeId: int, userId: int, rating: int,
                           comment: Option<string>, createdAt: int)

  /** `SELECT * FROM users WHERE email = ?`, first row. */
  function FirstUserByEmail(users: seq<User>, email: string): Option<nat>
  {
    FirstWhere(users, (u: User) => u.email == email)
  }

  /** `SELECT ... FROM users WHERE id = ?`, first row. */
  function FirstUserById(users: seq<User>, id: int): Option<nat>
  {
    FirstWhere(users, (u: User) => u.id == id)
  }

  /** `SELECT * FROM ratings WHERE user_id = ? AND store_id = ?`, first row. */
  function FirstRatingFor(ratings: seq<Rating>, userId: int, storeId: int): Option<nat>
  {
    FirstWhere(ratings, (r: Rating) => r.userId == userId && r.storeId == storeId)
  }

  predicate UserIdsValid(users: seq<User>, next: nat)
  {
    && (forall i, j :: 0 <= i < j < |users| ==> users[i].id < users[j].id)
    && (forall i :: 0 <= i < |users| ==> users[i].id < next)
  }

  predicate StoreIdsValid(stores: seq<Store>, next: nat)
  {
    && (forall i, j :: 0 <= i < j < |stores| ==> stores[i].id < stores[j].id)
    && (forall i :: 0 <= i < |stores| ==> stores[i].id < next)
  }

  predicate RatingIdsValid(ratings: seq<Rating>, next: nat)
  {
    && (forall i, j :: 0 <= i < j < |ratings| ==> ratings[i].id < ratings[j].id)
    && (forall i :: 0 <= i < |ratings| ==> ratings[i].id < next)
  }

  /** No two users share an email. The self-service and admin registration
      paths keep this; `signup` does not check it. */
  predicate EmailsUnique(users: seq<User>)
  {
    forall i, j :: 0 <= i < j < |users| ==> users[i].email != users[j].email
  }

  /** Number of rating rows for the pair (user, store). */
  function CountFor(ratings: seq<Rating>, userId: int, storeId: int): nat
  {
    if |ratings| == 0 then 0
    else CountFor(ratings[..|ratings| - 1], userId, storeId)
         + (if ratings[|ratings| - 1].userId == userId && ratings[|ratings| - 1].storeId == storeId then 1 else 0)
  }

  /** `UPDATE ratings SET rating = ?, comment = ? WHERE id = ?`: every row
      carrying that id gets the new rating and comment. */
  function SetRatingById(ratings: seq<Rating>, id: int, rating: int, comment: Option<string>): seq<Rating>
  {
    seq(|ratings|, i requires 0 <= i < |ratings| =>
      if ratings[i].id == id then ratings[i].(rating := rating, comment := comment) else ratings[i])
  }

  /** With auto-increment ids the update by id touches exactly one row. */
  lemma SetRatingByUniqueId(ratings: seq<Rating>, next: nat, k: nat, rating: int, comment: Option<string>)
    requires RatingIdsValid(ratings, next) && k < |ratings|
    ensures SetRatingById(ratings, ratings[k].id, rating, comment)
            == ratings[k := ratings[k].(rating := rating, comment := comment)]
  {
  }

  /** The application-level uniqueness the rating upsert is meant to keep. */
  ghost predicate AtMostOnePerPair(ratings: seq<Rating>)
  {
    forall u, s :: CountFor(ratings, u, s) <= 1
  }

  lemma InsertFreshEmailKeepsUnique(users: seq<User>, u: User)
    requires EmailsUnique(users)
    requires FirstUserByEmail(users, u.email).None?
    ensures EmailsUnique(users + [u])
  {
    forall i, j | 0 <= i < j < |users| + 1
      ensures (users + [u])[i].email != (users + [u])[j].email
    {
      if j == |users| {
        assert (users + [u])[i] == users[i];
        assert (users + [u])[j] == u;
      }
    }
  }

  /** The shared database: the handlers change it one request at a time. */
  class Database {
    var users: seq<User>
    var stores: seq<Store>
    var ratings: seq<Rating>
    var nextUserId: nat
    var nextStoreId: nat
    var nextRatingId: nat

    ghost predicate Valid()
      reads this
    {
      && UserIdsValid(users, nextUserId)
      && StoreIdsValid(stores, nextStoreId)
      && RatingIdsValid(ratings, nextRatingId)
    }

    constructor ()
      ensures Valid()
      ensures users == [] && stores == [] && ratings == []
      ensures nextUserId == 1 && nextStoreId == 1 && nextRatingId == 1
    {
      users, stores, ratings := [], [], [];
      nextUserId, nextStoreId, nextRatingId := 1, 1, 1;
    }

    /** `INSERT INTO users ...`: appends `u` under the next auto-increment id. */
    method InsertUser(u: User) returns (id: nat)
      requires Valid()
      requires u.id == nextUserId
      modifies this
      ensures Valid()
      ensures id == old(nextUserId) && nextUserId == id + 1
      ensures users == old(users) + [u]
      ensures stores == old(stores) && ratings == old(ratings)
      ensures nextStoreId == old(nextStoreId) && nextRatingId == old(nextRatingId)
    {
      id := nextUserId;
      users := users + [u];
      nextUserId := nextUserId + 1;
    }

    /** `INSERT INTO ratings ...`. */
    method InsertRating(r: Rating) returns (id: nat)
      requires Valid()
      requires r.id == nextRatingId
      modifies this
      ensures Valid()
      ensures id == old(nextRatingId) && nextRatingId == id + 1
      ensures ratings == old(ratings) + [r]
      ensures users == old(users) && stores == old(stores)
      ensures nextUserId == old(nextUserId) && nextStoreId == old(nextStoreId)
    {
      id := nextRatingId;
      ratings := ratings + [r];
      nextRatingId := nextRatingId + 1;
    }

    /** `UPDATE ratings SET rating = ?, comment = ? WHERE id = ?`. */
    method UpdateRating(id: int, rating: int, comment: Option<string>)
      requires Valid()
      modifies this
      ensures Valid()
      ensures ratings == SetRatingById(old(ratings), id, rating, comment)
      ensures users == old(users) && stores == old(stores)
      ensures nextUserId == old(nextUserId) && nextStoreId == old(nextStoreId) && nextRatingId == old(nextRatingId)
    {
      ratings := SetRatingById(ratings, id, rating, comment);
    }

    /** `INSERT INTO stores ...`. */
    method InsertStore(s: Store) returns (id: nat)
      requires Valid()
      requires s.id == nextStoreId
      modifies this
      ensures Valid()
      ensures id == old(nextStoreId) && nextStoreId == id + 1
      ensures stores == old(stores) + [s]
      ensures users == old(users) && ratings == old(ratings)
      ensures nextUserId == old(nextUserId) && nextRatingId == old(nextRatingId)
    {
      id := nextStoreId;
      stores := stores + [s];
      nextStoreId := nextStoreId + 1;
    }
  }
}
