/** The admin handlers: adding users and stores, the three dashboard counts,
    and the builders of the filtered user and store list queries. */
module AdminController {
  import opened Common
  import opened Tables

  // ---------------------------------------------------------------- addUser

  /** The JSON body of `POST /api/admin/users`. */
  datatype AdminUserBody = AdminUserBody(name: Option<string>, email: Option<string>, password: Option<string>,
                                         address: Option<string>, role: Option<string>)

  predicate AddUserComplete(body: AdminUserBody)
  {
    Truthy(body.name) && Truthy(body.email) && Truthy(body.password) && Truthy(body.address) && Truthy(body.role)
  }

  /** The row `addUser` inserts: the role is stored as given, whatever it is. */
  function AdminUserRow(id: nat, body: AdminUserBody, hash: string -> string): User
    requires AddUserComplete(body)
  {
    User(id, body.name.value, body.email.value, hash(body.password.value), body.address, body.role.value)
  }

  method AddUser(db: Database, body: AdminUserBody, hash: string -> string) returns (reply: Reply)
    requires db.Valid()
    modifies db
    ensures db.Valid()
    ensures db.stores == old(db.stores) && db.ratings == old(db.ratings)
    ensures db.nextStoreId == old(db.nextStoreId) && db.nextRatingId == old(db.nextRatingId)
    ensures !AddUserComplete(body) ==>
              reply == Msg(400, "All fields are required")
              && db.users == old(db.users) && db.nextUserId == old(db.nextUserId)
    ensures AddUserComplete(body) && FirstUserByEmail(old(db.users), body.email.value).Some? ==>
              reply == Msg(400, "User already exists")
              && db.users == old(db.users) && db.nextUserId == old(db.nextUserId)
    ensures AddUserComplete(body) && FirstUserByEmail(old(db.users), body.email.value).None? ==>
              reply == MsgWithId(201, "User added successfully", old(db.nextUserId))
              && db.users == old(db.users) + [AdminUserRow(old(db.nextUserId), body, hash)]
              && db.nextUserId == old(db.nextUserId) + 1
    ensures EmailsUnique(old(db.users)) ==> EmailsUnique(db.users)
  {
    if !AddUserComplete(body) {
      return Msg(400, "All fields are required");
    }
    if FirstUserByEmail(db.users, body.email.value).Some? {
      return Msg(400, "User already exists");
    }
    var row := AdminUserRow(db.nextUserId, body, hash);
    if EmailsUnique(db.users) {
      InsertFreshEmailKeepsUnique(db.users, row);
    }
    var id := db.InsertUser(row);
    reply := MsgWithId(201, "User added successfully", id);
  }

  // ---------------------------------------------------------------- addStore

  /** The JSON body of `POST /api/admin/stores`. */
  datatype StoreBody = StoreBody(name: Option<string>, email: Option<string>, address: Option<string>,
                                 ownerId: Option<int>)

  /** The row `addStore` inserts: falsy email, address and owner become NULL. */
  function StoreRow(id: nat, body: StoreBody): Store
    requires Truthy(body.name)
  {
    Store(id, body.name.value, OrNull(body.email), OrNull(body.address), NumOrNull(body.ownerId))
  }

  method AddStore(db: Database, body: StoreBody) returns (reply: Reply)
    requires db.Valid()
    modifies db
    ensures db.Valid()
    ensures db.users == old(db.users) && db.ratings == old(db.ratings)
    ensures db.nextUserId == old(db.nextUserId) && db.nextRatingId == old(db.nextRatingId)
    ensures !Truthy(body.name) ==>
              reply == Msg(400, "Store name is required")
              && db.stores == old(db.stores) && db.nextStoreId == old(db.nextStoreId)
    ensures Truthy(body.name) ==>
              reply == MsgWithId(201, "Store added successfully", old(db.nextStoreId))
              && db.stores == old(db.stores) + [StoreRow(old(db.nextStoreId), body)]
              && db.nextStoreId == old(db.nextStoreId) + 1
  {
    if !Truthy(body.name) {
      return Msg(400, "Store name is required");
    }
    var id := db.InsertStore(StoreRow(db.nextStoreId, body));
    reply := MsgWithId(201, "Store added successfully", id);
  }

  // ---------------------------------------------------------------- getDashboardStats

  datatype Stats = Stats(totalUsers: nat, totalStores: nat, totalRatings: nat)

  /** The three `COUNT(*)` reads. */
  function DashboardStats(users: seq<User>, stores: seq<Store>, ratings: seq<Rating>): Stats
  {
    Stats(|users|, |stores|, |ratings|)
  }

  // ---------------------------------------------------------------- list-query builders

  /** The query-string filters of the two list endpoints. */
  datatype UserFilter = UserFilter(name: Option<string>, email: Option<string>, address: Option<string>,
                                   role: Option<string>)

  datatype StoreFilter = StoreFilter(name: Option<string>, email: Option<string>, address: Option<string>)

  /** One WHERE condition with the parameter bound to its placeholder:
      a substring pattern (`col LIKE ?` bound to "%v%") or an exact match
      (`col = ?` bound to "v"). */
  datatype Condition = Like(column: string, value: string) | Equals(column: string, value: string)

  function ClauseText(c: Condition): string
  {
    match c
    case Like(col, _) => col + " LIKE ?"
    case Equals(col, _) => col + " = ?"
  }

  function ParamOf(c: Condition): string
  {
    match c
    case Like(_, v) => "%" + v + "%"
    case Equals(_, v) => v
  }

  function Clauses(cs: seq<Condition>): (r: seq<string>)
    ensures |r| == |cs| && forall i :: 0 <= i < |cs| ==> r[i] == ClauseText(cs[i])
  {
    seq(|cs|, i requires 0 <= i < |cs| => ClauseText(cs[i]))
  }

  /** The parameter list: one entry per condition, in condition order;
      substring conditions are wrapped in '%', exact ones passed verbatim. */
  function Params(cs: seq<Condition>): (r: seq<string>)
    ensures |r| == |cs|
    ensures forall i :: 0 <= i < |cs| && cs[i].Like? ==> r[i] == "%" + cs[i].value + "%"
    ensures forall i :: 0 <= i < |cs| && cs[i].Equals? ==> r[i] == cs[i].value
  {
    seq(|cs|, i requires 0 <= i < |cs| => ParamOf(cs[i]))
  }

  /** `" WHERE " + filters.join(" AND ")` when there is a filter, else nothing. */
  function WhereClause(cs: seq<Condition>): string
  {
    if |cs| == 0 then "" else " WHERE " + Join(Clauses(cs), " AND ")
  }

  /** The WHERE text as the handlers assemble it from the collected filter
      texts. */
  lemma WhereOfFilters(filters: seq<string>, cs: seq<Condition>, where: string)
    requires filters == Clauses(cs)
    requires where == if |filters| > 0 then " WHERE " + Join(filters, " AND ") else ""
    ensures where == WhereClause(cs)
  {
  }

  /** Number of '?' placeholders in a SQL text. */
  function Placeholders(s: string): nat
  {
    multiset(s)['?']
  }

  /** Placeholders add up over concatenation. */
  lemma PlaceholdersConcat(a: string, b: string)
    ensures Placeholders(a + b) == Placeholders(a) + Placeholders(b)
  {
    assert multiset(a + b) == multiset(a) + multiset(b);
  }

  lemma LikeTailPlaceholder()
    ensures Placeholders(" LIKE ?") == 1
  {
    assert " LIKE ?" == " LIKE " + "?";
    assert multiset(" LIKE ?") == multiset(" LIKE ") + multiset("?");
    assert '?' !in " LIKE ";
  }

  lemma EqualsTailPlaceholder()
    ensures Placeholders(" = ?") == 1
  {
    assert " = ?" == " = " + "?";
    assert multiset(" = ?") == multiset(" = ") + multiset("?");
    assert '?' !in " = ";
  }

  /** Each condition's text holds the one placeholder its parameter binds. */
  lemma ClausePlaceholder(c: Condition)
    requires '?' !in c.column
    ensures Placeholders(ClauseText(c)) == 1
  {
    match c
    case Like(col, _) =>
      LikeTailPlaceholder();
      PlaceholdersConcat(col, " LIKE ?");
    case Equals(col, _) =>
      EqualsTailPlaceholder();
      PlaceholdersConcat(col, " = ?");
  }

  /** The fixed SQL texts are written as short pieces. */
  function Concat(pieces: seq<string>): string
  {
    if |pieces| == 0 then "" else pieces[0] + Concat(pieces[1..])
  }

  lemma {:induction false} ConcatNoPlaceholders(pieces: seq<string>)
    requires forall i :: 0 <= i < |pieces| ==> '?' !in pieces[i]
    ensures '?' !in Concat(pieces)
  {
    if |pieces| > 0 {
      ConcatNoPlaceholders(pieces[1..]);
    }
  }

  lemma ClausesAppend(cs: seq<Condition>, c: Condition)
    ensures Clauses(cs + [c]) == Clauses(cs) + [ClauseText(c)]
    ensures Params(cs + [c]) == Params(cs) + [ParamOf(c)]
  {
    assert forall i :: 0 <= i < |cs| ==> (cs + [c])[i] == cs[i];
  }

  /** Joining texts that hold one placeholder each, with a separator that
      holds none, gives as many placeholders as texts. */
  lemma {:induction false} PlaceholdersJoin(parts: seq<string>, sep: string)
    requires Placeholders(sep) == 0
    requires forall i :: 0 <= i < |parts| ==> Placeholders(parts[i]) == 1
    ensures Placeholders(Join(parts, sep)) == |parts|
  {
    if |parts| > 1 {
      PlaceholdersJoin(parts[1..], sep);
    }
  }

  lemma ClausesPlaceholders(cs: seq<Condition>)
    requires forall i :: 0 <= i < |cs| ==> '?' !in cs[i].column
    ensures forall i :: 0 <= i < |cs| ==> Placeholders(Clauses(cs)[i]) == 1
  {
    forall i | 0 <= i < |cs| ensures Placeholders(Clauses(cs)[i]) == 1 {
      ClausePlaceholder(cs[i]);
    }
  }

  lemma SeparatorsHoldNoPlaceholders()
    ensures Placeholders(" AND ") == 0
    ensures Placeholders(" WHERE ") == 0
  {
    assert '?' !in " AND ";
    assert '?' !in " WHERE ";
  }

  /** The WHERE text holds exactly one placeholder per condition, when
      column names hold none. */
  lemma WherePlaceholders(cs: seq<Condition>)
    requires forall i :: 0 <= i < |cs| ==> '?' !in cs[i].column
    ensures Placeholders(WhereClause(cs)) == |cs|
  {
    if |cs| > 0 {
      var parts := Clauses(cs);
      ClausesPlaceholders(cs);
      SeparatorsHoldNoPlaceholders();
      PlaceholdersJoin(parts, " AND ");
      PlaceholdersConcat(" WHERE ", Join(parts, " AND "));
    }
  }

  /** The condition a filter contributes: none when the filter is falsy. */
  function LikeIf(column: string, f: Option<string>): seq<Condition>
  {
    if Truthy(f) then [Like(column, f.value)] else []
  }

  function EqualsIf(column: string, f: Option<string>): seq<Condition>
  {
    if Truthy(f) then [Equals(column, f.value)] else []
  }

  /** One `if (f) { filters.push(...); params.push(...) }` step keeps the
      collected texts and parameters those of the conditions so far. */
  lemma PushLike(cs: seq<Condition>, filters: seq<string>, params: seq<string>, column: string, f: Option<string>)
    requires filters == Clauses(cs) && params == Params(cs)
    ensures Truthy(f) ==>
              && filters + [column + " LIKE ?"] == Clauses(cs + LikeIf(column, f))
              && params + ["%" + f.value + "%"] == Params(cs + LikeIf(column, f))
    ensures !Truthy(f) ==> filters == Clauses(cs + LikeIf(column, f)) && params == Params(cs + LikeIf(column, f))
  {
    if Truthy(f) {
      ClausesAppend(cs, Like(column, f.value));
    } else {
      assert cs + LikeIf(column, f) == cs;
    }
  }

  lemma PushEquals(cs: seq<Condition>, filters: seq<string>, params: seq<string>, column: string, f: Option<string>)
    requires filters == Clauses(cs) && params == Params(cs)
    ensures Truthy(f) ==>
              && filters + [column + " = ?"] == Clauses(cs + EqualsIf(column, f))
              && params + [f.value] == Params(cs + EqualsIf(column, f))
    ensures !Truthy(f) ==> filters == Clauses(cs + EqualsIf(column, f)) && params == Params(cs + EqualsIf(column, f))
  {
    if Truthy(f) {
      ClausesAppend(cs, Equals(column, f.value));
    } else {
      assert cs + EqualsIf(column, f) == cs;
    }
  }

  lemma LikeIfShape(column: string, f: Option<string>)
    ensures |LikeIf(column, f)| == if Truthy(f) then 1 else 0
    ensures forall c :: c in LikeIf(column, f) <==> Truthy(f) && c == Like(column, f.value)
  {
  }

  lemma EqualsIfShape(column: string, f: Option<string>)
    ensures |EqualsIf(column, f)| == if Truthy(f) then 1 else 0
    ensures forall c :: c in EqualsIf(column, f) <==> Truthy(f) && c == Equals(column, f.value)
  {
  }

  const UsersSelectPieces: seq<string> := ["SELECT id, name, ", "email, address, ", "role FROM users"]
  const UsersSelect: string := Concat(UsersSelectPieces)
  const UsersOrder: string := " ORDER BY name ASC"

  /** The assembled select is the listing query of `getAllUsers`. */
  lemma UsersSelectText()
    ensures UsersSelect == "SELECT id, name, email, address, role FROM users"
  {
  }

  lemma UsersTextsHoldNoPlaceholders()
    ensures '?' !in UsersSelect
  {
    assert forall i :: 0 <= i < |UsersSelectPieces| ==> '?' !in UsersSelectPieces[i];
    ConcatNoPlaceholders(UsersSelectPieces);
  }

  lemma UsersOrderHoldsNoPlaceholder()
    ensures '?' !in UsersOrder
  {
    assert UsersOrder == " ORDER BY " + "name ASC";
    assert '?' !in " ORDER BY " && '?' !in "name ASC";
  }

  /** Position of a user-list column in the fixed filter order. */
  function UserColumnRank(column: string): nat
  {
    if column == "name" then 0 else if column == "email" then 1 else if column == "address" then 2 else 3
  }

  /** The four guarded pushes of `getAllUsers`, as conditions. */
  function UserPushes(q: UserFilter): seq<Condition>
  {
    LikeIf("name", q.name) + LikeIf("email", q.email) + LikeIf("address", q.address) + EqualsIf("role", q.role)
  }

  lemma UserPushesCount(q: UserFilter)
    ensures var cs := UserPushes(q);
            && |cs| == (if Truthy(q.name) then 1 else 0) + (if Truthy(q.email) then 1 else 0)
                       + (if Truthy(q.address) then 1 else 0) + (if Truthy(q.role) then 1 else 0)
            && (Truthy(q.name) ==> cs[0] == Like("name", q.name.value))
            && (Truthy(q.role) ==> cs[|cs| - 1] == Equals("role", q.role.value))
  {
  }

  lemma UserPushesColumns(q: UserFilter)
    ensures var cs := UserPushes(q);
            && (forall i :: 0 <= i < |cs| ==> (cs[i].Equals? <==> cs[i].column == "role"))
            && (forall i :: 0 <= i < |cs| ==> cs[i].column in {"name", "email", "address", "role"})
            && (forall i, j :: 0 <= i < j < |cs| ==> UserColumnRank(cs[i].column) < UserColumnRank(cs[j].column))
  {
  }

  lemma UserPushesMembers(q: UserFilter)
    ensures forall c :: c in UserPushes(q) <==>
              || (Truthy(q.name) && c == Like("name", q.name.value))
              || (Truthy(q.email) && c == Like("email", q.email.value))
              || (Truthy(q.address) && c == Like("address", q.address.value))
              || (Truthy(q.role) && c == Equals("role", q.role.value))
  {
    LikeIfShape("name", q.name);
    LikeIfShape("email", q.email);
    LikeIfShape("address", q.address);
    EqualsIfShape("role", q.role);
  }

  /** The conditions `getAllUsers` builds: name, email and address as
      substring patterns, role as an exact match, each only when given, in
      that fixed order. */
  function UserConditions(q: UserFilter): (cs: seq<Condition>)
    ensures |cs| == (if Truthy(q.name) then 1 else 0) + (if Truthy(q.email) then 1 else 0)
                    + (if Truthy(q.address) then 1 else 0) + (if Truthy(q.role) then 1 else 0)
    ensures Truthy(q.name) ==> cs[0] == Like("name", q.name.value)
    ensures Truthy(q.role) ==> cs[|cs| - 1] == Equals("role", q.role.value)
    ensures forall i :: 0 <= i < |cs| ==> (cs[i].Equals? <==> cs[i].column == "role")
    ensures forall i :: 0 <= i < |cs| ==> cs[i].column in {"name", "email", "address", "role"}
    ensures forall i, j :: 0 <= i < j < |cs| ==> UserColumnRank(cs[i].column) < UserColumnRank(cs[j].column)
    ensures forall c :: c in cs <==>
              || (Truthy(q.name) && c == Like("name", q.name.value))
              || (Truthy(q.email) && c == Like("email", q.email.value))
              || (Truthy(q.address) && c == Like("address", q.address.value))
              || (Truthy(q.role) && c == Equals("role", q.role.value))
  {
    UserPushesCount(q);
    UserPushesColumns(q);
    UserPushesMembers(q);
    UserPushes(q)
  }

  lemma UserColumnsPlaceholderFree(q: UserFilter)
    ensures forall i :: 0 <= i < |UserConditions(q)| ==> '?' !in UserConditions(q)[i].column
  {
    var cs := UserConditions(q);
    forall i | 0 <= i < |cs| ensures '?' !in cs[i].column {
      assert cs[i].column in {"name", "email", "address", "role"};
    }
  }

  /** The filter texts and parameters `getAllUsers` collects, in order. */
  method CollectUserFilters(q: UserFilter) returns (filters: seq<string>, params: seq<string>)
    ensures filters == Clauses(UserConditions(q))
    ensures params == Params(UserConditions(q))
  {
    ghost var cs: seq<Condition> := [];
    filters := [];
    params := [];
    PushLike(cs, filters, params, "name", q.name);
    if Truthy(q.name) {
      assert "name" + " LIKE ?" == "name LIKE ?";
      filters := filters + ["name LIKE ?"];
      params := params + ["%" + q.name.value + "%"];
    }
    cs := cs + LikeIf("name", q.name);
    PushLike(cs, filters, params, "email", q.email);
    if Truthy(q.email) {
      assert "email" + " LIKE ?" == "email LIKE ?";
      filters := filters + ["email LIKE ?"];
      params := params + ["%" + q.email.value + "%"];
    }
    cs := cs + LikeIf("email", q.email);
    PushLike(cs, filters, params, "address", q.address);
    if Truthy(q.address) {
      assert "address" + " LIKE ?" == "address LIKE ?";
      filters := filters + ["address LIKE ?"];
      params := params + ["%" + q.address.value + "%"];
    }
    cs := cs + LikeIf("address", q.address);
    PushEquals(cs, filters, params, "role", q.role);
    if Truthy(q.role) {
      assert "role" + " = ?" == "role = ?";
      filters := filters + ["role = ?"];
      params := params + [q.role.value];
    }
    cs := cs + EqualsIf("role", q.role);
    assert cs == LikeIf("name", q.name) + LikeIf("email", q.email) + LikeIf("address", q.address) + EqualsIf("role", q.role);
  }

  /** The assembled user listing binds one parameter per condition, and is
      the bare listing exactly when no filter is given. */
  lemma UsersQueryBinds(q: UserFilter, sql: string)
    requires sql == UsersSelect + WhereClause(UserConditions(q)) + UsersOrder
    ensures Placeholders(sql) == |UserConditions(q)|
    ensures |UserConditions(q)| == 0 <==> sql == UsersSelect + UsersOrder
  {
    UsersTextsHoldNoPlaceholders();
    UsersOrderHoldsNoPlaceholder();
    UserColumnsPlaceholderFree(q);
    QueryPlaceholders(UsersSelect, UserConditions(q), UsersOrder, sql);
  }

  /** `getAllUsers`: assembles the SQL text and its parameter list. */
  method BuildUsersQuery(q: UserFilter) returns (sql: string, params: seq<string>)
    ensures params == Params(UserConditions(q))
    ensures sql == UsersSelect + WhereClause(UserConditions(q)) + UsersOrder
    ensures Placeholders(sql) == |params|
    ensures |params| == 0 <==> sql == UsersSelect + UsersOrder
  {
    var filters;
    filters, params := CollectUserFilters(q);
    var where := "";
    if |filters| > 0 {
      where := " WHERE " + Join(filters, " AND ");
    }
    WhereOfFilters(filters, UserConditions(q), where);
    sql := UsersSelect + where + UsersOrder;
    UsersQueryBinds(q, sql);
    assert |params| == |UserConditions(q)|;
  }

  const StoresSelectPieces: seq<string> := [
    "\n            ", "SELECT s.id, ", "s.name, s.email, ", "s.address, u.name ", "AS owner_name,",
    "\n            ", "(SELECT AVG(", "rating) FROM ratings ", "r WHERE r.store_id ", "= s.id) AS avgRating",
    "\n            ", "FROM stores s",
    "\n            ", "LEFT JOIN ", "users u ON s.owner_id", " = u.id",
    "\n        "]
  const StoresSelect: string := Concat(StoresSelectPieces)
  const StoresOrder: string := " ORDER BY s.name ASC"

  lemma StoresTextsHoldNoPlaceholders()
    ensures '?' !in StoresSelect
  {
    assert forall i :: 0 <= i < |StoresSelectPieces| ==> '?' !in StoresSelectPieces[i];
    ConcatNoPlaceholders(StoresSelectPieces);
  }

  lemma StoresOrderHoldsNoPlaceholder()
    ensures '?' !in StoresOrder
  {
    assert StoresOrder == " ORDER BY " + "s.name ASC";
    assert '?' !in " ORDER BY " && '?' !in "s.name ASC";
  }

  /** A query text made of a placeholder-free head and tail around the WHERE
      clause binds exactly one parameter per condition. */
  lemma QueryPlaceholders(head: string, cs: seq<Condition>, tail: string, sql: string)
    requires '?' !in head && '?' !in tail
    requires forall i :: 0 <= i < |cs| ==> '?' !in cs[i].column
    requires sql == head + WhereClause(cs) + tail
    ensures Placeholders(sql) == |cs|
    ensures |cs| == 0 <==> sql == head + tail
  {
    var w := WhereClause(cs);
    WherePlaceholders(cs);
    assert multiset(head + w) == multiset(head) + multiset(w);
    assert multiset(sql) == multiset(head + w) + multiset(tail);
    if |cs| == 0 {
      assert head + w == head;
    } else {
      assert |w| > 0;
      assert |sql| > |head + tail|;
    }
  }

  function StoreColumnRank(column: string): nat
  {
    if column == "s.name" then 0 else if column == "s.email" then 1 else 2
  }

  /** The conditions `getAllStores` builds: the same shape over `s.`-prefixed
      columns, all substring patterns, no role filter. */
  function StoreConditions(q: StoreFilter): (cs: seq<Condition>)
    ensures |cs| == (if Truthy(q.name) then 1 else 0) + (if Truthy(q.email) then 1 else 0)
                    + (if Truthy(q.address) then 1 else 0)
    ensures Truthy(q.name) ==> cs[0] == Like("s.name", q.name.value)
    ensures forall i :: 0 <= i < |cs| ==> cs[i].Like?
    ensures forall i :: 0 <= i < |cs| ==> cs[i].column in {"s.name", "s.email", "s.address"}
    ensures forall i, j :: 0 <= i < j < |cs| ==> StoreColumnRank(cs[i].column) < StoreColumnRank(cs[j].column)
    ensures forall c :: c in cs <==>
              || (Truthy(q.name) && c == Like("s.name", q.name.value))
              || (Truthy(q.email) && c == Like("s.email", q.email.value))
              || (Truthy(q.address) && c == Like("s.address", q.address.value))
  {
    LikeIfShape("s.name", q.name);
    LikeIfShape("s.email", q.email);
    LikeIfShape("s.address", q.address);
    LikeIf("s.name", q.name) + LikeIf("s.email", q.email) + LikeIf("s.address", q.address)
  }

  lemma StoreColumnsPlaceholderFree(q: StoreFilter)
    ensures forall i :: 0 <= i < |StoreConditions(q)| ==> '?' !in StoreConditions(q)[i].column
  {
    var cs := StoreConditions(q);
    forall i | 0 <= i < |cs| ensures '?' !in cs[i].column {
      assert cs[i].column in {"s.name", "s.email", "s.address"};
    }
  }

  /** The filter texts and parameters `getAllStores` collects, in order. */
  method CollectStoreFilters(q: StoreFilter) returns (filters: seq<string>, params: seq<string>)
    ensures filters == Clauses(StoreConditions(q))
    ensures params == Params(StoreConditions(q))
  {
    ghost var cs: seq<Condition> := [];
    filters := [];
    params := [];
    PushLike(cs, filters, params, "s.name", q.name);
    if Truthy(q.name) {
      assert "s.name" + " LIKE ?" == "s.name LIKE ?";
      filters := filters + ["s.name LIKE ?"];
      params := params + ["%" + q.name.value + "%"];
    }
    cs := cs + LikeIf("s.name", q.name);
    PushLike(cs, filters, params, "s.email", q.email);
    if Truthy(q.email) {
      assert "s.email" + " LIKE ?" == "s.email LIKE ?";
      filters := filters + ["s.email LIKE ?"];
      params := params + ["%" + q.email.value + "%"];
    }
    cs := cs + LikeIf("s.email", q.email);
    PushLike(cs, filters, params, "s.address", q.address);
    if Truthy(q.address) {
      assert "s.address" + " LIKE ?" == "s.address LIKE ?";
      filters := filters + ["s.address LIKE ?"];
      params := params + ["%" + q.address.value + "%"];
    }
    cs := cs + LikeIf("s.address", q.address);
    assert cs == LikeIf("s.name", q.name) + LikeIf("s.email", q.email) + LikeIf("s.address", q.address);
  }

  /** The assembled store listing binds one parameter per condition, and is
      the bare listing exactly when no filter is given. */
  lemma StoresQueryBinds(q: StoreFilter, sql: string)
    requires sql == StoresSelect + WhereClause(StoreConditions(q)) + StoresOrder
    ensures Placeholders(sql) == |StoreConditions(q)|
    ensures |StoreConditions(q)| == 0 <==> sql == StoresSelect + StoresOrder
  {
    StoresTextsHoldNoPlaceholders();
    StoresOrderHoldsNoPlaceholder();
    StoreColumnsPlaceholderFree(q);
    QueryPlaceholders(StoresSelect, StoreConditions(q), StoresOrder, sql);
  }

  /** `getAllStores`: the same assembly over the store listing query. */
  method BuildStoresQuery(q: StoreFilter) returns (sql: string, params: seq<string>)
    ensures params == Params(StoreConditions(q))
    ensures sql == StoresSelect + WhereClause(StoreConditions(q)) + StoresOrder
    ensures Placeholders(sql) == |params|
    ensures |params| == 0 <==> sql == StoresSelect + StoresOrder
  {
    var filters;
    filters, params := CollectStoreFilters(q);
    var where := "";
    if |filters| > 0 {
      where := " WHERE " + Join(filters, " AND ");
    }
    WhereOfFilters(filters, StoreConditions(q), where);
    sql := StoresSelect + where + StoresOrder;
    StoresQueryBinds(q, sql);
    assert |params| == |StoreConditions(q)|;
  }
}
