/** The access guard `verifyToken(roles)`: from the Authorization header and
    the list of allowed roles it decides 401, 403, or proceed with the decoded
    claim. Token verification (signature and expiry) is the `verify`
    parameter: it yields the decoded claim, or `None` where `jwt.verify`
    throws. */
module AuthMiddleware {
  import opened Common

  /** The decoded token payload: `{id, role, name}` plus the `iat`/`exp`
      timestamps (seconds) that token signing adds. */
  datatype Claim = Claim(id: int, role: string, name: string, iat: int, exp: int)

  /** Exactly one of the three outcomes of one guarded request. `Forbidden`
      carries the claim because `req.user` is assigned before the role check. */
  datatype GuardOutcome =
    | Unauthorized           // 401 "Unauthorized"
    | InvalidToken           // 401 "Invalid token"
    | Forbidden(user: Claim) // 403 "Forbidden: Insufficient rights"
    | Proceed(user: Claim)   // next() runs with req.user == user
  {
    function Response(): Option<Reply>
    {
      match this
      case Unauthorized => Some(Msg(401, "Unauthorized"))
      case InvalidToken => Some(Msg(401, "Invalid token"))
      case Forbidden(_) => Some(Msg(403, "Forbidden: Insufficient rights"))
      case Proceed(_) => None
    }
  }

  const BearerPrefix: string := "Bearer "

  /** The header is present, non-empty and starts with "Bearer ". */
  predicate IsBearer(header: Option<string>)
  {
    Truthy(header) && |header.value| >= |BearerPrefix| && header.value[..|BearerPrefix|] == BearerPrefix
  }

  /** `s.split(sep)` on a single-character separator. */
  function Split(s: string, sep: char): (r: seq<string>)
    ensures |r| >= 1
  {
    if |s| == 0 then [""]
    else if s[0] == sep then [""] + Split(s[1..], sep)
    else
      var rest := Split(s[1..], sep);
      [[s[0]] + rest[0]] + rest[1..]
  }

  /** Joining the fields back with the separator gives the original string. */
  lemma {:induction false} SplitJoin(s: string, sep: char)
    ensures Join(Split(s, sep), [sep]) == s
  {
    if |s| == 0 {
    } else if s[0] == sep {
      SplitJoin(s[1..], sep);
      var rest := Split(s[1..], sep);
      assert Split(s, sep) == [""] + rest;
      assert ([""] + rest)[1..] == rest;
      assert s == [sep] + s[1..];
    } else {
      SplitJoin(s[1..], sep);
      var rest := Split(s[1..], sep);
      var r := Split(s, sep);
      assert r == [[s[0]] + rest[0]] + rest[1..];
      if |rest| == 1 {
        assert r == [[s[0]] + rest[0]];
      } else {
        assert r[1..] == rest[1..];
        assert Join(rest, [sep]) == rest[0] + [sep] + Join(rest[1..], [sep]);
      }
      assert s == [s[0]] + s[1..];
    }
  }

  /** No field contains the separator. */
  lemma {:induction false} SplitFieldsFree(s: string, sep: char)
    ensures forall i :: 0 <= i < |Split(s, sep)| ==> sep !in Split(s, sep)[i]
  {
    if |s| > 0 {
      SplitFieldsFree(s[1..], sep);
      var rest := Split(s[1..], sep);
      var r := Split(s, sep);
      if s[0] != sep {
        forall i | 0 <= i < |r| ensures sep !in r[i] {
          if i > 0 { assert r[i] == rest[i]; }
        }
      }
    }
  }

  /** Splitting at the first separator peels off the first field. */
  lemma {:induction false} SplitAtFirst(a: string, sep: char, b: string)
    requires sep !in a
    ensures Split(a + [sep] + b, sep) == [a] + Split(b, sep)
  {
    var s := a + [sep] + b;
    if |a| == 0 {
      assert s[1..] == b;
    } else {
      assert s[1..] == a[1..] + [sep] + b;
      SplitAtFirst(a[1..], sep, b);
      assert [a[0]] + a[1..] == a;
    }
  }

  /** The first field is the longest separator-free prefix. */
  lemma {:induction false} SplitHead(s: string, sep: char)
    ensures sep !in Split(s, sep)[0]
    ensures |Split(s, sep)[0]| <= |s| && Split(s, sep)[0] == s[..|Split(s, sep)[0]|]
    ensures |Split(s, sep)[0]| == |s| || s[|Split(s, sep)[0]|] == sep
  {
    if |s| > 0 && s[0] != sep {
      SplitHead(s[1..], sep);
      var rest := Split(s[1..], sep);
      assert Split(s, sep)[0] == [s[0]] + rest[0];
    }
  }

  /** `authHeader.split(" ")[1]` on a bearer header: the text after
      "Bearer " up to the next space or the end. */
  function BearerToken(header: string): (token: string)
    requires |header| >= |BearerPrefix| && header[..|BearerPrefix|] == BearerPrefix
    ensures ' ' !in token
    ensures |BearerPrefix| + |token| <= |header|
    ensures token == header[|BearerPrefix|..|BearerPrefix| + |token|]
    ensures |BearerPrefix| + |token| == |header| || header[|BearerPrefix| + |token|] == ' '
  {
    var rest := header[|BearerPrefix|..];
    assert header == "Bearer" + [' '] + rest;
    SplitAtFirst("Bearer", ' ', rest);
    SplitHead(rest, ' ');
    Split(header, ' ')[1]
  }

  /** A header built as "Bearer " + token hands exactly that token to
      verification, when the token holds no space. */
  lemma BearerTokenOf(token: string)
    requires ' ' !in token
    ensures IsBearer(Some(BearerPrefix + token))
    ensures BearerToken(BearerPrefix + token) == token
  {
    var h := BearerPrefix + token;
    assert h[..|BearerPrefix|] == BearerPrefix;
    var t := BearerToken(h);
    assert t == token[..|t|];
  }

  /** `verifyToken(roles)` applied to one request at time `now`. */
  function Guard(header: Option<string>, roles: seq<string>,
                 verify: (string, int) -> Option<Claim>, now: int): (o: GuardOutcome)
    ensures o.Unauthorized? <==> !IsBearer(header)
    ensures o.InvalidToken? <==> IsBearer(header) && verify(BearerToken(header.value), now).None?
    ensures (o.Forbidden? || o.Proceed?) ==>
              IsBearer(header) && verify(BearerToken(header.value), now) == Some(o.user)
    ensures o.Forbidden? ==> |roles| > 0 && o.user.role !in roles
    ensures o.Proceed? ==> |roles| == 0 || o.user.role in roles
  {
    if !IsBearer(header) then Unauthorized
    else
      match verify(BearerToken(header.value), now)
      case None => InvalidToken
      case Some(decoded) =>
        if |roles| > 0 && decoded.role !in roles then Forbidden(decoded)
        else Proceed(decoded)
  }

  /** With the default empty role list every verified claim proceeds. */
  lemma EmptyRolesNeverForbid(header: Option<string>, verify: (string, int) -> Option<Claim>, now: int)
    ensures !Guard(header, [], verify, now).Forbidden?
    ensures IsBearer(header) && verify(BearerToken(header.value), now).Some? ==>
              Guard(header, [], verify, now) == Proceed(verify(BearerToken(header.value), now).value)
  {
  }

  /** The guarded store routes and the role each admits. */
  datatype StoreRoute = Dashboard | RatingsList | AverageRating | AllStores | Rate

  function RouteRoles(route: StoreRoute): (roles: seq<string>)
    ensures |roles| == 1
  {
    match route
    case Dashboard => ["store_owner"]
    case RatingsList => ["store_owner"]
    case AverageRating => ["store_owner"]
    case AllStores => ["normaluser"]
    case Rate => ["normaluser"]
  }

  /** A request reaches a store handler only with a claim of that route's role:
      owners' dashboards and rating lists are closed to normal users, and rating
      submission is closed to owners and admins. */
  lemma RouteAdmitsOnlyItsRole(route: StoreRoute, header: Option<string>,
                               verify: (string, int) -> Option<Claim>, now: int)
    ensures var o := Guard(header, RouteRoles(route), verify, now);
            o.Proceed? ==> o.user.role == RouteRoles(route)[0]
    ensures var o := Guard(header, RouteRoles(route), verify, now);
            IsBearer(header) && verify(BearerToken(header.value), now).Some? ==>
              (o.Proceed? <==> verify(BearerToken(header.value), now).value.role == RouteRoles(route)[0])
  {
  }
}
