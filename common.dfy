/** Small shared vocabulary: optional request fields, JavaScript truthiness of
    those fields, `Array.prototype.join`, first-match lookup, and HTTP replies. */
module Common {

  datatype Option<+T> = None | Some(value: T)

  /** A string request field as Express hands it over: `undefined`/`null` is
      `None`. In JavaScript the field is falsy when it is absent or "". */
  predicate Truthy(f: Option<string>)
  {
    f.Some? && f.value != ""
  }

  /** A numeric request field; 0 is falsy, like an absent one. */
  predicate TruthyNum(f: Option<int>)
  {
    f.Some? && f.value != 0
  }

  /** `f || null` on an optional string field. */
  function OrNull(f: Option<string>): (r: Option<string>)
    ensures r.Some? <==> Truthy(f)
    ensures r.Some? ==> r == f
  {
    if Truthy(f) then f else None
  }

  /** `f || null` on an optional numeric field. */
  function NumOrNull(f: Option<int>): (r: Option<int>)
    ensures r.Some? <==> TruthyNum(f)
    ensures r.Some? ==> r == f
  {
    if TruthyNum(f) then f else None
  }

  /** `parts.join(sep)`: the empty list joins to "". */
  function Join(parts: seq<string>, sep: string): string
  {
    if |parts| == 0 then ""
    else if |parts| == 1 then parts[0]
    else parts[0] + sep + Join(parts[1..], sep)
  }

  /** Index of the first element satisfying `p`: what `results[0]` of a
      `SELECT ... WHERE p` picks when the engine scans in table order. */
  function FirstWhere<T>(s: seq<T>, p: T -> bool): (r: Option<nat>)
    ensures r.Some? ==> r.value < |s| && p(s[r.value])
    ensures r.Some? ==> forall j :: 0 <= j < r.value ==> !p(s[j])
    ensures r.None? <==> forall j :: 0 <= j < |s| ==> !p(s[j])
  {
    if |s| == 0 then None
    else if p(s[0]) then Some(0)
    else match FirstWhere(s[1..], p)
      case None => None
      case Some(i) => Some(i + 1)
  }

  lemma {:induction false} FirstWhereAppend<T>(s: seq<T>, x: T, p: T -> bool)
    requires FirstWhere(s, p).None? && p(x)
    ensures FirstWhere(s + [x], p) == Some(|s|)
  {
    var t := s + [x];
    var r := FirstWhere(t, p);
    assert p(t[|s|]);
    assert r.Some?;
    assert forall j :: 0 <= j < |s| ==> t[j] == s[j];
  }

  /** Two sequences on which `p` agrees position by position have the same
      first match. */
  lemma {:induction false} FirstWhereAgree<T>(s: seq<T>, t: seq<T>, p: T -> bool)
    requires |s| == |t|
    requires forall i :: 0 <= i < |s| ==> p(s[i]) == p(t[i])
    ensures FirstWhere(s, p) == FirstWhere(t, p)
  {
    if |s| > 0 {
      FirstWhereAgree(s[1..], t[1..], p);
    }
  }

  /** An HTTP reply: status and the `message` field of the JSON body, and for
      the insert handlers the new row's `insertId`. */
  datatype Reply =
    | Msg(status: int, message: string)
    | MsgWithId(status: int, message: string, id: nat)
}
