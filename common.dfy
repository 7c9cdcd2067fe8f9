/** Shared vocabulary of the grievance system: optional values, HTTP-style
    replies, roles, identifiers and the "first match" lookup that every
    findOne/findById in the backend performs. */
module Common {

  datatype Option<+T> = None | Some(value: T)

  /** What a route handler sends back: a success status with a body, or an
      error status with the `{ error }` string. */
  datatype Response<+T> = Success(status: nat, value: T) | Failure(status: nat, error: string)

  /** The two roles a stored user can hold. */
  datatype Role = UserRole | AdminRole

  type UserId = nat
  type GrievanceId = nat

  /** Milliseconds (Date.now()) or seconds, as each caller states. */
  type Time = int

  /** Index of the first element satisfying `p` -- the document a
      `findOne`/`findById` returns when the collection is read in its
      natural order. */
  function FindFirst<T>(s: seq<T>, p: T -> bool): (r: Option<nat>)
    ensures r.Some? ==> r.value < |s| && p(s[r.value])
    ensures r.Some? ==> forall j :: 0 <= j < r.value ==> !p(s[j])
    ensures r.None? <==> forall j :: 0 <= j < |s| ==> !p(s[j])
  {
    if |s| == 0 then None
    else if p(s[0]) then Some(0)
    else match FindFirst(s[1..], p)
      case None => None
      case Some(k) => Some(k + 1)
  }

  /** The first match is the one position that satisfies `p` with no
      earlier position doing so. */
  lemma FindFirstIs<T>(s: seq<T>, p: T -> bool, k: nat)
    requires k < |s| && p(s[k])
    requires forall j :: 0 <= j < k ==> !p(s[j])
    ensures FindFirst(s, p) == Some(k)
  {
    var r := FindFirst(s, p);
    assert r.Some?;
    assert !(r.value < k);
  }

  /** Searching a concatenation finds the first part's match, or else the
      second part's, shifted past the first. */
  lemma FindFirstAppend<T>(s: seq<T>, t: seq<T>, p: T -> bool)
    ensures FindFirst(s + t, p) ==
      match FindFirst(s, p)
      case Some(k) => Some(k)
      case None => match FindFirst(t, p) { case Some(k) => Some(|s| + k) case None => None }
  {
    var st := s + t;
    match FindFirst(s, p)
    case Some(k) =>
      assert forall j :: 0 <= j <= k ==> st[j] == s[j];
      FindFirstIs(st, p, k);
    case None =>
      match FindFirst(t, p)
      case Some(k) =>
        assert forall j :: 0 <= j < |s| ==> st[j] == s[j];
        assert forall j :: |s| <= j <= |s| + k ==> st[j] == t[j - |s|];
        FindFirstIs(st, p, |s| + k);
      case None =>
        assert forall j :: 0 <= j < |s| ==> st[j] == s[j];
        assert forall j :: |s| <= j < |st| ==> st[j] == t[j - |s|];
  }

  /** The elements of `s` satisfying `p`, in their original order
      (a query's result before sorting). */
  function Filter<T>(s: seq<T>, p: T -> bool): (r: seq<T>)
    ensures |r| <= |s|
    ensures forall i :: 0 <= i < |r| ==> r[i] in s && p(r[i])
    ensures forall i :: 0 <= i < |s| && p(s[i]) ==> s[i] in r
  {
    if |s| == 0 then []
    else if p(s[0]) then [s[0]] + Filter(s[1..], p)
    else Filter(s[1..], p)
  }

  /** Number of elements of `s` satisfying `p`, counted on its own
      (the way `countDocuments` is a separate query from `find`). */
  function Count<T>(s: seq<T>, p: T -> bool): (n: nat)
    ensures n <= |s|
  {
    if |s| == 0 then 0
    else (if p(s[0]) then 1 else 0) + Count(s[1..], p)
  }

  /** The independently computed count agrees with the length of the
      filtered sequence. */
  lemma {:induction false} CountIsFilterLength<T>(s: seq<T>, p: T -> bool)
    ensures Count(s, p) == |Filter(s, p)|
  {
    if |s| > 0 {
      CountIsFilterLength(s[1..], p);
    }
  }

  /** Filtering with two predicates that agree on every element gives the
      same sequence. */
  lemma {:induction false} FilterAgrees<T>(s: seq<T>, p: T -> bool, q: T -> bool)
    requires forall x :: x in s ==> p(x) == q(x)
    ensures Filter(s, p) == Filter(s, q)
  {
    if |s| > 0 {
      FilterAgrees(s[1..], p, q);
    }
  }

  /** Counting the elements that satisfy one of two exclusive predicates
      is adding the two counts. */
  lemma {:induction false} CountDisjointUnion<T>(s: seq<T>, p: T -> bool, q: T -> bool, pq: T -> bool)
    requires forall x :: x in s ==> !(p(x) && q(x))
    requires forall x :: x in s ==> pq(x) == (p(x) || q(x))
    ensures Count(s, pq) == Count(s, p) + Count(s, q)
  {
    if |s| > 0 {
      CountDisjointUnion(s[1..], p, q, pq);
    }
  }

  /** Nothing satisfying `p` means a count of zero. */
  lemma {:induction false} CountNone<T>(s: seq<T>, p: T -> bool)
    requires forall i :: 0 <= i < |s| ==> !p(s[i])
    ensures Count(s, p) == 0
  {
    if |s| > 0 {
      assert forall i :: 0 <= i < |s[1..]| ==> s[1..][i] == s[i + 1];
      CountNone(s[1..], p);
    }
  }

  function Min(a: int, b: int): int { if a <= b then a else b }
  function Max(a: int, b: int): int { if a >= b then a else b }
}
