/**
 * Vocabulary shared by every store of the parcel-logistics backend: optional
 * values, the handlers' error outcomes, partial-update fields, timestamps,
 * Python truthiness, SQL paging and the ILIKE text filter.
 */
module Common {

  datatype Option<+T> = None | Some(value: T)

  /** What a handler raises instead of answering: 404, 400 with a detail
      message, the database refusing a commit that breaks a unique index
      (IntegrityError, answered with 500), or (only in the as-written model
      of the in-memory receiver router) a NameError on a global that was
      never bound. */
  datatype Error = NotFound | Conflict(detail: string) | Rejected | Unbound(name: string)

  datatype Result<+T> = Ok(value: T) | Err(error: Error)

  /** One field of a partial-update body: `Unset` when the request leaves
      the field out (it is then absent from `model_dump(exclude_unset=True)`),
      `Set(v)` when the request supplies it, possibly with null. */
  datatype Field<+T> = Unset | Set(value: T)

  /** The value a field has after `setattr` runs for the supplied keys only. */
  function Apply<T>(f: Field<T>, current: T): T
  {
    match f
    case Unset => current
    case Set(v) => v
  }

  /** An instant read from the injected clock (`datetime.now()`). */
  type Time = int

  /** A weight, dimension, capacity or price: stored and returned, never
      computed with. */
  type Number = real

  /** Python truthiness of an optional string query parameter or body field:
      None and "" are false. */
  predicate TruthyText(s: Option<string>)
  {
    s.Some? && s.value != ""
  }

  /** Python truthiness of an optional integer: None and 0 are false. */
  predicate TruthyId(n: Option<int>)
  {
    n.Some? && n.value != 0
  }

  predicate NoDup<T(==)>(s: seq<T>)
  {
    forall i, j :: 0 <= i < j < |s| ==> s[i] != s[j]
  }

  /** How many of n matching rows `OFFSET skip LIMIT limit` returns. */
  function PageSize(n: nat, skip: nat, limit: nat): nat
  {
    if n <= skip then 0 else if n - skip < limit then n - skip else limit
  }

  /** The rows of `s` that `OFFSET skip LIMIT limit` keeps. */
  function Window<T>(s: seq<T>, skip: nat, limit: nat): (r: seq<T>)
    ensures |r| == PageSize(|s|, skip, limit) && |r| <= limit
    ensures forall i :: 0 <= i < |r| ==> r[i] == s[skip + i]
  {
    if |s| <= skip then []
    else if |s| - skip < limit then s[skip..]
    else s[skip..skip + limit]
  }

  /** A window of a sequence without repeated elements repeats none either. */
  lemma WindowNoDup<T>(s: seq<T>, skip: nat, limit: nat)
    requires NoDup(s)
    ensures NoDup(Window(s, skip, limit))
  {
    var r := Window(s, skip, limit);
    forall i, j | 0 <= i < j < |r|
      ensures r[i] != r[j]
    {
      assert r[i] == s[skip + i] && r[j] == s[skip + j];
    }
  }

  /** Python's normalisation of one slice bound against a length n. */
  function SliceBound(i: int, n: nat): (b: nat)
    ensures b <= n
  {
    if i < 0 then (if n + i < 0 then 0 else n + i)
    else if n < i then n
    else i
  }

  /** Python's `s[lo:hi]` for integer bounds, negative ones included. */
  function PySlice<T>(s: seq<T>, lo: int, hi: int): (r: seq<T>)
    ensures forall x :: x in r ==> x in s
  {
    var a, b := SliceBound(lo, |s|), SliceBound(hi, |s|);
    if a < b then s[a..b] else []
  }

  /** `s[skip : skip + limit]` never holds more than `limit` elements when
      limit is not negative, whatever the sign of skip. */
  lemma PySliceLength<T>(s: seq<T>, skip: int, limit: int)
    requires 0 <= limit
    ensures |PySlice(s, skip, skip + limit)| <= limit
  {
    var n := |s|;
    var a, b := SliceBound(skip, n), SliceBound(skip + limit, n);
    if a < b && skip < 0 && 0 <= skip + limit {
      assert n + skip <= a;
    }
  }

  /** A negative limit does not mean "nothing": `s[2:-1]` of ten elements
      holds seven. */
  lemma NegativeLimitReturnsRows(s: seq<int>)
    requires |s| == 10
    ensures |PySlice(s, 2, 2 + -3)| == 7
  {
  }

  /** With skip and limit not negative the Python slice is the SQL window. */
  lemma PySliceIsWindow<T>(s: seq<T>, skip: nat, limit: nat)
    ensures PySlice(s, skip, skip + limit) == Window(s, skip, limit)
  {
  }

  function LowerChar(c: char): char
  {
    if 'A' <= c <= 'Z' then (c as int - 'A' as int + 'a' as int) as char else c
  }

  /** ASCII lower-casing, the case folding this model gives ILIKE. */
  function Lower(s: string): (r: string)
    ensures |r| == |s|
  {
    seq(|s|, i requires 0 <= i < |s| => LowerChar(s[i]))
  }

  /** `sub` occurs in `s` at some position. */
  predicate Contains(s: string, sub: string)
    decreases |s|
  {
    sub <= s || (s != [] && Contains(s[1..], sub))
  }

  /** `text ILIKE '%pat%'`. */
  predicate ILike(text: string, pat: string)
  {
    Contains(Lower(text), Lower(pat))
  }
}
