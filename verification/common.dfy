/**
 * Shared vocabulary of the request handlers: optional body fields, the
 * error replies a handler can answer with, and JavaScript's `String.trim`.
 */
module Common {

  /** Document ids are opaque strings; the empty string stands for an id the client left out. */
  type Id = string

  /** A body field that the client may leave out. */
  datatype Option<+T> = None | Some(value: T)

  /**
   * The error replies of the handlers, one per HTTP status they use:
   * 400, 403, 404 and 500 in that order.
   */
  datatype Error = BadRequest | Forbidden | NotFound | ServerError

  /** What a state-changing handler produces: a new state, or an error and no change. */
  datatype Result<+T> = Ok(value: T) | Err(error: Error)

  /**
   * `s.filter(p)`: the elements that satisfy `p`, in their original order
   * and with their repeats (FilterCounts, FilterConcat).
   */
  function Filter<T(==,!new)>(s: seq<T>, p: T -> bool): (r: seq<T>)
    ensures |r| <= |s|
    ensures (forall i :: 0 <= i < |s| ==> p(s[i])) ==> r == s
    decreases |s|
  {
    if |s| == 0 then []
    else
      var rest := Filter(s[1..], p);
      if p(s[0]) then [s[0]] + rest else rest
  }

  /** The filter keeps every copy of each element that satisfies `p`, and nothing else. */
  lemma {:induction false} FilterCounts<T(!new)>(s: seq<T>, p: T -> bool)
    ensures forall x :: multiset(Filter(s, p))[x] == if p(x) then multiset(s)[x] else 0
    ensures forall x :: x in Filter(s, p) <==> x in s && p(x)
    decreases |s|
  {
    if |s| > 0 {
      assert s == [s[0]] + s[1..];
      FilterCounts(s[1..], p);
    }
  }

  /** Filtering a sequence with a first element decides that element, then filters the rest. */
  lemma FilterCons<T(!new)>(x: T, s: seq<T>, p: T -> bool)
    ensures Filter([x] + s, p) == if p(x) then [x] + Filter(s, p) else Filter(s, p)
  {
    assert ([x] + s)[0] == x && ([x] + s)[1..] == s;
  }

  /** Filtering distributes over concatenation, so the kept elements stay in order. */
  lemma {:induction false} FilterConcat<T(!new)>(a: seq<T>, b: seq<T>, p: T -> bool)
    ensures Filter(a + b, p) == Filter(a, p) + Filter(b, p)
    decreases |a|
  {
    if |a| == 0 {
      assert a + b == b;
    } else {
      var h, t := a[0], a[1..];
      assert a == [h] + t;
      assert a + b == [h] + (t + b);
      FilterConcat(t, b, p);
      FilterCons(h, t + b, p);
      FilterCons(h, t, p);
    }
  }

  /** JavaScript truthiness of an optional number: absent, 0 (and NaN) are falsy. */
  predicate TruthyInt(o: Option<int>) {
    o.Some? && o.value != 0
  }

  predicate TruthyReal(o: Option<real>) {
    o.Some? && o.value != 0.0
  }

  /** `v || prev` for a string field: the empty string is falsy. */
  function OrStr(v: string, prev: string): (r: string)
    ensures v != "" ==> r == v
    ensures v == "" ==> r == prev
  {
    if v != "" then v else prev
  }

  /** `v || prev` for an optional number field. */
  function OrInt(v: Option<int>, prev: int): (r: int)
    ensures TruthyInt(v) ==> r == v.value
    ensures !TruthyInt(v) ==> r == prev
  {
    if TruthyInt(v) then v.value else prev
  }

  /**
   * The characters `String.prototype.trim` removes: the ECMAScript
   * WhiteSpace and LineTerminator code points.
   */
  predicate IsJsSpace(c: char) {
    || c == '\t' || c == '\n' || c == '\U{000B}' || c == '\U{000C}' || c == '\r'
    || c == ' ' || c == '\U{00A0}' || c == '\U{1680}'
    || ('\U{2000}' <= c <= '\U{200A}')
    || c == '\U{2028}' || c == '\U{2029}' || c == '\U{202F}' || c == '\U{205F}'
    || c == '\U{3000}' || c == '\U{FEFF}'
  }

  predicate AllSpace(s: string) {
    forall i :: 0 <= i < |s| ==> IsJsSpace(s[i])
  }

  /** The index of the first character at or after `i` that is not white space, or |s|. */
  function SkipSpace(s: string, i: nat): (k: nat)
    requires i <= |s|
    ensures i <= k <= |s|
    ensures forall j :: i <= j < k ==> IsJsSpace(s[j])
    ensures k == |s| || !IsJsSpace(s[k])
    decreases |s| - i
  {
    if i < |s| && IsJsSpace(s[i]) then SkipSpace(s, i + 1) else i
  }

  /** The end of `s[lo..e]` once trailing white space is dropped. */
  function DropSpace(s: string, lo: nat, e: nat): (k: nat)
    requires lo <= e <= |s|
    ensures lo <= k <= e
    ensures forall j :: k <= j < e ==> IsJsSpace(s[j])
    ensures k == lo || !IsJsSpace(s[k - 1])
    decreases e
  {
    if e > lo && IsJsSpace(s[e - 1]) then DropSpace(s, lo, e - 1) else e
  }

  /** `s.trim()`: white space cut from both ends. */
  function Trim(s: string): (r: string)
    ensures |r| <= |s|
    ensures r == [] || (!IsJsSpace(r[0]) && !IsJsSpace(r[|r| - 1]))
  {
    var k := SkipSpace(s, 0);
    var e := DropSpace(s, k, |s|);
    if k == e then [] else s[k..e]
  }

  /**
   * The trimmed string is the slice of `s` starting at the returned index,
   * with only white space cut away on either side.
   */
  lemma TrimIsSlice(s: string) returns (k: nat)
    ensures k + |Trim(s)| <= |s| && Trim(s) == s[k..k + |Trim(s)|]
    ensures forall j :: 0 <= j < k ==> IsJsSpace(s[j])
    ensures forall j :: k + |Trim(s)| <= j < |s| ==> IsJsSpace(s[j])
  {
    k := SkipSpace(s, 0);
  }

  /** A string trims to nothing exactly when it is all white space. */
  lemma TrimEmptyIffBlank(s: string)
    ensures Trim(s) == "" <==> AllSpace(s)
  {
    var k := SkipSpace(s, 0);
    var e := DropSpace(s, k, |s|);
    assert k < |s| ==> !IsJsSpace(s[k]);
  }

  lemma TrimKeepsTrimmed(s: string)
    requires s == [] || (!IsJsSpace(s[0]) && !IsJsSpace(s[|s| - 1]))
    ensures Trim(s) == s
  {
  }

  /** Trimming twice is trimming once. */
  lemma TrimIdempotent(s: string)
    ensures Trim(Trim(s)) == Trim(s)
  {
    TrimKeepsTrimmed(Trim(s));
  }
}
