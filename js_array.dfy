// JavaScript array built-ins used by the server and the browser client,
// restated over Dafny sequences, and the JavaScript "missing value".

module JsArray {

  /** `null`/`undefined` (and NaN where a number is parsed) versus a value. */
  datatype Option<T> = None | Some(value: T)

  /** The index `slice` and `splice` derive from a possibly negative position:
      negative positions count from the end; the result is clamped to [0, len]. */
  function RelativeIndex(pos: int, len: nat): (k: nat)
    ensures k <= len
    ensures 0 <= pos <= len ==> k == pos
    ensures pos > len ==> k == len
    ensures pos < 0 ==> k == if len + pos < 0 then 0 else len + pos
  {
    if pos < 0 then (if len + pos < 0 then 0 else len + pos)
    else if pos > len then len
    else pos
  }

  /** `s.slice(start, end)`. */
  function Slice<T>(s: seq<T>, start: int, end: int): seq<T>
  {
    var a := RelativeIndex(start, |s|);
    var b := RelativeIndex(end, |s|);
    if a < b then s[a..b] else []
  }

  /** A non-negative window: `slice(offset, offset + limit)` holds the
      elements from `offset` on, at most `limit` of them, in order. */
  lemma SliceWindow<T>(s: seq<T>, offset: nat, limit: nat)
    ensures var r := Slice(s, offset, offset + limit);
      && |r| == (if offset >= |s| then 0 else if offset + limit <= |s| then limit else |s| - offset)
      && forall k :: 0 <= k < |r| ==> r[k] == s[offset + k]
  {
  }

  /** `s.slice(0, n)` for n >= 0: the first n elements, or all of them. */
  function Take<T>(s: seq<T>, n: nat): (r: seq<T>)
    ensures |r| == if |s| < n then |s| else n
    ensures r == s[..|r|]
  {
    Slice(s, 0, n)
  }

  /** `[...front, ...s].slice(0, cap)`: the new elements first, in their
      order, then the old ones, at most `cap` in all. */
  function CappedPrepend<T>(front: seq<T>, s: seq<T>, cap: nat): (r: seq<T>)
    ensures |r| <= cap
    ensures |r| == if |front| + |s| < cap then |front| + |s| else cap
    ensures forall i :: 0 <= i < |r| && i < |front| ==> r[i] == front[i]
    ensures forall i :: |front| <= i < |r| ==> r[i] == s[i - |front|]
  {
    Take(front + s, cap)
  }

  /** `s.splice(index, 1)`: removes the element at the relative index, if any. */
  function SpliceOne<T>(s: seq<T>, index: int): (r: seq<T>)
    ensures 0 <= index < |s| ==> r == s[..index] + s[index + 1..]
    ensures index >= |s| ==> r == s
    ensures |s| > 0 && index < 0 ==> |r| == |s| - 1
  {
    var k := RelativeIndex(index, |s|);
    if k < |s| then s[..k] + s[k + 1..] else s
  }

  /** `s.filter(p)`. */
  function Filter<T>(s: seq<T>, p: T -> bool): (r: seq<T>)
    ensures |r| <= |s|
  {
    if s == [] then []
    else Filter(s[..|s| - 1], p) + (if p(s[|s| - 1]) then [s[|s| - 1]] else [])
  }

  /** The filter keeps exactly the elements that pass. */
  lemma {:induction false} FilterMembers<T>(s: seq<T>, p: T -> bool)
    ensures forall x :: x in Filter(s, p) <==> x in s && p(x)
  {
    if s != [] {
      var front := s[..|s| - 1];
      FilterMembers(front, p);
      assert s == front + [s[|s| - 1]];
    }
  }

  /** The filter works piece by piece, so the kept elements stay in their
      order. */
  lemma {:induction false} FilterAppend<T>(a: seq<T>, b: seq<T>, p: T -> bool)
    ensures Filter(a + b, p) == Filter(a, p) + Filter(b, p)
    decreases |b|
  {
    if b != [] {
      var front := b[..|b| - 1];
      var last := b[|b| - 1];
      FilterAppend(a, front, p);
      assert a + b == (a + front) + [last];
      assert (a + b)[..|a + b| - 1] == a + front;
    } else {
      assert a + b == a;
    }
  }

  /** `Take` of a list whose front was already cut to the same length. */
  lemma TakeOfTake<T>(a: seq<T>, s: seq<T>, n: nat)
    ensures Take(a + Take(s, n), n) == Take(a + s, n)
  {
  }
}
