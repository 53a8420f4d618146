// JavaScript string built-ins used by the server and the browser client,
// restated over `string` (a sequence of characters).

module JsText {

  import opened JsArray

  /** The characters `String.prototype.trim` strips and the regex class `\s`
      matches: WhiteSpace and LineTerminator of ECMAScript. */
  predicate IsJsWhitespace(c: char)
  {
    c == '\t' || c == '\n' || c == '\U{000B}' || c == '\U{000C}' || c == '\r' || c == ' '
    || c == '\U{00A0}' || c == '\U{1680}' || ('\U{2000}' <= c <= '\U{200A}')
    || c == '\U{2028}' || c == '\U{2029}' || c == '\U{202F}' || c == '\U{205F}'
    || c == '\U{3000}' || c == '\U{FEFF}'
  }

  function LowerChar(c: char): (r: char)
    ensures 'A' <= c <= 'Z' ==> r as int == c as int + 32
    ensures !('A' <= c <= 'Z') ==> r == c
  {
    if 'A' <= c <= 'Z' then (c as int + 32) as char else c
  }

  /** `toLowerCase`, restricted to the ASCII letters (see README). */
  function ToLower(s: string): (r: string)
    ensures |r| == |s|
    ensures forall i :: 0 <= i < |s| ==> r[i] == LowerChar(s[i])
  {
    seq(|s|, i requires 0 <= i < |s| => LowerChar(s[i]))
  }

  /** Text without upper-case ASCII letters is its own lower case. */
  lemma ToLowerOfLower(s: string)
    requires forall i :: 0 <= i < |s| ==> !('A' <= s[i] <= 'Z')
    ensures ToLower(s) == s
  {
  }

  /** `lastIndexOf` for a one-character needle: -1 when absent. */
  function LastIndexOf(s: string, c: char): (k: int)
    ensures -1 <= k < |s|
    ensures 0 <= k ==> s[k] == c
  {
    LastIndexBelow(s, c, |s|)
  }

  /** The last position before `n` holding `c`, or -1. */
  function LastIndexBelow(s: string, c: char, n: nat): (k: int)
    requires n <= |s|
    ensures -1 <= k < n
    ensures 0 <= k ==> s[k] == c
    decreases n
  {
    if n == 0 then -1
    else if s[n - 1] == c then n - 1
    else LastIndexBelow(s, c, n - 1)
  }

  /** Nothing after the reported position is `c`; -1 exactly when `c` is
      absent. */
  lemma {:induction false} LastIndexBelowSpec(s: string, c: char, n: nat)
    requires n <= |s|
    ensures forall i :: LastIndexBelow(s, c, n) < i < n ==> s[i] != c
    decreases n
  {
    if n > 0 && s[n - 1] != c {
      LastIndexBelowSpec(s, c, n - 1);
    }
  }

  lemma LastIndexOfSpec(s: string, c: char)
    ensures var k := LastIndexOf(s, c);
      (k == -1 <==> c !in s) && forall i :: k < i < |s| ==> s[i] != c
  {
    LastIndexBelowSpec(s, c, |s|);
  }

  /** `indexOf` for a one-character needle: -1 when absent. */
  function IndexOf(s: string, c: char): (k: int)
    ensures -1 <= k < |s|
    ensures k == -1 <==> c !in s
    ensures 0 <= k ==> s[k] == c && c !in s[..k]
    ensures forall i :: 0 <= i < |s| && (k < 0 || i < k) ==> s[i] != c
    decreases |s|
  {
    if |s| == 0 then -1
    else if s[0] == c then 0
    else var k := IndexOf(s[1..], c); if k < 0 then -1 else k + 1
  }

  /** `s.split(c)` for a one-character separator. Defined from the last
      separator backwards, which is how the folder helpers read it. */
  function Split(s: string, c: char): (parts: seq<string>)
    ensures |parts| >= 1
    decreases |s|
  {
    var k := LastIndexOf(s, c);
    if k < 0 then [s] else Split(s[..k], c) + [s[k + 1..]]
  }

  /** `parts.join(sep)`. */
  function Join(parts: seq<string>, sep: string): string
  {
    if |parts| == 0 then ""
    else if |parts| == 1 then parts[0]
    else Join(parts[..|parts| - 1], sep) + sep + parts[|parts| - 1]
  }

  lemma {:induction false} SplitJoin(s: string, c: char)
    ensures Join(Split(s, c), [c]) == s
    decreases |s|
  {
    var k := LastIndexOf(s, c);
    if k >= 0 {
      var p := Split(s[..k], c);
      SplitJoin(s[..k], c);
      assert Split(s, c) == p + [s[k + 1..]];
      assert (p + [s[k + 1..]])[..|p|] == p;
      assert s == s[..k] + [c] + s[k + 1..];
    }
  }

  lemma {:induction false} SplitPartsFree(s: string, c: char)
    ensures forall i :: 0 <= i < |Split(s, c)| ==> c !in Split(s, c)[i]
    decreases |s|
  {
    var k := LastIndexOf(s, c);
    LastIndexOfSpec(s, c);
    if k >= 0 {
      SplitPartsFree(s[..k], c);
    }
  }

  /** Appending a separator and a separator-free tail adds exactly one part. */
  lemma SplitSnoc(a: string, c: char, b: string)
    requires c !in b
    ensures Split(a + [c] + b, c) == Split(a, c) + [b]
  {
    var s := a + [c] + b;
    assert s[|a| + 1..] == b;
    assert s[..|a|] == a;
    LastIndexOfUnique(s, c, |a|);
  }

  lemma {:induction false} LastIndexOfUnique(s: string, c: char, j: int)
    requires 0 <= j < |s| && s[j] == c
    requires forall i :: j < i < |s| ==> s[i] != c
    ensures LastIndexOf(s, c) == j
  {
    LastIndexBelowUnique(s, c, j, |s|);
  }

  lemma {:induction false} LastIndexBelowUnique(s: string, c: char, j: int, n: nat)
    requires 0 <= j < n <= |s| && s[j] == c
    requires forall i :: j < i < n ==> s[i] != c
    ensures LastIndexBelow(s, c, n) == j
    decreases n
  {
    if j < n - 1 {
      LastIndexBelowUnique(s, c, j, n - 1);
    }
  }

  lemma {:induction false} SplitMany(s: string, c: char)
    ensures |Split(s, c)| > 1 <==> c in s
  {
    var k := LastIndexOf(s, c);
    LastIndexOfSpec(s, c);
    if k >= 0 {
      assert |Split(s, c)| == |Split(s[..k], c)| + 1;
    }
  }

  /** The first part of a split is the text before the first separator. */
  lemma {:induction false} SplitFirst(s: string, c: char)
    ensures Split(s, c)[0] == (var k := IndexOf(s, c); if k < 0 then s else s[..k])
    decreases |s|
  {
    var k := LastIndexOf(s, c);
    LastIndexOfSpec(s, c);
    if k >= 0 {
      var pre := s[..k];
      SplitFirst(pre, c);
      var j := IndexOf(pre, c);
      var i := IndexOf(s, c);
      if j >= 0 {
        IndexOfUnique(s, c, j);
        assert pre[..j] == s[..i];
      } else {
        IndexOfUnique(s, c, k);
      }
    }
  }

  lemma {:induction false} IndexOfUnique(s: string, c: char, j: int)
    requires 0 <= j < |s| && s[j] == c
    requires forall i :: 0 <= i < j ==> s[i] != c
    ensures IndexOf(s, c) == j
    decreases |s|
  {
    if 0 < j {
      IndexOfUnique(s[1..], c, j - 1);
    }
  }

  // ---- trim ----

  predicate AllWhitespace(s: string)
  {
    forall i :: 0 <= i < |s| ==> IsJsWhitespace(s[i])
  }

  /** `trimStart`: drops the leading whitespace (see
      `TrimStartDropsWhitespace`). */
  function TrimStart(s: string): (r: string)
    ensures |r| <= |s| && r == s[|s| - |r|..]
    ensures r == [] || !IsJsWhitespace(r[0])
    decreases |s|
  {
    if |s| > 0 && IsJsWhitespace(s[0]) then TrimStart(s[1..]) else s
  }

  /** `trimEnd`: drops the trailing whitespace (see
      `TrimEndDropsWhitespace`). */
  function TrimEnd(s: string): (r: string)
    ensures |r| <= |s| && r == s[..|r|]
    ensures r == [] || !IsJsWhitespace(r[|r| - 1])
    decreases |s|
  {
    if |s| > 0 && IsJsWhitespace(s[|s| - 1]) then TrimEnd(s[..|s| - 1]) else s
  }

  /** What `trimStart` drops is whitespace. */
  lemma {:induction false} TrimStartDropsWhitespace(s: string)
    ensures AllWhitespace(s[..|s| - |TrimStart(s)|])
    decreases |s|
  {
    if |s| > 0 && IsJsWhitespace(s[0]) {
      var rest := s[1..];
      TrimStartDropsWhitespace(rest);
      var d := |s| - |TrimStart(s)|;
      assert TrimStart(s) == TrimStart(rest);
      forall i | 0 <= i < d
        ensures IsJsWhitespace(s[..d][i])
      {
        if i > 0 {
          assert s[..d][i] == rest[..d - 1][i - 1];
        }
      }
    }
  }

  /** What `trimEnd` drops is whitespace. */
  lemma {:induction false} TrimEndDropsWhitespace(s: string)
    ensures AllWhitespace(s[|TrimEnd(s)|..])
    decreases |s|
  {
    if |s| > 0 && IsJsWhitespace(s[|s| - 1]) {
      var front := s[..|s| - 1];
      TrimEndDropsWhitespace(front);
      var k := |TrimEnd(s)|;
      assert TrimEnd(s) == TrimEnd(front);
      forall i | 0 <= i < |s| - k
        ensures IsJsWhitespace(s[k..][i])
      {
        if k + i < |s| - 1 {
          assert s[k..][i] == front[k..][i];
        }
      }
    }
  }

  /** `trim`: drops leading and trailing whitespace, keeps the middle. */
  function Trim(s: string): (r: string)
    ensures |r| <= |TrimStart(s)| <= |s|
    ensures forall i :: 0 <= i < |r| ==> r[i] == s[|s| - |TrimStart(s)| + i]
    ensures r == [] || (!IsJsWhitespace(r[0]) && !IsJsWhitespace(r[|r| - 1]))
  {
    TrimEnd(TrimStart(s))
  }

  /** `trim` removes whitespace only: what it drops before the kept middle
      and what it drops after it are whitespace. */
  lemma TrimDropsOnlyWhitespace(s: string)
    ensures var d := |s| - |TrimStart(s)|;
            AllWhitespace(s[..d]) && AllWhitespace(s[d + |Trim(s)|..])
  {
    var t := TrimStart(s);
    var d := |s| - |t|;
    TrimStartDropsWhitespace(s);
    TrimEndDropsWhitespace(t);
    var m := |TrimEnd(t)|;
    assert t == s[d..];
    assert t[m..] == s[d + m..];
  }

  /** `trim` leaves nothing exactly when the text is all whitespace. */
  lemma TrimEmptyIff(s: string)
    ensures Trim(s) == [] <==> AllWhitespace(s)
  {
    var t := TrimStart(s);
    if Trim(s) == [] {
      TrimEndDropsWhitespace(t);
      assert t[|TrimEnd(t)|..] == t;
      assert t == [];
      TrimStartDropsWhitespace(s);
      assert s[..|s|] == s;
    } else {
      var r := Trim(s);
      assert s[|s| - |t|] == r[0];
    }
  }

  lemma TrimFixed(s: string)
    requires s == [] || (!IsJsWhitespace(s[0]) && !IsJsWhitespace(s[|s| - 1]))
    ensures Trim(s) == s
  {
  }

  lemma TrimIdempotent(s: string)
    ensures Trim(Trim(s)) == Trim(s)
  {
    TrimFixed(Trim(s));
  }

  // ---- substring search ----

  /** `s.includes(t)`: some window of `s` equals `t`. */
  predicate IncludesFrom(s: string, t: string, i: nat)
    decreases |s| - i
  {
    i + |t| <= |s| && (s[i..i + |t|] == t || IncludesFrom(s, t, i + 1))
  }

  predicate Includes(s: string, t: string)
  {
    IncludesFrom(s, t, 0)
  }

  lemma {:induction false} IncludesFromWitness(s: string, t: string, i: nat, j: nat)
    requires i <= j && j + |t| <= |s| && s[j..j + |t|] == t
    ensures IncludesFrom(s, t, i)
    decreases j - i
  {
    if i < j {
      IncludesFromWitness(s, t, i + 1, j);
    }
  }

  /** A string includes each of its pieces. */
  lemma IncludesWithin(a: string, t: string, b: string)
    ensures Includes(a + t + b, t)
  {
    var s := a + t + b;
    assert s[|a|..|a| + |t|] == t;
    IncludesFromWitness(s, t, 0, |a|);
  }

  /** An occurrence found from `i` on is a window at or after `i`. */
  lemma {:induction false} IncludesFromWindow(s: string, t: string, i: nat) returns (j: nat)
    requires IncludesFrom(s, t, i)
    ensures i <= j && j + |t| <= |s| && s[j..j + |t|] == t
    decreases |s| - i
  {
    if s[i..i + |t|] == t {
      j := i;
    } else {
      j := IncludesFromWindow(s, t, i + 1);
    }
  }

  /** A string lacking one of `t`'s characters does not include `t`. */
  lemma MissingCharNotIncluded(s: string, t: string, c: char)
    requires c in t && c !in s
    ensures !Includes(s, t)
  {
    if Includes(s, t) {
      var j := IncludesFromWindow(s, t, 0);
    }
  }

  // ---- decimal numbers ----

  function DigitChar(d: nat): (c: char)
    requires d < 10
    ensures '0' <= c <= '9' && c as int - '0' as int == d
  {
    ('0' as int + d) as char
  }

  /** `n.toString()` for a non-negative integer. */
  function DecimalString(n: nat): (s: string)
    ensures |s| >= 1
    ensures forall i :: 0 <= i < |s| ==> '0' <= s[i] <= '9'
  {
    if n < 10 then [DigitChar(n)] else DecimalString(n / 10) + [DigitChar(n % 10)]
  }

  /** `String(n).padStart(2, '0')`. */
  function Pad2(n: nat): (s: string)
    ensures |s| >= 2
    ensures n < 100 ==> |s| == 2 && s[0] == DigitChar(n / 10) && s[1] == DigitChar(n % 10)
  {
    var d := DecimalString(n);
    assert 10 <= n < 100 ==> d == DecimalString(n / 10) + [DigitChar(n % 10)] == [DigitChar(n / 10), DigitChar(n % 10)];
    if |d| >= 2 then d else ['0'] + d
  }

  lemma Pad2Digits(n: nat)
    ensures forall i :: 0 <= i < |Pad2(n)| ==> '0' <= Pad2(n)[i] <= '9'
  {
    var d := DecimalString(n);
    if |d| < 2 {
      assert Pad2(n) == ['0'] + d;
    }
  }

  /** The value of a digit in the given radix (10 or 16); -1 for a non-digit. */
  function DigitValue(c: char, radix: nat): (v: int)
    ensures -1 <= v < radix || (v == -1)
    ensures '0' <= c <= '9' && radix == 10 ==> v == c as int - '0' as int
  {
    if '0' <= c <= '9' && c as int - '0' as int < radix then c as int - '0' as int
    else if radix == 16 && 'a' <= c <= 'f' then c as int - 'a' as int + 10
    else if radix == 16 && 'A' <= c <= 'F' then c as int - 'A' as int + 10
    else -1
  }

  /** Length of the longest prefix of `s` made of digits of `radix`. */
  function DigitRun(s: string, radix: nat): (n: nat)
    ensures n <= |s|
    ensures forall i :: 0 <= i < n ==> DigitValue(s[i], radix) >= 0
    ensures n < |s| ==> DigitValue(s[n], radix) < 0
  {
    if |s| > 0 && DigitValue(s[0], radix) >= 0 then 1 + DigitRun(s[1..], radix) else 0
  }

  function DigitsValue(ds: string, radix: nat): int
  {
    if |ds| == 0 then 0
    else DigitsValue(ds[..|ds| - 1], radix) * radix + DigitValue(ds[|ds| - 1], radix)
  }

  /** The unsigned part of `parseInt`: a `0x`/`0X` prefix selects radix 16,
      then the longest run of digits is read; `None` stands for NaN. */
  function ParseUnsigned(u: string): Option<int>
  {
    var hex := |u| >= 2 && u[0] == '0' && (u[1] == 'x' || u[1] == 'X');
    var radix := if hex then 16 else 10;
    var body := if hex then u[2..] else u;
    var n := DigitRun(body, radix);
    if n == 0 then None else Some(DigitsValue(body[..n], radix))
  }

  /** `parseInt(s)` with no radix argument: leading whitespace and an
      optional sign, then the unsigned part. */
  function ParseInt(s: string): Option<int>
  {
    var t := TrimStart(s);
    if |t| > 0 && t[0] == '-' then
      match ParseUnsigned(t[1..])
      case None => None
      case Some(v) => Some(-v)
    else if |t| > 0 && t[0] == '+' then ParseUnsigned(t[1..])
    else ParseUnsigned(t)
  }

  lemma {:induction false} DecimalValue(n: nat)
    ensures DigitsValue(DecimalString(n), 10) == n
  {
    var s := DecimalString(n);
    if n >= 10 {
      DecimalValue(n / 10);
      assert s[..|s| - 1] == DecimalString(n / 10);
    }
  }

  lemma {:induction false} DigitRunAll(s: string)
    requires forall i :: 0 <= i < |s| ==> '0' <= s[i] <= '9'
    ensures DigitRun(s, 10) == |s|
    decreases |s|
  {
    if |s| > 0 {
      DigitRunAll(s[1..]);
    }
  }

  lemma ParseUnsignedDecimal(n: nat)
    ensures ParseUnsigned(DecimalString(n)) == Some(n)
  {
    var s := DecimalString(n);
    assert !(|s| >= 2 && s[0] == '0' && (s[1] == 'x' || s[1] == 'X')) by {
      assert |s| >= 2 ==> '0' <= s[1] <= '9';
    }
    DigitRunAll(s);
    assert s[..|s|] == s;
    DecimalValue(n);
  }

  /** Text starting with a digit or a sign has no leading whitespace. */
  lemma TrimStartKeeps(s: string)
    requires |s| > 0 && ('0' <= s[0] <= '9' || s[0] == '-')
    ensures TrimStart(s) == s
  {
    assert !IsJsWhitespace(s[0]);
  }

  /** `parseInt` reads back what `toString` writes. */
  lemma ParseIntDecimal(n: nat)
    ensures ParseInt(DecimalString(n)) == Some(n)
  {
    var s := DecimalString(n);
    TrimStartKeeps(s);
    ParseUnsignedDecimal(n);
  }

  lemma ParseIntMinus(u: string, v: int)
    requires ParseUnsigned(u) == Some(v)
    ensures ParseInt("-" + u) == Some(-v)
  {
    var m := "-" + u;
    assert |m| > 0 && m[0] == '-';
    TrimStartKeeps(m);
    assert m[1..] == u;
  }

  /** ... and the same with a minus sign in front. */
  lemma ParseIntNegativeDecimal(n: nat)
    ensures ParseInt("-" + DecimalString(n)) == Some(-(n as int))
  {
    ParseUnsignedDecimal(n);
    ParseIntMinus(DecimalString(n), n);
  }
}
