/**
 * The JavaScript string primitives the formatters rely on: `String.prototype.trim`
 * and the regular-expression class `\d` (ASCII digits only, as in a regex without
 * the `u` flag). Strings are sequences of Unicode scalar values (`seq<char>`).
 */
module JsString {

  /** The ECMAScript WhiteSpace and LineTerminator code points, which `trim` removes. */
  predicate IsWhitespace(c: char) {
    var n := c as int;
    n == 0x09 || n == 0x0A || n == 0x0B || n == 0x0C || n == 0x0D || n == 0x20
    || n == 0xA0 || n == 0x1680 || (0x2000 <= n <= 0x200A) || n == 0x2028 || n == 0x2029
    || n == 0x202F || n == 0x205F || n == 0x3000 || n == 0xFEFF
  }

  predicate AllWhitespace(s: string) {
    forall k :: 0 <= k < |s| ==> IsWhitespace(s[k])
  }

  /** The regex class `\d`. */
  predicate IsDigit(c: char) {
    '0' <= c <= '9'
  }

  predicate AllDigits(s: string) {
    forall k :: 0 <= k < |s| ==> IsDigit(s[k])
  }

  /** Drops the leading whitespace. */
  function TrimStart(s: string): (r: string)
    ensures |r| <= |s|
    ensures r == [] || !IsWhitespace(r[0])
  {
    if |s| > 0 && IsWhitespace(s[0]) then TrimStart(s[1..]) else s
  }

  /** What `TrimStart` drops is a prefix of whitespace. */
  lemma {:induction false} TrimStartDropsWhitespace(s: string)
    ensures TrimStart(s) == s[|s| - |TrimStart(s)|..]
    ensures forall k :: 0 <= k < |s| - |TrimStart(s)| ==> IsWhitespace(s[k])
  {
    if |s| > 0 && IsWhitespace(s[0]) {
      TrimStartDropsWhitespace(s[1..]);
    }
  }

  /** Drops the trailing whitespace. */
  function TrimEnd(s: string): (r: string)
    ensures |r| <= |s|
    ensures r == [] || !IsWhitespace(r[|r| - 1])
  {
    if |s| > 0 && IsWhitespace(s[|s| - 1]) then TrimEnd(s[..|s| - 1]) else s
  }

  /** What `TrimEnd` drops is a suffix of whitespace. */
  lemma {:induction false} TrimEndDropsWhitespace(s: string)
    ensures TrimEnd(s) == s[..|TrimEnd(s)|]
    ensures forall k :: |TrimEnd(s)| <= k < |s| ==> IsWhitespace(s[k])
  {
    if |s| > 0 && IsWhitespace(s[|s| - 1]) {
      TrimEndDropsWhitespace(s[..|s| - 1]);
    }
  }

  /** `s.trim()`: the middle of `s` between its leading and its trailing whitespace. */
  function Trim(s: string): (r: string)
    ensures |r| <= |s|
    ensures r == [] || (!IsWhitespace(r[0]) && !IsWhitespace(r[|r| - 1]))
  {
    var t := TrimStart(s);
    TrimEndDropsWhitespace(t);
    TrimEnd(t)
  }

  /** `r` is `s` with the whitespace-only prefix `s[..i]` and a whitespace-only suffix removed. */
  predicate MiddleAt(s: string, i: nat, r: string) {
    && i + |r| <= |s|
    && r == s[i..i + |r|]
    && (forall k :: 0 <= k < i ==> IsWhitespace(s[k]))
    && (forall k :: i + |r| <= k < |s| ==> IsWhitespace(s[k]))
  }

  /** What `trim` removes is whitespace, from the two ends only. */
  lemma TrimTakesMiddle(s: string)
    ensures exists i: nat :: MiddleAt(s, i, Trim(s))
  {
    var t := TrimStart(s);
    var r := TrimEnd(t);
    var i := |s| - |t|;
    TrimStartDropsWhitespace(s);
    TrimEndDropsWhitespace(t);
    forall k | i + |r| <= k < |s| ensures IsWhitespace(s[k]) {
      assert s[k] == t[k - i];
    }
    assert Trim(s) == r && MiddleAt(s, i, r);
  }

  /** `s.replace(/\D/g, '')`: the digits of `s`, in order. */
  function DigitsOnly(s: string): string {
    if s == [] then []
    else (if IsDigit(s[0]) then [s[0]] else []) + DigitsOnly(s[1..])
  }

  /** Digit filtering leaves only digits, and no more characters than there were. */
  lemma {:induction false} DigitsOnlyIsDigits(s: string)
    ensures AllDigits(DigitsOnly(s)) && |DigitsOnly(s)| <= |s|
  {
    if s != [] {
      DigitsOnlyIsDigits(s[1..]);
    }
  }

  /** A string of digits is left as it is. */
  lemma {:induction false} DigitsOnlyOfDigits(s: string)
    requires AllDigits(s)
    ensures DigitsOnly(s) == s
  {
    if s != [] {
      DigitsOnlyOfDigits(s[1..]);
    }
  }

  /** Digit filtering keeps every digit, as often as it occurs. */
  lemma {:induction false} DigitsOnlyKeepsDigits(s: string)
    ensures forall c :: IsDigit(c) ==> multiset(DigitsOnly(s))[c] == multiset(s)[c]
  {
    if s != [] {
      assert s == [s[0]] + s[1..];
      DigitsOnlyKeepsDigits(s[1..]);
    }
  }

  /** Digit filtering works piecewise. */
  lemma {:induction false} DigitsOnlyAppend(a: string, b: string)
    ensures DigitsOnly(a + b) == DigitsOnly(a) + DigitsOnly(b)
  {
    if a == [] {
      assert a + b == b;
    } else {
      assert (a + b)[0] == a[0] && (a + b)[1..] == a[1..] + b;
      DigitsOnlyAppend(a[1..], b);
    }
  }

  lemma {:induction false} TrimStartAfterWhitespace(w: string, y: string)
    requires AllWhitespace(w)
    ensures TrimStart(w + y) == TrimStart(y)
  {
    if w == [] {
      assert w + y == y;
    } else {
      assert (w + y)[1..] == w[1..] + y;
      TrimStartAfterWhitespace(w[1..], y);
    }
  }

  lemma {:induction false} TrimStartBeforeWhitespace(x: string, w: string)
    requires AllWhitespace(w)
    ensures TrimStart(x) == [] ==> TrimStart(x + w) == []
    ensures TrimStart(x) != [] ==> TrimStart(x + w) == TrimStart(x) + w
  {
    if x == [] {
      assert x + w == w + [];
      TrimStartAfterWhitespace(w, []);
    } else if IsWhitespace(x[0]) {
      assert TrimStart(x) == TrimStart(x[1..]);
      assert (x + w)[0] == x[0] && (x + w)[1..] == x[1..] + w;
      assert TrimStart(x + w) == TrimStart(x[1..] + w);
      TrimStartBeforeWhitespace(x[1..], w);
    } else {
      assert (x + w)[0] == x[0];
      assert TrimStart(x) == x && TrimStart(x + w) == x + w;
    }
  }

  lemma {:induction false} TrimEndBeforeWhitespace(y: string, w: string)
    requires AllWhitespace(w)
    ensures TrimEnd(y + w) == TrimEnd(y)
    decreases |w|
  {
    if w == [] {
      assert y + w == y;
    } else {
      assert (y + w)[..|y + w| - 1] == y + w[..|w| - 1];
      TrimEndBeforeWhitespace(y, w[..|w| - 1]);
    }
  }

  /** Whitespace around a string does not change what `trim` returns. */
  lemma TrimIgnoresPadding(w1: string, x: string, w2: string)
    requires AllWhitespace(w1) && AllWhitespace(w2)
    ensures Trim(w1 + x + w2) == Trim(x)
  {
    assert w1 + x + w2 == w1 + (x + w2);
    TrimStartAfterWhitespace(w1, x + w2);
    TrimStartBeforeWhitespace(x, w2);
    if TrimStart(x) != [] {
      TrimEndBeforeWhitespace(TrimStart(x), w2);
    }
  }

  /** A string without whitespace at either end is its own `trim`. */
  lemma TrimOfTrimmed(s: string)
    requires s == [] || (!IsWhitespace(s[0]) && !IsWhitespace(s[|s| - 1]))
    ensures Trim(s) == s
  {
  }

  lemma TrimIdempotent(s: string)
    ensures Trim(Trim(s)) == Trim(s)
  {
    TrimOfTrimmed(Trim(s));
  }

  /** `trim` leaves nothing exactly when the string is all whitespace. */
  lemma TrimEmptyIff(s: string)
    ensures Trim(s) == [] <==> AllWhitespace(s)
  {
    TrimStartDropsWhitespace(s);
    TrimEndDropsWhitespace(TrimStart(s));
  }
}
