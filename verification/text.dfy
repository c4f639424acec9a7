/**
 * The few pieces of Python string behaviour the core relies on: decimal
 * rendering of integers (f-strings), `int(text)`, ASCII case folding for
 * `istartswith`, `str.startswith` and `str.split(sep)`.
 */
module Text {
  import opened Collections

  predicate IsDigit(c: char)
  {
    '0' <= c <= '9'
  }

  predicate AllDigits(s: string)
  {
    forall i :: 0 <= i < |s| ==> IsDigit(s[i])
  }

  function DigitChar(d: nat): (c: char)
    requires d < 10
    ensures IsDigit(c) && c as int - '0' as int == d
  {
    ('0' as int + d) as char
  }

  /** `str(n)` for a non-negative integer: canonical decimal, no leading zero. */
  function NatToString(n: nat): (s: string)
    ensures |s| >= 1 && AllDigits(s)
    ensures s[0] == '0' ==> n == 0
  {
    if n < 10 then [DigitChar(n)] else NatToString(n / 10) + [DigitChar(n % 10)]
  }

  /** `str(i)` / `f"{i}"` for any integer. */
  function IntToString(i: int): string
  {
    if i < 0 then "-" + NatToString(-i) else NatToString(i)
  }

  /** The value of a string of decimal digits. */
  function DigitsValue(s: string): nat
    requires AllDigits(s)
  {
    if s == [] then 0 else DigitsValue(s[..|s| - 1]) * 10 + (s[|s| - 1] as int - '0' as int)
  }

  /**
   * The ASCII characters `str.isspace()` holds for, which `int()` and
   * `str.strip()` remove around a value: tab to carriage return, the four
   * separators 0x1C-0x1F, and the space.
   */
  predicate IsSpace(c: char)
  {
    9 <= c as int <= 13 || 28 <= c as int <= 32
  }

  function TrimLeft(s: string): (r: string)
  {
    if s != [] && IsSpace(s[0]) then TrimLeft(s[1..]) else s
  }

  function TrimRight(s: string): (r: string)
  {
    if s != [] && IsSpace(s[|s| - 1]) then TrimRight(s[..|s| - 1]) else s
  }

  /** `s.strip()` restricted to the whitespace above. */
  function Strip(s: string): string
  {
    TrimRight(TrimLeft(s))
  }

  /**
   * Python's `int(s)` on a string, restricted to ASCII: optional
   * surrounding whitespace, an optional sign, then one or more digits
   * '0'..'9'; anything else is the ValueError case, here None. Python also
   * reads other Unicode decimal digits ("３" is 3) and underscores between
   * digits; this function does not.
   */
  function ParseInt(s: string): Option<int>
  {
    var t := Strip(s);
    if t != [] && (t[0] == '+' || t[0] == '-') then
      var d := t[1..];
      if d != [] && AllDigits(d) then
        var v: int := DigitsValue(d);
        Some(if t[0] == '-' then -v else v)
      else
        None
    else if t != [] && AllDigits(t) then
      Some(DigitsValue(t))
    else
      None
  }

  lemma {:induction false} DigitsValueOfNatToString(n: nat)
    ensures DigitsValue(NatToString(n)) == n
  {
    if n >= 10 {
      DigitsValueOfNatToString(n / 10);
      var s := NatToString(n);
      assert s[..|s| - 1] == NatToString(n / 10);
    }
  }

  lemma StripUnchanged(s: string)
    requires s != [] && !IsSpace(s[0]) && !IsSpace(s[|s| - 1])
    ensures Strip(s) == s
  {
    assert TrimLeft(s) == s;
  }

  /** `int(str(i)) == i`: rendering an integer and parsing it back is the identity. */
  lemma ParseIntOfIntToString(i: int)
    ensures ParseInt(IntToString(i)) == Some(i)
  {
    var s := IntToString(i);
    if i < 0 {
      var d := NatToString(-i);
      assert s == "-" + d && s[1..] == d;
      StripUnchanged(s);
      DigitsValueOfNatToString(-i);
    } else {
      StripUnchanged(s);
      DigitsValueOfNatToString(i);
    }
  }

  predicate AllSpace(w: string)
  {
    forall k :: 0 <= k < |w| ==> IsSpace(w[k])
  }

  /** Leading whitespace in front of a non-blank start is all `TrimLeft` removes. */
  lemma {:induction false} TrimLeftSpaces(w: string, s: string)
    requires AllSpace(w) && (s == [] || !IsSpace(s[0]))
    ensures TrimLeft(w + s) == s
  {
    if w == [] {
      assert w + s == s;
    } else {
      assert (w + s)[0] == w[0] && (w + s)[1..] == w[1..] + s;
      TrimLeftSpaces(w[1..], s);
    }
  }

  /** Trailing whitespace after a non-blank end is all `TrimRight` removes. */
  lemma {:induction false} TrimRightSpaces(s: string, w: string)
    requires AllSpace(w) && (s == [] || !IsSpace(s[|s| - 1]))
    ensures TrimRight(s + w) == s
  {
    if w == [] {
      assert s + w == s;
    } else {
      var v := w[..|w| - 1];
      assert (s + w)[|s + w| - 1] == w[|w| - 1];
      assert (s + w)[..|s + w| - 1] == s + v;
      TrimRightSpaces(s, v);
    }
  }

  /** A rendered integer neither starts nor ends with whitespace. */
  lemma IntToStringEnds(i: int)
    ensures var d := IntToString(i); d != [] && !IsSpace(d[0]) && !IsSpace(d[|d| - 1])
  {
    var n := NatToString(if i < 0 then -i else i);
    assert IsDigit(n[0]) && IsDigit(n[|n| - 1]);
    if i < 0 {
      assert IntToString(i) == "-" + n;
    }
  }

  /** `int()` only looks at what `strip()` leaves. */
  lemma ParseIntOfStrip(x: string, y: string)
    requires Strip(x) == Strip(y)
    ensures ParseInt(x) == ParseInt(y)
  {
  }

  /** `int()` reads a number surrounded by any whitespace as that number. */
  lemma ParseIntIgnoresSurroundingSpace(w1: string, i: int, w2: string)
    requires AllSpace(w1) && AllSpace(w2)
    ensures ParseInt(w1 + IntToString(i) + w2) == Some(i)
  {
    var d := IntToString(i);
    IntToStringEnds(i);
    assert w1 + d + w2 == w1 + (d + w2);
    TrimLeftSpaces(w1, d + w2);
    TrimRightSpaces(d, w2);
    StripUnchanged(d);
    ParseIntOfStrip(w1 + d + w2, d);
    ParseIntOfIntToString(i);
  }

  // ---- ASCII case folding (istartswith) ----

  function LowerChar(c: char): char
  {
    if 'A' <= c <= 'Z' then (c as int + 32) as char else c
  }

  function UpperChar(c: char): char
  {
    if 'a' <= c <= 'z' then (c as int - 32) as char else c
  }

  function Lower(s: string): (r: string)
    ensures |r| == |s| && forall i :: 0 <= i < |s| ==> r[i] == LowerChar(s[i])
  {
    seq(|s|, i requires 0 <= i < |s| => LowerChar(s[i]))
  }

  function Upper(s: string): (r: string)
    ensures |r| == |s| && forall i :: 0 <= i < |s| ==> r[i] == UpperChar(s[i])
  {
    seq(|s|, i requires 0 <= i < |s| => UpperChar(s[i]))
  }

  /** Capitals and surrounding whitespace are independent: `s.upper().strip() == s.strip().upper()`. */
  lemma StripUpper(s: string)
    ensures Strip(Upper(s)) == Upper(Strip(s))
  {
    TrimLeftUpper(s);
    TrimRightUpper(TrimLeft(s));
  }

  lemma {:induction false} TrimLeftUpper(s: string)
    ensures TrimLeft(Upper(s)) == Upper(TrimLeft(s))
  {
    if s != [] {
      assert Upper(s)[1..] == Upper(s[1..]);
      TrimLeftUpper(s[1..]);
    }
  }

  lemma {:induction false} TrimRightUpper(s: string)
    ensures TrimRight(Upper(s)) == Upper(TrimRight(s))
  {
    if s != [] {
      assert Upper(s)[..|s| - 1] == Upper(s[..|s| - 1]);
      TrimRightUpper(s[..|s| - 1]);
    }
  }

  predicate StartsWith(s: string, prefix: string)
  {
    |prefix| <= |s| && s[..|prefix|] == prefix
  }

  /** Case-insensitive prefix test (`name__istartswith`), ASCII letters folded. */
  predicate IStartsWith(s: string, prefix: string)
  {
    |prefix| <= |s| && Lower(s[..|prefix|]) == Lower(prefix)
  }

  /** A case-insensitive prefix test is a plain prefix test on the folded strings. */
  lemma IStartsWithIsFoldedPrefix(s: string, prefix: string)
    ensures IStartsWith(s, prefix) <==> StartsWith(Lower(s), Lower(prefix))
  {
    if |prefix| <= |s| {
      assert Lower(s)[..|prefix|] == Lower(s[..|prefix|]);
    }
  }

  /** The letter case of either side does not matter. */
  lemma IStartsWithIgnoresCase(s: string, prefix: string)
    ensures IStartsWith(s, prefix) <==> IStartsWith(Upper(s), Lower(prefix))
  {
    if |prefix| <= |s| {
      assert Lower(Upper(s)[..|prefix|]) == Lower(s[..|prefix|]);
      assert Lower(Lower(prefix)) == Lower(prefix);
    }
  }

  /** Folding to upper case first does not change the lower-case fold. */
  lemma LowerOfUpper(s: string)
    ensures Lower(Upper(s)) == Lower(s)
  {
  }

  // ---- str.split(sep) ----

  predicate OccursAt(s: string, sep: string, k: int)
  {
    0 <= k && k + |sep| <= |s| && s[k..k + |sep|] == sep
  }

  /** The first occurrence of `sep` in `s` at or after `from` (`s.find(sep, from)`). */
  function Find(s: string, sep: string, from: nat): (r: Option<nat>)
    requires from <= |s|
    decreases |s| - from
    ensures r.Some? ==> from <= r.value && OccursAt(s, sep, r.value)
    ensures r.Some? ==> forall k :: from <= k < r.value ==> !OccursAt(s, sep, k)
    ensures r.None? ==> forall k :: from <= k ==> !OccursAt(s, sep, k)
  {
    if OccursAt(s, sep, from) then Some(from)
    else if from == |s| then None
    else Find(s, sep, from + 1)
  }

  /** Python's `s.split(sep)` for a non-empty separator. */
  function Split(s: string, sep: string): (parts: seq<string>)
    requires |sep| > 0
    ensures |parts| >= 1
    decreases |s|
  {
    match Find(s, sep, 0)
    case None => [s]
    case Some(k) => [s[..k]] + Split(s[k + |sep|..], sep)
  }

  /** `sep.join(parts)`. */
  function Join(parts: seq<string>, sep: string): string
    requires |parts| >= 1
  {
    if |parts| == 1 then parts[0] else parts[0] + sep + Join(parts[1..], sep)
  }

  /** Splitting and joining back with the same separator gives the input. */
  lemma {:induction false} JoinSplit(s: string, sep: string)
    requires |sep| > 0
    ensures Join(Split(s, sep), sep) == s
  {
    match Find(s, sep, 0)
    case None =>
    case Some(k) =>
      var rest := s[k + |sep|..];
      var tail := Split(rest, sep);
      var p := Split(s, sep);
      assert p == [s[..k]] + tail;
      JoinSplit(rest, sep);
      assert |p| > 1 && p[0] == s[..k] && p[1..] == tail;
      assert Join(p, sep) == s[..k] + sep + Join(tail, sep);
      assert s[k..k + |sep|] == sep;
      assert s == s[..k] + s[k..k + |sep|] + rest;
  }

  /** A separator whose first character does not occur in `s[from..]` is not found. */
  lemma {:induction false} FindAbsent(s: string, sep: string, from: nat)
    requires |sep| > 0 && from <= |s| && sep[0] !in s[from..]
    ensures Find(s, sep, from) == None
    decreases |s| - from
  {
    if from < |s| {
      assert s[from] == s[from..][0];
      assert s[from + 1..] == s[from..][1..];
      FindAbsent(s, sep, from + 1);
    }
  }

  /** The first occurrence is found when no earlier position holds the separator's first character. */
  lemma {:induction false} FindFirst(s: string, sep: string, from: nat, k: nat)
    requires |sep| > 0 && from <= k && OccursAt(s, sep, k) && sep[0] !in s[from..k]
    ensures Find(s, sep, from) == Some(k)
    decreases k - from
  {
    if from < k {
      assert s[from] == s[from..k][0];
      assert s[from + 1..k] == s[from..k][1..];
      FindFirst(s, sep, from + 1, k);
    }
  }

  /** Splitting `a + sep + b` where neither part holds the separator's first character gives the two parts. */
  lemma SplitTwo(a: string, sep: string, b: string)
    requires |sep| > 0 && sep[0] !in a && sep[0] !in b
    ensures Split(a + sep + b, sep) == [a, b]
  {
    var s := a + sep + b;
    assert s[..|a|] == a && s[|a|..|a| + |sep|] == sep && s[|a| + |sep|..] == b;
    FindFirst(s, sep, 0, |a|);
    assert b[0..] == b;
    FindAbsent(b, sep, 0);
  }

  function Last(parts: seq<string>): string
    requires |parts| >= 1
  {
    parts[|parts| - 1]
  }

  /** The last piece of a split holds no separator and ends the input. */
  lemma {:induction false} SplitLastPiece(s: string, sep: string)
    requires |sep| > 0
    ensures forall k :: !OccursAt(Last(Split(s, sep)), sep, k)
    ensures |Last(Split(s, sep))| <= |s| && s[|s| - |Last(Split(s, sep))|..] == Last(Split(s, sep))
  {
    match Find(s, sep, 0)
    case None =>
    case Some(k) =>
      var rest := s[k + |sep|..];
      SplitLastPiece(rest, sep);
      var p := Split(s, sep);
      assert p == [s[..k]] + Split(rest, sep);
      assert Last(p) == Last(Split(rest, sep));
  }

  // ---- lexicographic order (ORDER BY on a text column) ----

  /** Code-point lexicographic order on strings. */
  predicate StrLe(a: string, b: string)
  {
    a == [] || (b != [] && (a[0] < b[0] || (a[0] == b[0] && StrLe(a[1..], b[1..]))))
  }

  lemma {:induction false} StrLeTotal(a: string, b: string)
    ensures StrLe(a, b) || StrLe(b, a)
  {
    if a != [] && b != [] && a[0] == b[0] {
      StrLeTotal(a[1..], b[1..]);
    }
  }

  lemma {:induction false} StrLeTransitive(a: string, b: string, c: string)
    requires StrLe(a, b) && StrLe(b, c)
    ensures StrLe(a, c)
  {
    if a != [] && b != [] && c != [] && a[0] == b[0] && b[0] == c[0] {
      StrLeTransitive(a[1..], b[1..], c[1..]);
    }
  }
}
