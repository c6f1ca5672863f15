/**
 * The handful of Python `str` operations the bot relies on, restricted to ASCII:
 * `upper`, `lower`, `strip`, `startswith`, `split(sep, maxsplit)`, `str(int)` and `int(str)`.
 */
module PyStr {
  import opened Wrappers

  /** The ASCII characters `str.isspace` accepts (space, \t, \n, \v, \f, \r and the four separators 0x1C-0x1F). */
  predicate IsSpace(c: char) {
    c == ' ' || ('\U{09}' <= c <= '\U{0D}') || ('\U{1C}' <= c <= '\U{1F}')
  }

  predicate IsDigit(c: char) { '0' <= c <= '9' }

  function UpperChar(c: char): char {
    if 'a' <= c <= 'z' then (c as int - 32) as char else c
  }

  function LowerChar(c: char): char {
    if 'A' <= c <= 'Z' then (c as int + 32) as char else c
  }

  /** `s.upper()` on ASCII text: lower-case letters become upper-case, everything else is kept. */
  function Upper(s: string): (r: string)
    ensures |r| == |s|
    ensures forall i :: 0 <= i < |s| ==> r[i] == UpperChar(s[i])
  {
    seq(|s|, i requires 0 <= i < |s| => UpperChar(s[i]))
  }

  /** `s.lower()` on ASCII text. */
  function Lower(s: string): (r: string)
    ensures |r| == |s|
    ensures forall i :: 0 <= i < |s| ==> r[i] == LowerChar(s[i])
  {
    seq(|s|, i requires 0 <= i < |s| => LowerChar(s[i]))
  }

  /** Upper-casing twice is upper-casing once: re-upper-casing an already normalised symbol changes nothing. */
  lemma UpperIdempotent(s: string)
    ensures Upper(Upper(s)) == Upper(s)
  {
    assert forall i :: 0 <= i < |s| ==> UpperChar(UpperChar(s[i])) == UpperChar(s[i]);
  }

  /** Leading whitespace removed: the result is a suffix of `s`, everything cut off is whitespace. */
  function TrimLeft(s: string): (r: string)
    ensures |r| <= |s| && r == s[|s| - |r|..]
    ensures forall k :: 0 <= k < |s| - |r| ==> IsSpace(s[k])
    ensures r != [] ==> !IsSpace(r[0])
  {
    if s != [] && IsSpace(s[0]) then TrimLeft(s[1..]) else s
  }

  /** Trailing whitespace removed: the result is a prefix of `s`, everything cut off is whitespace. */
  function TrimRight(s: string): (r: string)
    ensures |r| <= |s| && r == s[..|r|]
    ensures forall k :: |r| <= k < |s| ==> IsSpace(s[k])
    ensures r != [] ==> !IsSpace(r[|r| - 1])
  {
    if s != [] && IsSpace(s[|s| - 1]) then TrimRight(s[..|s| - 1]) else s
  }

  /** `s.strip()`: neither end of the result is whitespace, and every character removed was whitespace. */
  function Strip(s: string): (r: string)
    ensures r != [] ==> !IsSpace(r[0]) && !IsSpace(r[|r| - 1])
    ensures |r| <= |s|
    ensures (forall k :: 0 <= k < |s| ==> !IsSpace(s[k])) ==> r == s
  {
    var l := TrimLeft(s);
    var r := TrimRight(l);
    assert r != [] ==> r[0] == l[0];
    r
  }

  /** Lower-casing an upper-cased string is lower-casing it. */
  lemma LowerOfUpper(s: string)
    ensures Lower(Upper(s)) == Lower(s)
  {
    assert forall i :: 0 <= i < |s| ==> LowerChar(UpperChar(s[i])) == LowerChar(s[i]);
  }

  /** Upper-casing changes no whitespace, so it commutes with trimming the left end. */
  lemma {:induction false} TrimLeftUpper(s: string)
    ensures TrimLeft(Upper(s)) == Upper(TrimLeft(s))
  {
    if s != [] && IsSpace(s[0]) {
      assert Upper(s)[1..] == Upper(s[1..]);
      TrimLeftUpper(s[1..]);
    }
  }

  /** Upper-casing commutes with trimming the right end. */
  lemma {:induction false} TrimRightUpper(s: string)
    ensures TrimRight(Upper(s)) == Upper(TrimRight(s))
  {
    if s != [] && IsSpace(s[|s| - 1]) {
      assert Upper(s)[..|s| - 1] == Upper(s[..|s| - 1]);
      TrimRightUpper(s[..|s| - 1]);
    }
  }

  /** `s.upper().strip() == s.strip().upper()` on ASCII text. */
  lemma StripUpper(s: string)
    ensures Strip(Upper(s)) == Upper(Strip(s))
  {
    TrimLeftUpper(s);
    TrimRightUpper(TrimLeft(s));
  }

  /** A string that does not start or end with whitespace is its own `strip()`. */
  lemma StripUnchanged(s: string)
    requires s != [] ==> !IsSpace(s[0]) && !IsSpace(s[|s| - 1])
    ensures Strip(s) == s
  {
    assert TrimLeft(s) == s;
    assert TrimRight(s) == s;
  }

  /** `s.startswith(p)`. */
  predicate StartsWith(s: string, p: string) {
    |p| <= |s| && s[..|p|] == p
  }

  /** `s.endswith(p)`. */
  predicate EndsWith(s: string, p: string) {
    |p| <= |s| && s[|s| - |p|..] == p
  }

  /** A string starts with each of its prefixes. */
  lemma StartsWithConcat(a: string, b: string)
    ensures StartsWith(a + b, a)
  {
    assert (a + b)[..|a|] == a;
  }

  /** A string ends with each of its suffixes. */
  lemma EndsWithSuffix(a: string, b: string)
    ensures EndsWith(a + b, b)
  {
    assert (a + b)[|a + b| - |b|..] == b;
  }

  /** A suffix stays a suffix when the same text is appended to both. */
  lemma EndsWithConcat(a: string, b: string, p: string)
    requires EndsWith(a, p)
    ensures EndsWith(a + b, p + b)
  {
    assert (a + b)[|a + b| - |p + b|..] == a[|a| - |p|..] + b;
  }

  /** The index of the first occurrence of `c` in `s` (`s.find(c)`), or None. */
  function IndexOf(s: string, c: char): (r: Option<nat>)
    ensures r.Some? ==> r.value < |s|
  {
    if s == [] then None
    else if s[0] == c then Some(0)
    else match IndexOf(s[1..], c) {
      case None => None
      case Some(i) => Some(i + 1)
    }
  }

  /** None exactly when `c` is absent; otherwise an index holding `c` with no earlier `c`. */
  lemma {:induction false} IndexOfSpec(s: string, c: char)
    ensures IndexOf(s, c).None? <==> c !in s
    ensures IndexOf(s, c).Some? ==> var i := IndexOf(s, c).value; s[i] == c && c !in s[..i]
  {
    if s != [] && s[0] != c {
      IndexOfSpec(s[1..], c);
      if IndexOf(s[1..], c).Some? {
        var i := IndexOf(s[1..], c).value;
        assert s[..i + 1] == [s[0]] + s[1..][..i];
      }
    }
  }

  /** The first occurrence of a separator is found right after a prefix that does not contain it. */
  lemma IndexOfAfterPrefix(a: string, c: char, b: string)
    requires c !in a
    ensures IndexOf(a + [c] + b, c) == Some(|a|)
  {
    var s := a + [c] + b;
    IndexOfSpec(s, c);
    assert s[|a|] == c;
    assert s[..|a|] == a;
  }

  /** `sep.join(parts)` for a one-character separator. */
  function Join(parts: seq<string>, c: char): string {
    if |parts| == 0 then ""
    else if |parts| == 1 then parts[0]
    else parts[0] + [c] + Join(parts[1..], c)
  }

  /** `sep.join` of one part and at least one more. */
  lemma JoinCons(head: string, rest: seq<string>, c: char)
    requires rest != []
    ensures Join([head] + rest, c) == head + [c] + Join(rest, c)
  {
    assert ([head] + rest)[1..] == rest;
  }

  /** A string is the part before position `i`, the separator there and the part after. */
  lemma SplitAround(s: string, i: nat, c: char)
    requires i < |s| && s[i] == c
    ensures s[..i] + [c] + s[i + 1..] == s
  {
    assert s[..i] + [c] + s[i + 1..] == s[..i] + s[i..];
  }

  /** `s.split(c, n)`: at most `n` splits, at the leftmost occurrences. */
  function SplitN(s: string, c: char, n: nat): (parts: seq<string>)
    ensures 1 <= |parts| <= n + 1
    decreases n
  {
    if n == 0 then [s]
    else match IndexOf(s, c) {
      case None => [s]
      case Some(i) => [s[..i]] + SplitN(s[i + 1..], c, n - 1)
    }
  }

  /** Joining the parts of a split gives back the string. */
  lemma {:induction false} SplitNJoined(s: string, c: char, n: nat)
    ensures Join(SplitN(s, c, n), c) == s
    decreases n
  {
    if n != 0 && IndexOf(s, c).Some? {
      var i := IndexOf(s, c).value;
      var head, tail := s[..i], s[i + 1..];
      var rest := SplitN(tail, c, n - 1);
      IndexOfSpec(s, c);
      SplitNJoined(tail, c, n - 1);
      calc {
        Join(SplitN(s, c, n), c);
        Join([head] + rest, c);
        { JoinCons(head, rest, c); }
        head + [c] + Join(rest, c);
        head + [c] + tail;
        { SplitAround(s, i, c); }
        s;
      }
    } else {
      assert SplitN(s, c, n) == [s];
    }
  }

  /** No part of a split but the last holds a separator. */
  lemma {:induction false} SplitNFree(s: string, c: char, n: nat)
    ensures forall k :: 0 <= k < |SplitN(s, c, n)| - 1 ==> c !in SplitN(s, c, n)[k]
    decreases n
  {
    if n != 0 && IndexOf(s, c).Some? {
      var i := IndexOf(s, c).value;
      var rest := SplitN(s[i + 1..], c, n - 1);
      IndexOfSpec(s, c);
      SplitNFree(s[i + 1..], c, n - 1);
      var parts := [s[..i]] + rest;
      assert SplitN(s, c, n) == parts;
      assert forall k :: 1 <= k < |parts| ==> parts[k] == rest[k - 1];
    }
  }

  /** The last part holds a separator only when all `n` splits were used. */
  lemma {:induction false} SplitNLast(s: string, c: char, n: nat)
    ensures |SplitN(s, c, n)| < n + 1 ==> c !in SplitN(s, c, n)[|SplitN(s, c, n)| - 1]
    decreases n
  {
    if n != 0 && IndexOf(s, c).Some? {
      var i := IndexOf(s, c).value;
      var rest := SplitN(s[i + 1..], c, n - 1);
      SplitNLast(s[i + 1..], c, n - 1);
      var parts := [s[..i]] + rest;
      assert SplitN(s, c, n) == parts;
      assert parts[|parts| - 1] == rest[|rest| - 1];
    } else if n != 0 {
      IndexOfSpec(s, c);
    }
  }

  /** The three facts about a split together. */
  lemma SplitNSpec(s: string, c: char, n: nat)
    ensures Join(SplitN(s, c, n), c) == s
    ensures forall k :: 0 <= k < |SplitN(s, c, n)| - 1 ==> c !in SplitN(s, c, n)[k]
    ensures |SplitN(s, c, n)| < n + 1 ==> c !in SplitN(s, c, n)[|SplitN(s, c, n)| - 1]
  {
    SplitNJoined(s, c, n);
    SplitNFree(s, c, n);
    SplitNLast(s, c, n);
  }

  /** Splitting a string assembled from separator-free fields recovers the fields. */
  lemma {:induction false} SplitNJoin(fields: seq<string>, c: char, last: string)
    requires forall k :: 0 <= k < |fields| ==> c !in fields[k]
    ensures SplitN(Join(fields + [last], c), c, |fields|) == fields + [last]
  {
    if fields == [] {
      assert [] + [last] == [last];
    } else {
      var tail := fields[1..];
      assert (fields + [last])[1..] == tail + [last];
      assert |fields + [last]| >= 2;
      var rest := Join(tail + [last], c);
      assert Join(fields + [last], c) == fields[0] + [c] + rest;
      IndexOfAfterPrefix(fields[0], c, rest);
      var s := fields[0] + [c] + rest;
      assert s[..|fields[0]|] == fields[0];
      assert s[|fields[0]| + 1..] == rest;
      SplitNJoin(tail, c, last);
      assert [fields[0]] + (tail + [last]) == fields + [last];
    }
  }

  function DigitChar(d: nat): char
    requires d < 10
  {
    ('0' as int + d) as char
  }

  function DigitValue(c: char): nat
    requires IsDigit(c)
  {
    c as int - '0' as int
  }

  /** `str(n)` for a non-negative integer: its decimal digits, most significant first. */
  function NatToDecimal(n: nat): (r: string)
    ensures r != [] && forall k :: 0 <= k < |r| ==> IsDigit(r[k])
  {
    if n < 10 then [DigitChar(n)] else NatToDecimal(n / 10) + [DigitChar(n % 10)]
  }

  /** `str(i)` for any integer. */
  function IntToString(i: int): (r: string)
    ensures r != [] && (r[0] == '-' || IsDigit(r[0])) && IsDigit(r[|r| - 1])
  {
    if i < 0 then "-" + NatToDecimal(-i) else NatToDecimal(i)
  }

  /** The number a string of decimal digits denotes. */
  function DigitsValue(ds: string): nat
    requires forall k :: 0 <= k < |ds| ==> IsDigit(ds[k])
  {
    if ds == [] then 0 else DigitsValue(ds[..|ds| - 1]) * 10 + DigitValue(ds[|ds| - 1])
  }

  /** The digit groups `int()` accepts: digits, single underscores between digits only. */
  predicate IsDigitGroups(s: string) {
    && s != []
    && (forall k :: 0 <= k < |s| ==> IsDigit(s[k]) || s[k] == '_')
    && IsDigit(s[0]) && IsDigit(s[|s| - 1])
    && (forall k :: 0 <= k < |s| - 1 ==> !(s[k] == '_' && s[k + 1] == '_'))
  }

  function RemoveUnderscores(s: string): (r: string)
    ensures (forall k :: 0 <= k < |s| ==> IsDigit(s[k]) || s[k] == '_') ==> forall k :: 0 <= k < |r| ==> IsDigit(r[k])
    ensures (forall k :: 0 <= k < |s| ==> s[k] != '_') ==> r == s
  {
    if s == [] then [] else (if s[0] == '_' then [] else [s[0]]) + RemoveUnderscores(s[1..])
  }

  /**
   * Python's `int(s)` in base 10 over ASCII: surrounding whitespace is ignored, an optional sign,
   * then digit groups. Anything else makes Python raise ValueError, which is `None` here.
   */
  function ParseInt(s: string): Option<int> {
    var t := Strip(s);
    if t == [] then None
    else
      var negative := t[0] == '-';
      var body := if t[0] == '-' || t[0] == '+' then t[1..] else t;
      if !IsDigitGroups(body) then None
      else
        var v: int := DigitsValue(RemoveUnderscores(body));
        Some(if negative then -v else v)
  }

  lemma {:induction false} DigitsValueOfDecimal(n: nat)
    ensures DigitsValue(NatToDecimal(n)) == n
  {
    var r := NatToDecimal(n);
    if n >= 10 {
      DigitsValueOfDecimal(n / 10);
      assert r[..|r| - 1] == NatToDecimal(n / 10);
    }
  }

  /** `int(str(i)) == i` for every integer: the page number written into a callback reads back unchanged. */
  lemma ParseIntToString(i: int)
    ensures ParseInt(IntToString(i)) == Some(i)
  {
    var s := IntToString(i);
    StripUnchanged(s);
    var d := NatToDecimal(if i < 0 then -i else i);
    var body := if s[0] == '-' || s[0] == '+' then s[1..] else s;
    assert body == d;
    assert IsDigitGroups(d);
    assert RemoveUnderscores(d) == d;
    DigitsValueOfDecimal(if i < 0 then -i else i);
  }
}
