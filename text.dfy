/** The string operations draw_field uses: `str()` of a natural number, keeping
    only the decimal digits of a string, `sep.join(parts)`, and `str.split(sep)`
    to read the rendered text back. */
module Text {

  predicate IsDigit(c: char) {
    '0' <= c <= '9'
  }

  predicate AllDigits(s: string) {
    forall i :: 0 <= i < |s| ==> IsDigit(s[i])
  }

  lemma DigitsExclude(s: string, c: char)
    requires AllDigits(s) && !IsDigit(c)
    ensures c !in s
  {
  }

  function DigitChar(d: nat): (c: char)
    requires d < 10
    ensures IsDigit(c)
  {
    "0123456789"[d]
  }

  /** Python's `str(n)` for a natural number: its decimal digits, most significant first. */
  function Str(n: nat): (s: string)
    ensures |s| > 0 && AllDigits(s)
    decreases n
  {
    if n < 10 then [DigitChar(n)] else Str(n / 10) + [DigitChar(n % 10)]
  }

  /** The number a string of decimal digits denotes (Python's `int(s)`). */
  function DecimalValue(s: string): (v: nat)
    requires AllDigits(s)
    ensures (forall i :: 0 <= i < |s| ==> s[i] == '0') ==> v == 0
  {
    if s == [] then 0
    else DecimalValue(s[..|s| - 1]) * 10 + (s[|s| - 1] as int - '0' as int)
  }

  /** `str` is injective on naturals: reading its digits back gives the number. */
  lemma {:induction false} StrRoundTrip(n: nat)
    ensures DecimalValue(Str(n)) == n
    decreases n
  {
    if n >= 10 {
      var s := Str(n);
      assert s[..|s| - 1] == Str(n / 10);
      StrRoundTrip(n / 10);
    }
  }

  /** Distinct naturals print differently. */
  lemma StrInjective(m: nat, n: nat)
    requires Str(m) == Str(n)
    ensures m == n
  {
    StrRoundTrip(m);
    StrRoundTrip(n);
  }

  /** `''.join(ch for ch in s if ch in string.digits)`. */
  function FilterDigits(s: string): (r: string)
    ensures AllDigits(r) && |r| <= |s|
  {
    if s == [] then []
    else (if IsDigit(s[0]) then [s[0]] else []) + FilterDigits(s[1..])
  }

  lemma {:induction false} FilterDigitsAppend(a: string, b: string)
    ensures FilterDigits(a + b) == FilterDigits(a) + FilterDigits(b)
  {
    if a == [] {
      assert a + b == b;
    } else {
      var head := if IsDigit(a[0]) then [a[0]] else [];
      assert (a + b)[0] == a[0] && (a + b)[1..] == a[1..] + b;
      assert FilterDigits(a + b) == head + FilterDigits(a[1..] + b);
      assert FilterDigits(a) == head + FilterDigits(a[1..]);
      FilterDigitsAppend(a[1..], b);
    }
  }

  lemma {:induction false} FilterDigitsKeepsDigits(s: string)
    requires AllDigits(s)
    ensures FilterDigits(s) == s
  {
    if s != [] {
      FilterDigitsKeepsDigits(s[1..]);
    }
  }

  /** Filtering a string of digits followed by a non-digit drops just that character. */
  lemma FilterDigitsDropsMark(d: string, g: char)
    requires AllDigits(d) && !IsDigit(g)
    ensures FilterDigits(d + [g]) == d
  {
    FilterDigitsAppend(d, [g]);
    FilterDigitsKeepsDigits(d);
    assert FilterDigits([g]) == FilterDigits([g][1..]);
  }

  /** Appending index text and a non-digit to a string of digits, then filtering,
      leaves the two strings of digits. */
  lemma FilterDigitsAppendMark(d: string, e: string, g: char)
    requires AllDigits(d) && AllDigits(e) && !IsDigit(g)
    ensures FilterDigits(d + (e + [g])) == d + e
  {
    FilterDigitsAppend(d, e + [g]);
    FilterDigitsKeepsDigits(d);
    FilterDigitsDropsMark(e, g);
  }

  /** `sep.join(parts)`. */
  function Join(parts: seq<string>, sep: char): (s: string)
    ensures |s| >= |parts| - 1
  {
    if |parts| == 0 then ""
    else if |parts| == 1 then parts[0]
    else parts[0] + [sep] + Join(parts[1..], sep)
  }

  /** A character that is in none of the parts and is not the separator is not in the join. */
  lemma {:induction false} JoinAvoids(parts: seq<string>, sep: char, c: char)
    requires c != sep
    requires forall k :: 0 <= k < |parts| ==> c !in parts[k]
    ensures c !in Join(parts, sep)
    decreases |parts|
  {
    if |parts| > 1 {
      JoinAvoids(parts[1..], sep, c);
    }
  }

  /** A string cut at the first occurrence of `c`: the parts before and after it are
      determined by the whole. */
  lemma CutAt(a: string, c: char, b: string, a': string, b': string)
    requires c !in a && c !in a'
    requires a + [c] + b == a' + [c] + b'
    ensures a == a' && b == b'
  {
    var s := a + [c] + b;
    SplitAtSeparator(a, c, b);
    SplitAtSeparator(a', c, b');
    assert a == Split(s, c)[0] == a';
    assert b == s[|a| + 1..] == b';
  }

  /** `s.split(sep)` for a one-character separator: the pieces between separators,
      so there is always one more piece than there are separators. */
  function Split(s: string, sep: char): (parts: seq<string>)
    ensures |parts| >= 1
  {
    if s == [] then [[]]
    else if s[0] == sep then [[]] + Split(s[1..], sep)
    else
      var rest := Split(s[1..], sep);
      [[s[0]] + rest[0]] + rest[1..]
  }

  lemma {:induction false} SplitNoSeparator(p: string, sep: char)
    requires sep !in p
    ensures Split(p, sep) == [p]
  {
    if p != [] {
      SplitNoSeparator(p[1..], sep);
      assert [p[0]] + p[1..] == p;
    }
  }

  lemma {:induction false} SplitAtSeparator(p: string, sep: char, t: string)
    requires sep !in p
    ensures Split(p + [sep] + t, sep) == [p] + Split(t, sep)
  {
    if p == [] {
      assert p + [sep] + t == [sep] + t;
      assert ([sep] + t)[1..] == t;
    } else {
      assert (p + [sep] + t)[1..] == p[1..] + [sep] + t;
      SplitAtSeparator(p[1..], sep, t);
      assert [p[0]] + p[1..] == p;
    }
  }

  /** Splitting at a separator splits the text on either side of it independently. */
  lemma {:induction false} SplitConcat(a: string, sep: char, t: string)
    ensures Split(a + [sep] + t, sep) == Split(a, sep) + Split(t, sep)
    decreases |a|
  {
    if a == [] {
      assert a + [sep] + t == [sep] + t;
      assert ([sep] + t)[1..] == t;
    } else {
      assert (a + [sep] + t)[0] == a[0];
      assert (a + [sep] + t)[1..] == a[1..] + [sep] + t;
      SplitConcat(a[1..], sep, t);
    }
  }

  /** Splitting a join followed by a separator and more text gives back the parts,
      then the pieces of the rest. */
  lemma SplitJoinThen(parts: seq<string>, sep: char, t: string)
    requires |parts| >= 1
    requires forall k :: 0 <= k < |parts| ==> sep !in parts[k]
    ensures Split(Join(parts, sep) + [sep] + t, sep) == parts + Split(t, sep)
  {
    SplitConcat(Join(parts, sep), sep, t);
    SplitJoin(parts, sep);
  }

  /** Splitting a join gives back the parts, provided no part holds the separator. */
  lemma {:induction false} SplitJoin(parts: seq<string>, sep: char)
    requires |parts| >= 1
    requires forall k :: 0 <= k < |parts| ==> sep !in parts[k]
    ensures Split(Join(parts, sep), sep) == parts
    decreases |parts|
  {
    if |parts| == 1 {
      SplitNoSeparator(parts[0], sep);
    } else {
      SplitAtSeparator(parts[0], sep, Join(parts[1..], sep));
      SplitJoin(parts[1..], sep);
      assert [parts[0]] + parts[1..] == parts;
    }
  }
}
