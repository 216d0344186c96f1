/**
 * The string operations the pipeline relies on, with Python's meaning:
 * `str.strip()`, `str.rstrip(c)`, `str.replace(pat, "")`, `str.partition(c)`,
 * `str(int)` and `int(str)`.
 */
module Text {
  import opened Wrappers

  /** Python's `str.isspace()` for one character. */
  predicate IsSpace(c: char)
  {
    || '\t' <= c <= '\r'
    || '\U{1C}' <= c <= ' '
    || c == '\U{85}' || c == '\U{A0}' || c == '\U{1680}'
    || '\U{2000}' <= c <= '\U{200A}'
    || c == '\U{2028}' || c == '\U{2029}' || c == '\U{202F}' || c == '\U{205F}' || c == '\U{3000}'
  }

  predicate AllSpace(s: string)
  {
    forall i :: 0 <= i < |s| ==> IsSpace(s[i])
  }

  /** The number of whitespace characters that open `s`. */
  function LeadingSpaces(s: string): (k: nat)
    ensures k <= |s|
    ensures forall i :: 0 <= i < k ==> IsSpace(s[i])
    ensures k < |s| ==> !IsSpace(s[k])
  {
    if s == [] || !IsSpace(s[0]) then 0 else 1 + LeadingSpaces(s[1..])
  }

  /** The number of whitespace characters that close `s`. */
  function TrailingSpaces(s: string): (k: nat)
    ensures k <= |s|
    ensures forall i :: |s| - k <= i < |s| ==> IsSpace(s[i])
    ensures k < |s| ==> !IsSpace(s[|s| - 1 - k])
  {
    if s == [] || !IsSpace(s[|s| - 1]) then 0 else 1 + TrailingSpaces(s[..|s| - 1])
  }

  /** Python's `str.strip()`: `s` without its leading and trailing whitespace. */
  function Strip(s: string): (r: string)
    ensures exists a :: 0 <= a <= |s| - |r| && r == s[a..a + |r|] && AllSpace(s[..a]) && AllSpace(s[a + |r|..])
    ensures r == [] || (!IsSpace(r[0]) && !IsSpace(r[|r| - 1]))
  {
    var a := LeadingSpaces(s);
    var t := s[a..];
    var r := t[..|t| - TrailingSpaces(t)];
    assert r == s[a..a + |r|];
    assert AllSpace(s[..a]);
    assert AllSpace(s[a + |r|..]) by {
      forall i | a + |r| <= i < |s| ensures IsSpace(s[i]) {
        assert s[i] == t[i - a];
      }
    }
    assert 0 <= a <= |s| - |r| && r == s[a..a + |r|] && AllSpace(s[..a]) && AllSpace(s[a + |r|..]);
    r
  }

  /** A string whose first and last characters are not whitespace is left alone by `Strip`. */
  lemma StripUnchanged(s: string)
    requires s == [] || (!IsSpace(s[0]) && !IsSpace(s[|s| - 1]))
    ensures Strip(s) == s
  {
    assert LeadingSpaces(s) == 0;
    assert TrailingSpaces(s) == 0;
  }

  /** Stripping twice strips nothing more. */
  lemma StripIdempotent(s: string)
    ensures Strip(Strip(s)) == Strip(s)
  {
    StripUnchanged(Strip(s));
  }

  /** Python's `s.rstrip(c)`: `s` without the copies of `c` that close it. */
  function RStrip(s: string, c: char): (r: string)
    ensures |r| <= |s| && r == s[..|r|]
    ensures r == [] || r[|r| - 1] != c
    ensures forall i :: |r| <= i < |s| ==> s[i] == c
  {
    if s != [] && s[|s| - 1] == c then RStrip(s[..|s| - 1], c) else s
  }

  /** `rstrip` is idempotent. */
  lemma RStripIdempotent(s: string, c: char)
    ensures RStrip(RStrip(s, c), c) == RStrip(s, c)
  {
  }

  /** `pat` occurs in `s` starting at index `i`. */
  predicate OccursAt(s: string, pat: string, i: int)
  {
    0 <= i && i + |pat| <= |s| && s[i..i + |pat|] == pat
  }

  ghost predicate Occurs(s: string, pat: string)
  {
    exists i :: OccursAt(s, pat, i)
  }

  /**
   * Python's `s.replace(pat, "")`: a left-to-right scan that drops every
   * non-overlapping occurrence of `pat`.
   */
  function RemoveAll(s: string, pat: string): (r: string)
    requires pat != []
    ensures |r| <= |s|
    decreases |s|
  {
    if s == [] then []
    else if |pat| <= |s| && s[..|pat|] == pat then RemoveAll(s[|pat|..], pat)
    else [s[0]] + RemoveAll(s[1..], pat)
  }

  /** Where `pat` does not occur, removing it changes nothing. */
  lemma {:induction false} RemoveAllAbsent(s: string, pat: string)
    requires pat != [] && !Occurs(s, pat)
    ensures RemoveAll(s, pat) == s
    decreases |s|
  {
    if s != [] {
      assert !OccursAt(s, pat, 0);
      assert !Occurs(s[1..], pat) by {
        forall i | OccursAt(s[1..], pat, i) ensures false {
          assert s[i + 1..i + 1 + |pat|] == s[1..][i..i + |pat|];
          assert OccursAt(s, pat, i + 1);
        }
      }
      RemoveAllAbsent(s[1..], pat);
    }
  }

  /** A leading occurrence of `pat` is dropped whole. */
  /** A prefix lacking the pattern's first character passes through unchanged. */
  lemma {:induction false} RemoveAllKeepsPrefix(a: string, t: string, pat: string)
    requires pat != [] && pat[0] !in a
    ensures RemoveAll(a + t, pat) == a + RemoveAll(t, pat)
    decreases |a|
  {
    if a == [] {
      assert a + t == t;
    } else {
      var s := a + t;
      assert s[0] == a[0] && a[0] != pat[0];
      assert |pat| <= |s| ==> s[..|pat|][0] != pat[0];
      assert s[1..] == a[1..] + t;
      RemoveAllKeepsPrefix(a[1..], t, pat);
      assert [a[0]] + a[1..] == a;
    }
  }

  lemma RemoveAllLeading(pat: string, t: string)
    requires pat != []
    ensures RemoveAll(pat + t, pat) == RemoveAll(t, pat)
  {
    assert (pat + t)[..|pat|] == pat;
    assert (pat + t)[|pat|..] == t;
  }

  /** A pattern holding a character that `s` lacks cannot occur in `s`. */
  lemma AbsentCharAbsentPattern(s: string, pat: string, k: nat)
    requires k < |pat| && pat[k] !in s
    ensures !Occurs(s, pat)
  {
  }

  /** The triple `(head, sep, tail)` of Python's `str.partition`. */
  datatype Partitioned = Partitioned(head: string, sep: string, tail: string)

  /**
   * Python's `s.partition(sep)`: split at the first `sep`; when there is none
   * the whole of `s` is the head and the separator and tail are empty.
   */
  function Partition(s: string, sep: char): (p: Partitioned)
    ensures p.head + p.sep + p.tail == s
    ensures sep !in p.head
    ensures p.sep == [sep] || (p.sep == [] && p.tail == [])
  {
    if s == [] then Partitioned([], [], [])
    else if s[0] == sep then Partitioned([], [sep], s[1..])
    else
      var p := Partition(s[1..], sep);
      assert [s[0]] + p.head + p.sep + p.tail == s;
      Partitioned([s[0]] + p.head, p.sep, p.tail)
  }

  /** Partitioning at the separator that follows a separator-free head gives that head and the rest back. */
  lemma {:induction false} PartitionAt(head: string, sep: char, tail: string)
    requires sep !in head
    ensures Partition(head + [sep] + tail, sep) == Partitioned(head, [sep], tail)
  {
    var s := head + [sep] + tail;
    if head != [] {
      PartitionAt(head[1..], sep, tail);
      assert s[1..] == head[1..] + [sep] + tail;
      assert [head[0]] + head[1..] == head;
    }
  }

  predicate IsDigit(c: char)
  {
    '0' <= c <= '9'
  }

  predicate AllDigits(s: string)
  {
    forall i :: 0 <= i < |s| ==> IsDigit(s[i])
  }

  function DigitChar(d: nat): (c: char)
    requires d < 10
    ensures IsDigit(c) && c as int - '0' as int == d
  {
    (48 + d) as char
  }

  /** Python's `str(n)` for a natural number: its decimal digits, with no leading zero. */
  function Decimal(n: nat): (s: string)
    ensures |s| > 0 && AllDigits(s)
    ensures |s| > 1 ==> s[0] != '0'
    decreases n
  {
    if n < 10 then [DigitChar(n)] else Decimal(n / 10) + [DigitChar(n % 10)]
  }

  /** The number a string of decimal digits denotes. */
  function DigitsValue(s: string): nat
    requires AllDigits(s)
    decreases |s|
  {
    if s == [] then 0 else DigitsValue(s[..|s| - 1]) * 10 + (s[|s| - 1] as int - '0' as int)
  }

  /** Python's `str(i)` for any integer. */
  function FormatInt(i: int): (s: string)
    ensures |s| > 0
  {
    if i < 0 then "-" + Decimal(-i) else Decimal(i)
  }

  /**
   * Python's `int(s)` on a string: surrounding whitespace, an optional sign and
   * at least one decimal digit; anything else raises `ValueError` (`None`).
   */
  function ParseInt(s: string): Option<int>
  {
    var t := Strip(s);
    if |t| > 0 && (t[0] == '-' || t[0] == '+') then
      var digits := t[1..];
      if |digits| > 0 && AllDigits(digits) then
        var v: int := DigitsValue(digits);
        Some(if t[0] == '-' then -v else v)
      else None
    else if |t| > 0 && AllDigits(t) then Some(DigitsValue(t))
    else None
  }

  /** The digits `Decimal` writes denote the number they were written for. */
  lemma {:induction false} DecimalValue(n: nat)
    ensures DigitsValue(Decimal(n)) == n
    decreases n
  {
    if n >= 10 {
      DecimalValue(n / 10);
      var s := Decimal(n);
      assert s[..|s| - 1] == Decimal(n / 10);
    }
  }

  /** `int(str(i)) == i` for every integer. */
  lemma ParseFormatRoundTrip(i: int)
    ensures ParseInt(FormatInt(i)) == Some(i)
  {
    var s := FormatInt(i);
    var d := Decimal(if i < 0 then -i else i);
    DecimalValue(if i < 0 then -i else i);
    assert !IsSpace(d[|d| - 1]);
    assert !IsSpace(s[0]) && !IsSpace(s[|s| - 1]);
    StripUnchanged(s);
    if i < 0 {
      assert s[1..] == d;
    }
  }

  /** Different naturals have different decimal spellings. */
  lemma DecimalInjective(a: nat, b: nat)
    requires Decimal(a) == Decimal(b)
    ensures a == b
  {
    DecimalValue(a);
    DecimalValue(b);
  }

  /** In digits followed by `_`, the first `_` is the one after the digits. */
  lemma UnderscoreAfterDigits(a: string, x: string)
    requires AllDigits(a)
    ensures (a + "_" + x)[|a|] == '_'
    ensures forall i :: 0 <= i < |a| ==> (a + "_" + x)[i] != '_'
  {
    forall i | 0 <= i < |a| ensures (a + "_" + x)[i] != '_' {
      assert (a + "_" + x)[i] == a[i];
    }
  }

  /** Decimal digits followed by `_` can be told apart from the text that follows. */
  lemma DigitsThenUnderscore(a: string, x: string, b: string, y: string)
    requires AllDigits(a) && AllDigits(b)
    requires a + "_" + x == b + "_" + y
    ensures a == b && x == y
  {
    var s := a + "_" + x;
    UnderscoreAfterDigits(a, x);
    UnderscoreAfterDigits(b, y);
    assert |a| == |b|;
    assert a == s[..|a|] == b;
    assert x == s[|a| + 1..] == y;
  }

  /** A common prefix cancels. */
  lemma CancelPrefix(prefix: string, x: string, y: string)
    requires prefix + x == prefix + y
    ensures x == y
  {
    assert x == (prefix + x)[|prefix|..];
    assert y == (prefix + y)[|prefix|..];
  }

  /** A common suffix cancels. */
  lemma CancelSuffix(x: string, y: string, suffix: string)
    requires x + suffix == y + suffix
    ensures x == y
  {
    assert |x| == |y|;
    assert x == (x + suffix)[..|x|];
    assert y == (y + suffix)[..|y|];
  }

  /** Regrouping the parts of a numbered name. */
  lemma Regroup(prefix: string, a: string, b: string, suffix: string)
    ensures prefix + a + "_" + b + suffix == prefix + (a + "_" + (b + suffix))
  {
  }

  /**
   * A name made of a fixed prefix, two decimals joined by `_`, and a fixed
   * suffix names exactly one pair of numbers.
   */
  lemma NumberedNameInjective(prefix: string, suffix: string, s1: nat, e1: nat, s2: nat, e2: nat)
    requires prefix + Decimal(s1) + "_" + Decimal(e1) + suffix == prefix + Decimal(s2) + "_" + Decimal(e2) + suffix
    ensures s1 == s2 && e1 == e2
  {
    var a1, b1 := Decimal(s1), Decimal(e1);
    var a2, b2 := Decimal(s2), Decimal(e2);
    Regroup(prefix, a1, b1, suffix);
    Regroup(prefix, a2, b2, suffix);
    CancelPrefix(prefix, a1 + "_" + (b1 + suffix), a2 + "_" + (b2 + suffix));
    assert a1 + "_" + (b1 + suffix) == a2 + "_" + (b2 + suffix);
    DigitsThenUnderscore(a1, b1 + suffix, a2, b2 + suffix);
    CancelSuffix(b1, b2, suffix);
    DecimalInjective(s1, s2);
    DecimalInjective(e1, e2);
  }
}
