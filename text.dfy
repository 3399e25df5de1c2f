/**
 * Characters, decimal numerals and trimming shared by the Python and the Ruby
 * scanner: both read a duration such as "15m" and both cut whitespace off
 * strings, each with its own set of whitespace characters.
 */
module Text {
  import opened Wrappers

  predicate IsDigit(c: char) { '0' <= c <= '9' }

  /**
   * The six ASCII whitespace characters: space, tab, line feed, vertical tab,
   * form feed and carriage return. CPython's `Py_ISSPACE`, Ruby's
   * locale-independent `ISSPACE` and `\s` of Ruby's regular expressions
   * (Onigmo) all mean exactly this set.
   */
  predicate IsAsciiSpace(c: char) { c == ' ' || '\t' <= c <= '\r' }

  function DigitValue(c: char): (d: nat)
    requires IsDigit(c)
    ensures d < 10
  {
    (c as int) - ('0' as int)
  }

  function DigitChar(d: nat): (c: char)
    requires d < 10
    ensures IsDigit(c) && DigitValue(c) == d
  {
    ('0' as int + d) as char
  }

  /** Digits and `_` separators only. */
  predicate IsNumeral(s: string) {
    forall i :: 0 <= i < |s| ==> IsDigit(s[i]) || s[i] == '_'
  }

  /**
   * A run of decimal digits in which single underscores may stand between
   * two digits ("1_000"), the literal form both Python's `int` and Ruby's
   * `to_i` read in base 10.
   */
  predicate IsDigitGroup(s: string) {
    && s != []
    && IsDigit(s[0])
    && IsDigit(s[|s| - 1])
    && IsNumeral(s)
    && forall i :: 0 <= i < |s| - 1 ==> s[i] == '_' ==> s[i + 1] != '_'
  }

  /** The number `acc` followed by the digits of `s`, read left to right; separators are skipped. */
  function Accumulate(acc: nat, s: string): nat
    requires IsNumeral(s)
    decreases |s|
  {
    if s == [] then acc
    else Accumulate(if s[0] == '_' then acc else acc * 10 + DigitValue(s[0]), s[1..])
  }

  lemma {:induction false} AccumulateSnoc(acc: nat, s: string, c: char)
    requires IsNumeral(s) && IsDigit(c)
    ensures IsNumeral(s + [c])
    ensures Accumulate(acc, s + [c]) == Accumulate(acc, s) * 10 + DigitValue(c)
    decreases |s|
  {
    if s == [] {
      assert s + [c] == [c];
    } else {
      assert (s + [c])[1..] == s[1..] + [c];
      AccumulateSnoc(if s[0] == '_' then acc else acc * 10 + DigitValue(s[0]), s[1..], c);
    }
  }

  /** The decimal numeral of `n`, as Python's `str` and Ruby's `to_s` write it. */
  function ShowNat(n: nat): (r: string)
    ensures r != []
    ensures forall i :: 0 <= i < |r| ==> IsDigit(r[i])
  {
    if n < 10 then [DigitChar(n)] else ShowNat(n / 10) + [DigitChar(n % 10)]
  }

  lemma {:induction false} ShowNatValue(n: nat)
    ensures IsDigitGroup(ShowNat(n))
    ensures Accumulate(0, ShowNat(n)) == n
  {
    if n >= 10 {
      ShowNatValue(n / 10);
      AccumulateSnoc(0, ShowNat(n / 10), DigitChar(n % 10));
    }
  }

  /** The decimal numeral of `n`, with a leading `-` when `n` is negative. */
  function Show(n: int): (r: string)
    ensures r != [] && IsDigit(r[|r| - 1])
    ensures r[0] == '-' || IsDigit(r[0])
  {
    if n < 0 then "-" + ShowNat(-n) else ShowNat(n)
  }

  /** The seconds one unit of a duration suffix stands for: `s`, `m` and `h`. */
  function UnitSeconds(unit: char): Option<nat> {
    match unit
    case 's' => Some(1)
    case 'm' => Some(60)
    case 'h' => Some(3600)
    case _ => None
  }

  /** The number of leading characters of `s` that satisfy `p`. */
  function Skip(s: string, p: char -> bool): (k: nat)
    ensures k <= |s|
    ensures forall i :: 0 <= i < k ==> p(s[i])
    ensures k < |s| ==> !p(s[k])
  {
    if s != [] && p(s[0]) then 1 + Skip(s[1..], p) else 0
  }

  /** The number of trailing characters of `s` that satisfy `p`. */
  function SkipBack(s: string, p: char -> bool): (k: nat)
    ensures k <= |s|
    ensures forall i :: |s| - k <= i < |s| ==> p(s[i])
    ensures k < |s| ==> !p(s[|s| - 1 - k])
  {
    if s != [] && p(s[|s| - 1]) then 1 + SkipBack(s[..|s| - 1], p) else 0
  }

  /** `s` without its leading and trailing characters that satisfy `p`. */
  function Trim(s: string, p: char -> bool): (r: string)
    ensures r == [] || (!p(r[0]) && !p(r[|r| - 1]))
  {
    var t := s[Skip(s, p)..];
    var r := t[..|t| - SkipBack(t, p)];
    assert r != [] ==> r[0] == s[Skip(s, p)] && r[|r| - 1] == t[|t| - 1 - SkipBack(t, p)];
    r
  }

  /** A string that does not start with a character satisfying `p` has nothing to skip. */
  lemma SkipNone(s: string, p: char -> bool)
    requires s != [] && !p(s[0])
    ensures Skip(s, p) == 0 && s[Skip(s, p)..] == s
  {
  }

  lemma {:induction false} SkipPadded(w: string, s: string, p: char -> bool)
    requires forall i :: 0 <= i < |w| ==> p(w[i])
    ensures Skip(w + s, p) == |w| + Skip(s, p)
  {
    if w != [] {
      assert (w + s)[0] == w[0] && (w + s)[1..] == w[1..] + s;
      SkipPadded(w[1..], s, p);
    } else {
      assert w + s == s;
    }
  }

  lemma {:induction false} SkipBackPadded(s: string, w: string, p: char -> bool)
    requires forall i :: 0 <= i < |w| ==> p(w[i])
    ensures SkipBack(s + w, p) == SkipBack(s, p) + |w|
  {
    if w != [] {
      assert (s + w)[|s + w| - 1] == w[|w| - 1] && (s + w)[..|s + w| - 1] == s + w[..|w| - 1];
      SkipBackPadded(s, w[..|w| - 1], p);
    } else {
      assert s + w == s;
    }
  }

  /** Characters that satisfy `p` in front of a string do not survive trimming. */
  lemma TrimLeftPadded(w: string, s: string, p: char -> bool)
    requires forall i :: 0 <= i < |w| ==> p(w[i])
    ensures Trim(w + s, p) == Trim(s, p)
  {
    SkipPadded(w, s, p);
    assert (w + s)[Skip(w + s, p)..] == s[Skip(s, p)..];
  }

  /** A string made only of characters that satisfy `p` trims to nothing. */
  lemma TrimBlank(s: string, p: char -> bool)
    requires forall i :: 0 <= i < |s| ==> p(s[i])
    ensures Trim(s, p) == []
  {
    SkipPadded(s, [], p);
    assert s + [] == s;
  }

  /** Trimming keeps a string whose first and last characters fail `p`, and drops any padding around it. */
  lemma TrimPadded(w1: string, s: string, w2: string, p: char -> bool)
    requires s != [] && !p(s[0]) && !p(s[|s| - 1])
    requires forall i :: 0 <= i < |w1| ==> p(w1[i])
    requires forall i :: 0 <= i < |w2| ==> p(w2[i])
    ensures Trim(w1 + s + w2, p) == s
  {
    assert w1 + s + w2 == w1 + (s + w2);
    TrimLeftPadded(w1, s + w2, p);
    assert Skip(s + w2, p) == 0;
    assert (s + w2)[0..] == s + w2;
    SkipBackPadded(s, w2, p);
    assert SkipBack(s, p) == 0;
    assert (s + w2)[..|s|] == s;
  }
}
