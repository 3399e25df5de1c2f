/**
 * `parse_duration` of btscanner.py: the scan length `<int><unit>` read from
 * the command line, together with the part of Python's `int(str)` it
 * relies on to read the number in front of the unit.
 */
module PyDuration {
  import opened Wrappers
  import opened Text

  /** The characters `int()` ignores around an ASCII argument: space and `\t` to `\r`. */
  predicate IsSpace(c: char) { IsAsciiSpace(c) }

  /** A base-10 literal as `int()` reads it once trimmed: an optional sign, then a digit group. */
  function Literal(t: string): (r: Option<int>)
    ensures r.Some? ==> t != [] && IsDigit(t[|t| - 1])
    ensures r.Some? && r.value < 0 ==> t[0] == '-'
  {
    if t != [] && (t[0] == '+' || t[0] == '-') then
      if IsDigitGroup(t[1..]) then
        var magnitude: int := Accumulate(0, t[1..]);
        Some(if t[0] == '-' then -magnitude else magnitude)
      else
        None
    else if IsDigitGroup(t) then
      Some(Accumulate(0, t))
    else
      None
  }

  /**
   * `int(s)` for a string `s` in base 10: surrounding whitespace, an optional
   * sign and single underscores between digits are accepted; `None` stands
   * for the `ValueError` Python raises on anything else.
   */
  function Int(s: string): (r: Option<int>)
    ensures r.Some? ==> exists i :: 0 <= i < |s| && IsDigit(s[i])
  {
    var k := Skip(s, IsSpace);
    var u := s[k..];
    var t := u[..|u| - SkipBack(u, IsSpace)];
    assert t == Trim(s, IsSpace);
    var r := Literal(t);
    assert r.Some? ==> s[k + |t| - 1] == t[|t| - 1];
    r
  }

  /** The two `ValueError`s `parse_duration` can raise: from `int()`, or its own for an unknown unit. */
  datatype DurationError = InvalidLiteral | InvalidFormat

  /**
   * `parse_duration(s)`: the number of seconds `s` stands for. It is accepted
   * exactly when its last character is a unit of the table and the
   * characters before it are an `int()` literal, and it is that number of
   * units in seconds.
   */
  function ParseDuration(s: string): (r: Result<int, DurationError>)
    ensures r.Ok? <==> s != [] && Int(s[..|s| - 1]).Some? && UnitSeconds(s[|s| - 1]).Some?
    ensures r.Ok? ==> r.value == Int(s[..|s| - 1]).value * UnitSeconds(s[|s| - 1]).value
  {
    if s == [] then
      // s[:-1] is "" and int("") raises before s[-1] is read
      Err(InvalidLiteral)
    else
      match Int(s[..|s| - 1])
      case None => Err(InvalidLiteral)
      case Some(value) =>
        var unit := s[|s| - 1];
        if unit == 's' then Ok(value)
        else if unit == 'm' then Ok(value * 60)
        else if unit == 'h' then Ok(value * 3600)
        else Err(InvalidFormat)
  }

  /** `int()` reads back every decimal numeral, negative ones included. */
  lemma IntOfNumeral(n: int)
    ensures Int(Show(n)) == Some(n)
  {
    IntPadded([], n, []);
    assert [] + Show(n) + [] == Show(n);
  }

  /** Every decimal numeral is a literal of its own value. */
  lemma LiteralOfNumeral(n: int)
    ensures Literal(Show(n)) == Some(n)
  {
    if n < 0 {
      assert Show(n)[1..] == ShowNat(-n);
      ShowNatValue(-n);
    } else {
      ShowNatValue(n);
    }
  }

  /** Whitespace around a numeral does not change what `int()` reads. */
  lemma IntPadded(w1: string, n: int, w2: string)
    requires forall i :: 0 <= i < |w1| ==> IsSpace(w1[i])
    requires forall i :: 0 <= i < |w2| ==> IsSpace(w2[i])
    ensures Int(w1 + Show(n) + w2) == Some(n)
  {
    TrimPadded(w1, Show(n), w2, IsSpace);
    LiteralOfNumeral(n);
  }

  /** Once `int()` has read the number in front, the unit alone decides the result. */
  lemma ParseDurationOfValue(s: string, value: int)
    requires s != [] && Int(s[..|s| - 1]) == Some(value)
    ensures ParseDuration(s) ==
      match UnitSeconds(s[|s| - 1])
      case Some(seconds) => Ok(value * seconds)
      case None => Err(InvalidFormat)
  {
    var unit := s[|s| - 1];
    if unit == 's' {
      assert ParseDuration(s) == Ok(value);
    } else if unit == 'm' {
      assert ParseDuration(s) == Ok(value * 60);
    } else if unit == 'h' {
      assert ParseDuration(s) == Ok(value * 3600);
    } else {
      assert UnitSeconds(unit) == None;
    }
  }

  /** `parse_duration` of a numeral followed by one character: seconds for a unit, an error otherwise. */
  lemma ParseDurationOfNumeral(n: int, unit: char)
    ensures ParseDuration(Show(n) + [unit]) ==
      match UnitSeconds(unit)
      case Some(seconds) => Ok(n * seconds)
      case None => Err(InvalidFormat)
  {
    var s := Show(n) + [unit];
    assert s != [] && s[..|s| - 1] == Show(n) && s[|s| - 1] == unit;
    IntOfNumeral(n);
    ParseDurationOfValue(s, n);
  }

  /** Without a digit there is no number to read, and `int()` fails first. */
  lemma ParseDurationWithoutDigits(s: string)
    requires forall i :: 0 <= i < |s| ==> !IsDigit(s[i])
    ensures ParseDuration(s) == Err(InvalidLiteral)
  {
    if s != [] {
      var t := s[..|s| - 1];
      forall i | 0 <= i < |t|
        ensures !IsDigit(t[i])
      {
        assert t[i] == s[i];
      }
    }
  }

  /**
   * The ASCII separators U+001C to U+001F count as whitespace for
   * `str.isspace` but not for `int()`, so they are not trimmed.
   */
  lemma SeparatorIsNotTrimmed()
    ensures ParseDuration("\U{1C}5s") == Err(InvalidLiteral)
  {
    var s := "\U{1C}5s";
    var t := s[..|s| - 1];
    assert t == "\U{1C}5";
    SkipNone(t, IsSpace);
    assert SkipBack(t, IsSpace) == 0;
    assert Trim(t, IsSpace) == t;
  }

  /** A last character outside the unit table is always an error, whatever precedes it. */
  lemma ParseDurationUnknownUnit(s: string)
    requires s != [] && UnitSeconds(s[|s| - 1]) == None
    ensures ParseDuration(s).Err?
  {
  }
}
