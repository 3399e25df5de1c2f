/**
 * The scan duration of roby_btscanner.rb: the option string's leading
 * integer (`String#to_i`) times the seconds of the unit its last character
 * names.
 */
module RbDuration {
  import opened Wrappers
  import opened Text

  /** The characters `String#to_i` skips before the number (`ISSPACE`). */
  predicate IsSpace(c: char) { IsAsciiSpace(c) }

  /** Can `u` carry on a digit run: a digit, or one `_` followed by a digit? */
  predicate Continues(u: string) {
    (u != [] && IsDigit(u[0])) || (|u| > 1 && u[0] == '_' && IsDigit(u[1]))
  }

  /** The length of the digits and single separators that follow a digit at the front of a run. */
  function RunTail(u: string): (k: nat)
    ensures k <= |u|
    decreases |u|
  {
    if u != [] && IsDigit(u[0]) then 1 + RunTail(u[1..])
    else if |u| > 1 && u[0] == '_' && IsDigit(u[1]) then 2 + RunTail(u[2..])
    else 0
  }

  /** What `RunTail(u)` covers: digits and single separators, ending in a digit, and nothing that carries on. */
  predicate TailShaped(u: string, k: nat)
    requires k <= |u|
  {
    && IsNumeral(u[..k])
    && (k > 0 ==> IsDigit(u[k - 1]))
    && (forall i :: 0 <= i < k - 1 ==> u[i] == '_' ==> u[i + 1] != '_')
    && !Continues(u[k..])
  }

  /** A digit in front of a shaped tail gives a shaped tail one longer. */
  lemma TailAfterDigit(u: string, k: nat)
    requires u != [] && IsDigit(u[0])
    requires k <= |u| - 1 && TailShaped(u[1..], k)
    ensures TailShaped(u, k + 1)
  {
    var v := u[1..];
    assert u[..k + 1] == [u[0]] + v[..k] && u[k + 1..] == v[k..];
    forall i | 0 < i < |u|
      ensures u[i] == v[i - 1]
    {
    }
  }

  /** A separator and a digit in front of a shaped tail give a shaped tail two longer. */
  lemma TailAfterSeparator(u: string, k: nat)
    requires |u| > 1 && u[0] == '_' && IsDigit(u[1])
    requires k <= |u| - 2 && TailShaped(u[2..], k)
    ensures TailShaped(u, k + 2)
  {
    var v := u[2..];
    assert u[..k + 2] == u[..2] + v[..k] && u[k + 2..] == v[k..];
    forall i | 1 < i < |u|
      ensures u[i] == v[i - 2]
    {
    }
  }

  /** `RunTail` stops exactly where the run of digits and single separators ends. */
  lemma {:induction false} RunTailShaped(u: string)
    ensures TailShaped(u, RunTail(u))
    decreases |u|
  {
    if u != [] && IsDigit(u[0]) {
      RunTailShaped(u[1..]);
      TailAfterDigit(u, RunTail(u[1..]));
    } else if |u| > 1 && u[0] == '_' && IsDigit(u[1]) {
      RunTailShaped(u[2..]);
      TailAfterSeparator(u, RunTail(u[2..]));
    }
  }

  /** The length of the digit run at the front of `u`: 0 when `u` does not start with a digit. */
  function RunLength(u: string): nat {
    if u != [] && IsDigit(u[0]) then 1 + RunTail(u[1..]) else 0
  }

  /** The value of the digit run at the front of `u`, 0 when there is none. */
  function LeadingNumber(u: string): (r: nat)
    ensures r != 0 ==> u != [] && IsDigit(u[0])
  {
    RunLengthIsLongestGroup(u);
    Accumulate(0, u[..RunLength(u)])
  }

  /** `s.to_i`: leading whitespace, an optional sign, then the digit run; 0 when there is none. */
  function ToI(s: string): (r: int)
    ensures r != 0 ==> exists i :: 0 <= i < |s| && IsDigit(s[i])
  {
    var k := Skip(s, IsSpace);
    var t := s[k..];
    assert |t| > 1 ==> t[1..][0] == s[k + 1];
    assert t != [] ==> t[0] == s[k];
    if t != [] && t[0] == '-' then -(LeadingNumber(t[1..]) as int)
    else if t != [] && t[0] == '+' then LeadingNumber(t[1..])
    else LeadingNumber(t)
  }

  /** The `RuntimeError` "Invalid duration format". */
  datatype DurationError = InvalidFormat

  /**
   * The `case` on the option's last character: accepted exactly when that
   * character is a unit of the table, and then `to_i` units in seconds.
   */
  function ParseDuration(s: string): (r: Result<int, DurationError>)
    ensures r.Ok? <==> s != [] && UnitSeconds(s[|s| - 1]).Some?
    ensures r.Ok? ==> r.value == ToI(s) * UnitSeconds(s[|s| - 1]).value
  {
    var duration := ToI(s);
    if s == [] then
      // ""[-1] is nil, which no `when` matches
      Err(InvalidFormat)
    else
      var unit := s[|s| - 1];
      if unit == 's' then Ok(duration)
      else if unit == 'm' then Ok(duration * 60)
      else if unit == 'h' then Ok(duration * 3600)
      else Err(InvalidFormat)
  }

  /**
   * The run `to_i` reads is the longest digit group at the front: empty when
   * there is no leading digit, otherwise a digit group that cannot be
   * extended by another digit or by a separator and a digit.
   */
  lemma RunLengthIsLongestGroup(u: string)
    ensures RunLength(u) <= |u| && IsNumeral(u[..RunLength(u)])
    ensures RunLength(u) == 0 <==> !(u != [] && IsDigit(u[0]))
    ensures RunLength(u) > 0 ==> IsDigitGroup(u[..RunLength(u)]) && !Continues(u[RunLength(u)..])
  {
    if u != [] && IsDigit(u[0]) {
      var v := u[1..];
      var k := RunTail(v);
      RunTailShaped(v);
      assert u[..1 + k] == [u[0]] + v[..k];
      assert u[1 + k..] == v[k..];
    }
  }

  /** A digit run followed by whatever cannot continue it is read as just that run. */
  lemma {:induction false} RunOfDigits(x: string, rest: string)
    requires forall i :: 0 <= i < |x| ==> IsDigit(x[i])
    requires !Continues(rest)
    ensures RunTail(x + rest) == |x|
    decreases |x|
  {
    if x == [] {
      assert x + rest == rest;
    } else {
      assert (x + rest)[0] == x[0] && (x + rest)[1..] == x[1..] + rest;
      RunOfDigits(x[1..], rest);
    }
  }

  /** The digit run of a numeral followed by anything that does not continue it is the numeral's value. */
  lemma LeadingNumberOfNumeral(m: nat, rest: string)
    requires !Continues(rest)
    ensures LeadingNumber(ShowNat(m) + rest) == m
  {
    var digits := ShowNat(m);
    ShowNatValue(m);
    RunOfDigits(digits[1..], rest);
    assert (digits + rest)[0] == digits[0];
    assert (digits + rest)[1..] == digits[1..] + rest;
    assert RunLength(digits + rest) == |digits|;
    assert (digits + rest)[..|digits|] == digits;
  }

  /** `to_i` of a string that starts with a digit or a minus sign. */
  lemma ToIWithoutBlanks(s: string)
    requires s != [] && (IsDigit(s[0]) || s[0] == '-')
    ensures ToI(s) == if s[0] == '-' then -(LeadingNumber(s[1..]) as int) else LeadingNumber(s)
  {
    SkipNone(s, IsSpace);
  }

  /** `to_i` of a minus sign, the digits of `m`, then anything that does not continue them. */
  lemma ToIOfMinus(m: nat, rest: string)
    requires !Continues(rest)
    ensures ToI(['-'] + (ShowNat(m) + rest)) == -(m as int)
  {
    var s := ['-'] + (ShowNat(m) + rest);
    assert s[1..] == ShowNat(m) + rest;
    ToIWithoutBlanks(s);
    LeadingNumberOfNumeral(m, rest);
  }

  /** `to_i` of the digits of `m`, then anything that does not continue them. */
  lemma ToIOfDigits(m: nat, rest: string)
    requires !Continues(rest)
    ensures ToI(ShowNat(m) + rest) == m
  {
    var s := ShowNat(m) + rest;
    assert s[0] == ShowNat(m)[0];
    ToIWithoutBlanks(s);
    LeadingNumberOfNumeral(m, rest);
  }

  /** `to_i` reads back a numeral followed by anything that does not continue it. */
  lemma ToIOfNumeral(n: int, rest: string)
    requires !Continues(rest)
    ensures ToI(Show(n) + rest) == n
  {
    if n < 0 {
      assert Show(n) + rest == ['-'] + (ShowNat(-n) + rest);
      ToIOfMinus(-n, rest);
    } else {
      ToIOfDigits(n, rest);
    }
  }

  /** A numeral followed by a unit is that many units in seconds; any other last character is refused. */
  lemma ParseDurationOfNumeral(n: int, unit: char)
    ensures ParseDuration(Show(n) + [unit]) ==
      match UnitSeconds(unit)
      case Some(seconds) => Ok(n * seconds)
      case None => Err(InvalidFormat)
  {
    var s := Show(n) + [unit];
    assert s != [] && s[|s| - 1] == unit;
    if UnitSeconds(unit).Some? {
      ToIOfNumeral(n, [unit]);
    }
  }

  /**
   * Unlike `parse_duration` of the Python scanner, a unit with no number in
   * front ("m", "xh") is accepted, as a duration of 0 seconds.
   */
  lemma ParseDurationWithoutDigits(s: string)
    requires s != [] && UnitSeconds(s[|s| - 1]).Some?
    requires forall i :: 0 <= i < |s| ==> !IsDigit(s[i])
    ensures ParseDuration(s) == Ok(0)
  {
  }
}
