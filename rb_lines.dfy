/**
 * How roby_btscanner.rb reads the output of `hcitool scan`: the output is cut
 * into lines (`String#lines`), and a line that matches
 * `^\s*([0-9A-Fa-f]{2}(:[0-9A-Fa-f]{2}){5})\s+(.*)$` yields the device
 * address (group 1) and the stripped rest of the line as its name (group 3).
 */
module RbLines {
  import opened Wrappers
  import opened Text

  /** `\s` of a Ruby regular expression. */
  predicate IsRegexSpace(c: char) { IsAsciiSpace(c) }

  /** The characters `String#strip` removes: `\s` and the null character. */
  predicate IsStripSpace(c: char) { c == '\0' || IsRegexSpace(c) }

  predicate IsHex(c: char) { '0' <= c <= '9' || 'A' <= c <= 'F' || 'a' <= c <= 'f' }

  predicate IsNotNewline(c: char) { c != '\n' }

  /** Six groups of two hexadecimal digits joined by `:` (17 characters), any letter case. */
  predicate IsMac(a: string) {
    |a| == 17 && forall i :: 0 <= i < 17 ==> if i % 3 == 2 then a[i] == ':' else IsHex(a[i])
  }

  /** `s.strip` */
  function Strip(s: string): (r: string)
    ensures r == [] || (!IsStripSpace(r[0]) && !IsStripSpace(r[|r| - 1]))
  {
    Trim(s, IsStripSpace)
  }

  /** A piece of `String#lines`: no line feed, except as the last character. */
  predicate IsLine(s: string) {
    forall i :: 0 <= i < |s| - 1 ==> s[i] != '\n'
  }

  /** The length of the first line of `s`: up to and including the first line feed, or all of `s`. */
  function LineLength(s: string): (k: nat)
    requires s != []
    ensures 0 < k <= |s|
    ensures forall i :: 0 <= i < k - 1 ==> s[i] != '\n'
    ensures k < |s| ==> s[k - 1] == '\n'
    decreases |s|
  {
    if s[0] == '\n' || |s| == 1 then 1 else 1 + LineLength(s[1..])
  }

  /** `s.lines`: the lines of `s`, each with its line feed; a last line may lack one. */
  function Lines(s: string): (r: seq<string>)
    ensures forall i :: 0 <= i < |r| ==> r[i] != [] && IsLine(r[i])
    decreases |s|
  {
    if s == [] then []
    else
      var k := LineLength(s);
      [s[..k]] + Lines(s[k..])
  }

  function Concat(ls: seq<string>): string
    decreases |ls|
  {
    if ls == [] then [] else ls[0] + Concat(ls[1..])
  }

  /** Cutting into lines loses nothing: the lines put together again are the output. */
  lemma {:induction false} LinesConcat(s: string)
    ensures Concat(Lines(s)) == s
    decreases |s|
  {
    if s != [] {
      var k := LineLength(s);
      LinesConcat(s[k..]);
      assert ([s[..k]] + Lines(s[k..]))[1..] == Lines(s[k..]);
      assert s[..k] + s[k..] == s;
    }
  }

  /** Every line but the last ends with a line feed. */
  lemma {:induction false} LinesTerminated(s: string, i: nat)
    requires i + 1 < |Lines(s)|
    ensures Lines(s)[i][|Lines(s)[i]| - 1] == '\n'
    decreases |s|
  {
    var k := LineLength(s);
    if i > 0 {
      LinesTerminated(s[k..], i - 1);
    } else {
      assert k < |s|;
    }
  }

  /** The rest of a line is a line. */
  lemma LineSuffix(line: string, k: nat)
    requires IsLine(line) && k <= |line|
    ensures IsLine(line[k..])
  {
    forall i | 0 <= i < |line[k..]| - 1
      ensures line[k..][i] != '\n'
    {
      assert line[k..][i] == line[k + i];
    }
  }

  /** A matched line: the address (group 1) and the stripped name (group 3). */
  datatype Found = Found(address: string, name: string)

  /** `line =~ /^\s*(..:..:..:..:..:..)\s+(.*)$/`, then `$1` and `$3.strip`. */
  function MatchLine(line: string): (r: Option<Found>)
    requires IsLine(line)
    ensures r.Some? ==> IsMac(r.value.address)
    ensures r.Some? ==> r.value.name == [] || (!IsStripSpace(r.value.name[0]) && !IsStripSpace(r.value.name[|r.value.name| - 1]))
  {
    var w := Skip(line, IsRegexSpace);                  // ^\s*
    if w + 17 < |line| && IsMac(line[w..w + 17]) && IsRegexSpace(line[w + 17]) then
      var rest := line[w + 17..];
      var v := Skip(rest, IsRegexSpace);                // \s+
      var group3 := rest[v..][..Skip(rest[v..], IsNotNewline)];  // (.*)$
      Some(Found(line[w..w + 17], Strip(group3)))
    else
      None
  }

  /** The shape of an accepted line at column `k`: blanks, an address, then a blank. */
  ghost predicate Shaped(line: string, k: nat) {
    && k + 17 < |line|
    && (forall i :: 0 <= i < k ==> IsRegexSpace(line[i]))
    && IsMac(line[k..k + 17])
    && IsRegexSpace(line[k + 17])
  }

  /** `s` without a final line feed. */
  function Unterminated(s: string): string {
    if s != [] && s[|s| - 1] == '\n' then s[..|s| - 1] else s
  }

  /** On a line, `(.*)$` takes everything up to the line feed. */
  lemma UpToNewline(x: string)
    requires IsLine(x)
    ensures x[..Skip(x, IsNotNewline)] == Unterminated(x)
  {
    var k := Skip(x, IsNotNewline);
    if x != [] && x[|x| - 1] == '\n' {
      assert k == |x| - 1;
    } else {
      assert k == |x|;
    }
  }

  /** Blanks in front do not survive `strip`. */
  lemma StripAfterBlanks(u: string, v: nat)
    requires v <= |u|
    requires forall i :: 0 <= i < v ==> IsRegexSpace(u[i])
    ensures Strip(u[v..]) == Strip(u)
  {
    assert u == u[..v] + u[v..];
    TrimLeftPadded(u[..v], u[v..], IsStripSpace);
  }

  /** Cutting off a front that holds no line feed commutes with dropping the final line feed. */
  lemma UnterminatedSuffix(rest: string, v: nat)
    requires v < |rest| && rest[v] != '\n'
    ensures v <= |Unterminated(rest)|
    ensures Unterminated(rest[v..]) == Unterminated(rest)[v..]
  {
  }

  /** Group 3, stripped, is the whole rest of the line after the address, stripped. */
  lemma NameIsStrippedRest(rest: string)
    requires IsLine(rest)
    ensures var v := Skip(rest, IsRegexSpace);
            Strip(rest[v..][..Skip(rest[v..], IsNotNewline)]) == Strip(Unterminated(rest))
  {
    var v := Skip(rest, IsRegexSpace);
    var x := rest[v..];
    var u := Unterminated(rest);
    UpToNewline(x);
    if v == |rest| {
      assert x == [];
      assert u == rest[..|u|];
      StripAfterBlanks(u, |u|);
    } else {
      UnterminatedSuffix(rest, v);
      StripAfterBlanks(u, v);
    }
  }

  /** An address can only start where the leading blanks end. */
  lemma ShapedOnlyAfterBlanks(line: string, k: nat)
    requires Shaped(line, k)
    ensures k == Skip(line, IsRegexSpace)
  {
    var w := Skip(line, IsRegexSpace);
    assert IsHex(line[k..k + 17][0]);
  }

  /** A line shaped where its leading blanks end is matched there. */
  lemma MatchLineShaped(line: string)
    requires IsLine(line) && Shaped(line, Skip(line, IsRegexSpace))
    ensures var w := Skip(line, IsRegexSpace);
            MatchLine(line) == Some(Found(line[w..w + 17], Strip(Unterminated(line[w + 17..]))))
  {
    var w := Skip(line, IsRegexSpace);
    var rest := line[w + 17..];
    var v := Skip(rest, IsRegexSpace);
    var group3 := rest[v..][..Skip(rest[v..], IsNotNewline)];
    assert MatchLine(line) == Some(Found(line[w..w + 17], Strip(group3)));
    LineSuffix(line, w + 17);
    NameIsStrippedRest(rest);
  }

  /** A line shaped at column `k` is matched there. */
  lemma MatchLineAt(line: string, k: nat)
    requires IsLine(line) && Shaped(line, k)
    ensures MatchLine(line) == Some(Found(line[k..k + 17], Strip(Unterminated(line[k + 17..]))))
  {
    ShapedOnlyAfterBlanks(line, k);
    MatchLineShaped(line);
  }

  /** A matched line is shaped where its leading blanks end. */
  lemma MatchedIsShaped(line: string)
    requires IsLine(line) && MatchLine(line).Some?
    ensures Shaped(line, Skip(line, IsRegexSpace))
  {
  }

  /**
   * The line matcher accepts exactly the lines that start with optional
   * blanks, then an address, then at least one blank; the address is the 17
   * characters as written and the name is the rest of the line, stripped.
   */
  lemma MatchLineSpec(line: string)
    requires IsLine(line)
    ensures MatchLine(line).Some? <==> exists k: nat :: Shaped(line, k)
    ensures forall k: nat :: Shaped(line, k) ==>
      MatchLine(line) == Some(Found(line[k..k + 17], Strip(Unterminated(line[k + 17..]))))
  {
    var w := Skip(line, IsRegexSpace);
    forall k: nat | Shaped(line, k)
      ensures MatchLine(line) == Some(Found(line[k..k + 17], Strip(Unterminated(line[k + 17..]))))
    {
      MatchLineAt(line, k);
    }
    if MatchLine(line).Some? {
      MatchedIsShaped(line);
      assert Shaped(line, w);
    }
  }

  /** Lines without an address are ignored, for instance the "Scanning ..." header `hcitool` prints. */
  lemma HeaderIgnored()
    ensures MatchLine("Scanning ...\n") == None
  {
    var line := "Scanning ...\n";
    assert |line| == 13 && !IsRegexSpace(line[0]);
    SkipNone(line, IsRegexSpace);
  }
}
