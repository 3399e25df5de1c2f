# Bluetooth stable scanner — a Dafny model

The repository scans for nearby Bluetooth devices for a given time and writes a
PDF report of what it saw. This project models the two parts of it that hold
logic of their own, and proves what they promise.

- **`btscanner.py`**, the Python scanner:
  - `parse_duration` turns a `-d` argument such as `15m` into seconds.
  - The presence aggregator folds every sighting (address, name, clock
    reading) into a dictionary `devices`. The dictionary maps an address to
    the device's name and its list of visits.
  - A sighting at most 60 seconds after the end of the device's last visit
    extends that visit. A later sighting opens a new visit of zero length.
- **`rubyBTstableScanner/roby_btscanner.rb`**, the Ruby scanner:
  - It reads its duration with `String#to_i` and a `case` on the last
    character.
  - It cuts each `hcitool scan` output into lines. A line that matches the
    MAC-address regular expression yields an address and a stripped name.
  - It appends a `{address, name, timestamp}` entry to the `devices` array
    unless that address is already there.

Modules:

- `Wrappers`: `Option` and `Result`.
- `Text`: digits, the ASCII whitespace set, decimal numerals, trimming and the unit table (`s`, `m`, `h`).
  Both scanners share it. `UnitSeconds` is the independent reference for the
  two `case`/`if` chains.
- `PyDuration`: Python's `int()` on a base-10 string, and `parse_duration`.
- `PySessions`:
  - The `Visit`, `Ingested` and `IngestedAll` functions specify the
    aggregator.
  - The `Aggregator` class holds the `devices` map and its insertion order.
    Its `Ingest` method follows the Python branches statement by statement.
    `Poll` is the inner `for` over one poll's results.
  - `Scan` is the outer polling loop over a given sequence of polls.
- `RbDuration`: Ruby's `String#to_i`, and the duration `case`.
- `RbLines`: `String#lines`, the line regular expression and `String#strip`.
- `RbDevices`:
  - The `Appended` and `AppendedAll` functions specify the array.
  - The `DeviceList` class holds the array. `Contains` is the `any?` scan,
    `Record` the guarded `<<`, and `ScanOutput` the `each` over one output's
    lines.
  - `Collect` is the polling loop over a given sequence of outputs.

Clock readings are parameters. Python's `datetime.now()` is a whole number of
microseconds. "More than 60 seconds apart" is then a difference above
`Gap = 60_000_000`; because the difference is a whole number of microseconds,
this is the same test as `total_seconds() > 60`. Ruby reads `Time.now` only for
a matching line whose address is not yet in the array, because the `unless`
guard is evaluated first. The model gives each output one reading per line
and uses only the readings of such lines.

Where the code does something a reader might not expect, the model follows the code:

- The Python aggregator keeps the name of a device's first sighting. It
  never writes `name` again (btscanner.py:38).
- The Python aggregator sets a visit's end to the new reading without
  taking the later of the two: there is no `max` (btscanner.py:44). A
  reading earlier than the start of the last visit therefore leaves a visit
  that ends before it starts (`ClockBackwardsInvertsVisit`). The
  visit invariant is proved only for sightings whose times never decrease.
- The Ruby duration reader accepts a unit with no number in front: `"m"` is
  0 seconds. The Python one rejects it.

## Model

| member | source | states |
|---|---|---|
| Text.Trim | btscanner.py:9 | what trimming leaves is empty, or starts and ends with a character that is not trimmed |
| Text.TrimPadded | btscanner.py:9 | padding on either side of a string whose ends are not trimmed characters is removed and the string kept whole |
| Text.TrimBlank | btscanner.py:9 | a string made only of trimmed characters trims to nothing |
| PyDuration.Literal | btscanner.py:9 | an accepted literal ends in a digit, and a negative value was written with `-` |
| PyDuration.Int | btscanner.py:9 | `int()` accepts only a string that holds a digit |
| PyDuration.ParseDuration | btscanner.py:8-19 | accepted exactly when the prefix is an `int()` literal and the last character is in the unit table; the value is that integer times the unit's seconds |
| PyDuration.IntOfNumeral | btscanner.py:9 | `int()` reads every decimal numeral, negative ones included, back as its own value |
| PyDuration.LiteralOfNumeral | btscanner.py:9 | a numeral, once trimmed, is the literal of its own value (sign, then digit group) |
| PyDuration.IntPadded | btscanner.py:9 | whitespace on either side of a numeral does not change what `int()` returns |
| PyDuration.ParseDurationOfValue | btscanner.py:12-19 | once the prefix has been read, `s`, `m`, `h` give value, value·60, value·3600 and any other last character is the "Invalid duration format" error |
| PyDuration.ParseDurationOfNumeral | btscanner.py:8-19 | a numeral followed by a unit is that many units in seconds; any other last character is the format error |
| PyDuration.ParseDurationWithoutDigits | btscanner.py:9 | a string without digits, the empty one among them, fails in `int()` before the unit is looked at |
| PyDuration.ParseDurationUnknownUnit | btscanner.py:18-19 | a last character outside the unit table is always an error |
| PyDuration.SeparatorIsNotTrimmed | btscanner.py:9 | U+001C, which `str.isspace` accepts, is not trimmed by `int()`, so `"\x1c5s"` is refused |
| PySessions.Enrolled | btscanner.py:37-38 | the insertion order keeps the old order in front and lists exactly the old and the newly sighted addresses |
| PySessions.EnrolledIsNewAddresses | btscanner.py:37-38 | the insertion order is the old order followed by each new address once, in the order of its first sighting |
| PySessions.ScenarioEnrolmentOrder | btscanner.py:37-38 | sightings of A, B, A enrol A then B |
| PySessions.Visit | btscanner.py:40-44 | the last visit ends at `now`; more than the gap after the last end, `(now, now)` is appended and the old visits are kept; otherwise the count and all earlier visits are kept and the last becomes `(old start, now)` |
| PySessions.Ingested | btscanner.py:37-44 | keys grow by exactly the sighted address; other entries are untouched; a new address gets its name and `[(now, now)]`; a known one keeps its name and its visits change as `Visit` says |
| PySessions.IngestedAll | btscanner.py:33-44 | after a sequence of sightings the keys are the old keys plus every sighted address, and every record has a visit |
| PySessions.ChronologicalSeparated | btscanner.py:40-42 | in a chronological visit list every visit ends more than the gap before any later one starts; starts and ends strictly increase |
| PySessions.LastEndIsLatest | btscanner.py:40 | in a chronological list the last visit has the latest end, the one the code compares with |
| PySessions.VisitChronological | btscanner.py:40-44 | a sighting no earlier than the last end keeps a visit list chronological |
| PySessions.IngestedSettled | btscanner.py:37-44 | one sighting no earlier than every recorded end keeps every record chronological and ending no later than the sighting |
| PySessions.IngestedAllSettled | btscanner.py:33-44 | sightings with non-decreasing times keep the whole dictionary chronological |
| PySessions.RunChronological | btscanner.py:28-44 | from an empty dictionary, non-decreasing sightings leave every visit list non-empty, each visit start ≤ end, consecutive visits more than 60 s apart |
| PySessions.IngestedAllAppend | btscanner.py:31-44 | folding two groups of sightings one after the other is folding their concatenation, for the dictionary and for its insertion order |
| PySessions.ConsecutiveSightings | btscanner.py:40-44 | two consecutive sightings of one device at most the gap apart stay in one visit; further apart, the second opens `(t2, t2)` |
| PySessions.RepeatedSighting | btscanner.py:40-44 | a sighting at exactly the last end leaves the dictionary unchanged |
| PySessions.FirstNameKept | btscanner.py:38-44 | the stored name is the first sighting's, whatever later sightings report |
| PySessions.ClockBackwardsInvertsVisit | btscanner.py:40-44 | a sighting earlier than the start of a well-formed last visit keeps the visit count and makes the last visit `(start, now)`, which ends before it starts |
| PySessions.ScenarioOneVisit | btscanner.py:37-44 | sightings at 0 s, 30 s and 90 s form the one visit (0 s, 90 s) |
| PySessions.ScenarioTwoVisits | btscanner.py:37-44 | sightings at 0 s and 70 s form two visits |
| PySessions.Aggregator.constructor | btscanner.py:28 | `devices = {}`: empty dictionary, empty insertion order |
| PySessions.Aggregator.Ingest | btscanner.py:37-44 | the new dictionary is `Ingested` of the old one and the sighting; a new address is added at the end of the insertion order; the invariant is kept |
| PySessions.Aggregator.Poll | btscanner.py:33-44 | one poll's results folded in the order they were returned: `IngestedAll` of the old dictionary, with the insertion order extended the same way |
| PySessions.Scan | btscanner.py:28-44 | the polling loop from `{}` gives `IngestedAll` of all sightings in order; with non-decreasing times every visit list is chronological |
| RbDuration.LeadingNumber | rubyBTstableScanner/roby_btscanner.rb:22 | a non-zero leading number needs a leading digit |
| RbDuration.ToI | rubyBTstableScanner/roby_btscanner.rb:22 | `to_i` is non-zero only for a string that holds a digit |
| RbDuration.ParseDuration | rubyBTstableScanner/roby_btscanner.rb:22-28 | accepted exactly when the last character is in the unit table; the value is `to_i` times the unit's seconds |
| RbDuration.RunTailShaped | rubyBTstableScanner/roby_btscanner.rb:22 | the run `to_i` reads after a digit is digits and single `_` separators, ends in a digit, and nothing after it could extend it |
| RbDuration.RunLengthIsLongestGroup | rubyBTstableScanner/roby_btscanner.rb:22 | the leading run is empty without a leading digit, and otherwise a digit group that cannot be extended |
| RbDuration.RunOfDigits | rubyBTstableScanner/roby_btscanner.rb:22 | a run of digits followed by anything that cannot continue it is read to its end |
| RbDuration.LeadingNumberOfNumeral | rubyBTstableScanner/roby_btscanner.rb:22 | the leading run of a numeral followed by a non-continuation has the numeral's value |
| RbDuration.ToIWithoutBlanks | rubyBTstableScanner/roby_btscanner.rb:22 | `to_i` of a string starting with a digit or `-` is the leading run's value, negated after `-` |
| RbDuration.ToIOfMinus | rubyBTstableScanner/roby_btscanner.rb:22 | `to_i` of `-` and a numeral followed by trailing text is minus the numeral |
| RbDuration.ToIOfDigits | rubyBTstableScanner/roby_btscanner.rb:22 | `to_i` of a numeral followed by trailing text is the numeral |
| RbDuration.ToIOfNumeral | rubyBTstableScanner/roby_btscanner.rb:22 | `to_i` reads back any integer's numeral followed by text that does not continue it |
| RbDuration.ParseDurationOfNumeral | rubyBTstableScanner/roby_btscanner.rb:22-28 | a numeral followed by a unit is that many units in seconds; any other last character raises "Invalid duration format" |
| RbDuration.ParseDurationWithoutDigits | rubyBTstableScanner/roby_btscanner.rb:22-26 | a unit with no digits in front is accepted as 0 seconds |
| RbLines.Strip | rubyBTstableScanner/roby_btscanner.rb:39 | the stripped string is empty, or starts and ends with a character `strip` keeps |
| RbLines.MatchLine | rubyBTstableScanner/roby_btscanner.rb:37-39 | an accepted address is a well-formed MAC address, and the name is stripped at both ends |
| RbLines.LineLength | rubyBTstableScanner/roby_btscanner.rb:36 | the first line runs up to and including the first line feed, or to the end |
| RbLines.Lines | rubyBTstableScanner/roby_btscanner.rb:36 | every piece of `lines` is non-empty and has a line feed at most at its end |
| RbLines.LinesConcat | rubyBTstableScanner/roby_btscanner.rb:36 | the lines put together again are the whole output |
| RbLines.LinesTerminated | rubyBTstableScanner/roby_btscanner.rb:36 | every line but the last ends with a line feed |
| RbLines.MatchLineSpec | rubyBTstableScanner/roby_btscanner.rb:37-39 | a line matches exactly when it is optional blanks, six `:`-joined two-hex-digit groups, then a blank; the address is those 17 characters as written and the name the rest of the line without its line feed, stripped |
| RbLines.MatchLineAt | rubyBTstableScanner/roby_btscanner.rb:37-39 | a line of that shape at any column gives that column's address and stripped rest |
| RbLines.MatchedIsShaped | rubyBTstableScanner/roby_btscanner.rb:37 | a matched line has that shape where its leading blanks end |
| RbLines.ShapedOnlyAfterBlanks | rubyBTstableScanner/roby_btscanner.rb:37 | the address can only start where the leading blanks end |
| RbLines.NameIsStrippedRest | rubyBTstableScanner/roby_btscanner.rb:37-39 | group 3, stripped, is the whole rest of the line after the address, without its line feed, stripped |
| RbLines.HeaderIgnored | rubyBTstableScanner/roby_btscanner.rb:37 | the `Scanning ...` header line is ignored |
| RbDevices.Appended | rubyBTstableScanner/roby_btscanner.rb:40 | afterwards the address is in the array; the old entries stay in front and at most one is added; distinct addresses stay distinct |
| RbDevices.AppendedAll | rubyBTstableScanner/roby_btscanner.rb:36-40 | the old entries stay in front unchanged, and at most one entry is added per candidate |
| RbDevices.AppendedAllCovers | rubyBTstableScanner/roby_btscanner.rb:40 | every candidate's address ends up in the array |
| RbDevices.AppendedAllDistinct | rubyBTstableScanner/roby_btscanner.rb:40 | addresses stay pairwise distinct |
| RbDevices.AppendedAllHasAddress | rubyBTstableScanner/roby_btscanner.rb:40 | an address is in the array after the fold exactly when it was there before or some candidate has it |
| RbDevices.AppendedAllIsFirstSightings | rubyBTstableScanner/roby_btscanner.rb:40 | the array is the old array followed by the first sightings of new addresses, in the order they were first seen |
| RbDevices.AppendedAllNewAreFirst | rubyBTstableScanner/roby_btscanner.rb:40 | every new entry is the first candidate with its address, with that candidate's name and time |
| RbDevices.AppendedAllFirstWins | rubyBTstableScanner/roby_btscanner.rb:40 | old entries kept in front, every candidate's address present, every new entry a first sighting, no duplicates, and the new entries exactly the first sightings in first-sighting order |
| RbDevices.AppendedAllAppend | rubyBTstableScanner/roby_btscanner.rb:34-42 | folding two outputs one after the other is folding their candidates concatenated |
| RbDevices.Candidates | rubyBTstableScanner/roby_btscanner.rb:36-40 | an output yields at most one candidate per line |
| RbDevices.AppendedCandidatesStep | rubyBTstableScanner/roby_btscanner.rb:36-40 | one more line appends its entry when it matches and leaves the array alone otherwise |
| RbDevices.DeviceList.constructor | rubyBTstableScanner/roby_btscanner.rb:30 | `devices = []` |
| RbDevices.DeviceList.Contains | rubyBTstableScanner/roby_btscanner.rb:40 | the `any?` scan is true exactly when some entry has the address |
| RbDevices.DeviceList.Record | rubyBTstableScanner/roby_btscanner.rb:40 | the new array is `Appended` of the old one and the entry; addresses stay distinct |
| RbDevices.DeviceList.ScanOutput | rubyBTstableScanner/roby_btscanner.rb:36-42 | the new array is the old one with the output's matching lines folded in, in order |
| RbDevices.Collect | rubyBTstableScanner/roby_btscanner.rb:30-45 | the polling loop from `[]` gives the fold of all outputs' candidates in order; addresses are distinct |

## Left out

- Radio and operating-system calls are not modelled. `discover_devices`, the `hcitool scan` backticks and the C++ and Go `hci_*`/`bt.Scan` calls become the given input sequences of polls and outputs.
- Clocks, `sleep`, `Timeout.timeout`, the `while` test on elapsed time and `KeyboardInterrupt` are not modelled. Clock readings are parameters, and the loops run over a given finite sequence of polls.
- `print`/`puts` of each device, argument parsing (argparse, OptionParser) and PDF output (FPDF, Prawn), including the report's order over `devices`. The insertion order the Python report iterates in is modelled as `Aggregator.order`.
- cppBTstableScanner/cpp_btScanner.cpp is not part of this model. It restates the Python merge rule but does not compile as written.
- goBTstableScanner/go_btScanner.go is not part of this model. It has no visit logic and delegates duration parsing to a library.
- setup.py is not part of this model. It holds packaging metadata only.
- PyDuration.Int: models the ASCII-string case: whitespace (space and `\t` to `\r`), one sign and single `_` separators. For a string holding a non-ASCII character Python first maps non-ASCII decimal digits to ASCII digits and non-ASCII whitespace (U+0085, U+00A0, U+2000 to U+200A, U+3000 and others) to spaces; ASCII characters, U+001C to U+001F among them, are left as they are and refused as in the model. That mapping is not modelled, nor is the limit on the length of digit strings.
- RbDuration.ToI: leaves out the `0d` radix prefix that `to_i` also accepts, and does not model strings that are not valid in their encoding.
- RbLines.MatchLine: does not model the `ArgumentError` that `=~` raises on output that is not valid in its encoding (for example a name cut inside a multi-byte character). Nothing rescues it, so the real run stops there without a report. The model works on characters and always answers.
- RbLines.Strip: the same: a string that is not valid in its encoding is not modelled.
- PySessions.Ingested: `name` is a string. `discover_devices` may return `None` for a name it could not look up, and that case is not modelled.
- The Ruby `name` and address come from a regular expression. Only the one pattern of the source is modelled, as a function on a single line without backtracking. This is equivalent because nothing in the pattern can backtrack into a different match.
