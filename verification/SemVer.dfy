/**
 Semantic versions as the chart repository reads and orders them: the strict parser behind
 version.ParseVersion, the lenient parser it hands over to, and the comparison of
 semver.Version.
 */
module SemVer {
  import opened Wrappers
  import opened Strings

  const MAX_UINT64: nat := 0xFFFF_FFFF_FFFF_FFFF

  /** pre and metadata are empty when the version has none; original is the text that was parsed. */
  datatype Version = Version(
    major: nat, minor: nat, patch: nat, pre: string, metadata: string, original: string)

  // ---------------------------------------------------------------- characters and numbers

  predicate IsDigit(c: char) {
    '0' <= c <= '9'
  }

  predicate IsAllowed(c: char) {
    IsDigit(c) || 'a' <= c <= 'z' || 'A' <= c <= 'Z' || c == '-'
  }

  predicate AllDigits(s: string) {
    forall i :: 0 <= i < |s| ==> IsDigit(s[i])
  }

  predicate AllAllowed(s: string) {
    forall i :: 0 <= i < |s| ==> IsAllowed(s[i])
  }

  predicate LeadingZero(s: string) {
    |s| > 1 && s[0] == '0'
  }

  /** The number a run of decimal digits denotes. */
  function Value(s: string): nat
    requires AllDigits(s)
  {
    if s == "" then 0 else Value(s[..|s| - 1]) * 10 + (s[|s| - 1] as int - '0' as int)
  }

  /** strconv.ParseUint(s, 10, 64): fails on the empty text, on non-digits and beyond 64 bits. */
  function ParseUint(s: string): Option<nat> {
    if s != "" && AllDigits(s) && Value(s) <= MAX_UINT64 then Some(Value(s)) else None
  }

  /** The decimal numeral of n, as %d prints it. */
  function Decimal(n: nat): string {
    if n < 10 then ['0' + n as char] else Decimal(n / 10) + ['0' + (n % 10) as char]
  }

  // ---------------------------------------------------------------- parsing

  /** The text before the first c, and the text after it when there is one. */
  function Cut(s: string, c: char): (string, Option<string>) {
    var i := Index(s, c);
    if i == |s| then (s, None) else (s[..i], Some(s[i + 1..]))
  }

  predicate ValidPrerelease(p: string) {
    forall part :: part in Split(p, '.') ==>
      if AllDigits(part) then !LeadingZero(part) else AllAllowed(part)
  }

  predicate ValidMetadata(m: string) {
    forall part :: part in Split(m, '.') ==> AllAllowed(part)
  }

  /** What the version regular expression admits after '-' or '+': no identifier is empty. */
  predicate Identifiers(p: string) {
    forall part :: part in Split(p, '.') ==> part != "" && AllAllowed(part)
  }

  predicate StrictSegment(s: string) {
    AllDigits(s) && !LeadingZero(s) && ParseUint(s).Some?
  }

  function StrictNewVersion(v: string): Option<Version> {
    var (major, afterMajor) := Cut(v, '.');
    if afterMajor.None? then None else
    var (minor, afterMinor) := Cut(afterMajor.value, '.');
    if afterMinor.None? then None else
    var (front, metadata) := Cut(afterMinor.value, '+');
    var (patch, pre) := Cut(front, '-');
    if metadata.Some? && !ValidMetadata(metadata.value) then None
    else if pre.Some? && !ValidPrerelease(pre.value) then None
    else if !StrictSegment(major) || !StrictSegment(minor) || !StrictSegment(patch) then None
    else Some(Version(ParseUint(major).value, ParseUint(minor).value, ParseUint(patch).value,
                      Text(pre), Text(metadata), v))
  }

  function Text(o: Option<string>): string {
    if o.Some? then o.value else ""
  }

  /**
   The lenient parser: an optional 'v', one to three numbers, an optional pre-release and
   optional build metadata.
   */
  function NewVersion(v: string): Option<Version> {
    var (front, metadata) := Cut(TrimPrefix(v, "v"), '+');
    var (numbers, pre) := Cut(front, '-');
    var segments := Split(numbers, '.');
    var major, minor, patch := Segment(segments, 0), Segment(segments, 1), Segment(segments, 2);
    if |segments| > 3 || major.None? || minor.None? || patch.None? then None
    else if pre.Some? && !(Identifiers(pre.value) && ValidPrerelease(pre.value)) then None
    else if metadata.Some? && !(Identifiers(metadata.value) && ValidMetadata(metadata.value)) then None
    else Some(Version(major.value, minor.value, patch.value, Text(pre), Text(metadata), v))
  }

  /** Segment i as a number, 0 when it is missing. */
  function Segment(segments: seq<string>, i: nat): Option<nat> {
    if i < |segments| then ParseUint(segments[i]) else Some(0)
  }

  function ParseVersion(v: string): Option<Version> {
    if StrictNewVersion(TrimPrefix(v, "v")).None? then None else NewVersion(v)
  }

  // ---------------------------------------------------------------- comparison

  function Sign(less: bool, greater: bool): int {
    if less then -1 else if greater then 1 else 0
  }

  /** Go's < on strings of single-byte characters. */
  predicate LexLess(s: string, o: string) {
    if s == "" then o != ""
    else if o == "" then false
    else s[0] < o[0] || (s[0] == o[0] && LexLess(s[1..], o[1..]))
  }

  function ComparePrePart(s: string, o: string): int {
    if s == o then 0
    else if s == "" then -1
    else if o == "" then 1
    else
      var si, oi := ParseUint(s), ParseUint(o);
      if si.None? && oi.None? then (if LexLess(o, s) then 1 else -1)
      else if oi.None? then -1
      else if si.None? then 1
      else if si.value > oi.value then 1 else -1
  }

  /** Part i, or the empty placeholder past the end. */
  function At(parts: seq<string>, i: nat): string {
    if i < |parts| then parts[i] else ""
  }

  /** The comparison loop from part i up to bound. */
  function CompareParts(s: seq<string>, o: seq<string>, i: nat, bound: nat): int
    decreases bound - i
  {
    if i >= bound then 0
    else
      var d := ComparePrePart(At(s, i), At(o, i));
      if d != 0 then d else CompareParts(s, o, i + 1, bound)
  }

  function ComparePrerelease(v: string, o: string): int {
    var s, t := Split(v, '.'), Split(o, '.');
    CompareParts(s, t, 0, if |t| > |s| then |t| else |s|)
  }

  function CompareSegment(v: nat, o: nat): int {
    Sign(v < o, v > o)
  }

  function Compare(v: Version, o: Version): int {
    if v.major != o.major then CompareSegment(v.major, o.major)
    else if v.minor != o.minor then CompareSegment(v.minor, o.minor)
    else if v.patch != o.patch then CompareSegment(v.patch, o.patch)
    else if v.pre == "" && o.pre == "" then 0
    else if v.pre == "" then 1
    else if o.pre == "" then -1
    else ComparePrerelease(v.pre, o.pre)
  }

  // ---------------------------------------------------------------- printing

  function Dotted(head: string, tail: string): string {
    head + (['.'] + tail)
  }

  function Marked(mark: char, o: Option<string>): string {
    if o.Some? then [mark] + o.value else ""
  }

  function NonEmpty(s: string): Option<string> {
    if s == "" then None else Some(s)
  }

  /** The part of a version that the comparison looks at, printed. */
  function Core(v: Version): string {
    Dotted(Decimal(v.major), Dotted(Decimal(v.minor), Decimal(v.patch) + Marked('-', NonEmpty(v.pre))))
  }

  /** Version.String(). */
  function String(v: Version): string {
    Core(v) + Marked('+', NonEmpty(v.metadata))
  }

  /** A tag without a leading 'v' and without build metadata. */
  function Stem(tag: string): string {
    Cut(TrimPrefix(tag, "v"), '+').0
  }
}
