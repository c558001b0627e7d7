/**
 The order of parsed versions: a total preorder whose ties are exactly the versions whose tags
 differ in a leading 'v' or in build metadata, and its relation to section 11 of Semantic
 Versioning 2.0.0.
 */
module SemVerOrder {
  import opened Wrappers
  import opened Strings
  import opened SemVer
  import opened SemVerParsing

  // ---------------------------------------------------------------- single identifiers

  /** An identifier of a well-formed pre-release, or the placeholder for a missing one. */
  ghost predicate Canonical(part: string) {
    AllDigits(part) ==> !LeadingZero(part)
  }

  lemma {:induction false} LexTotal(s: string, o: string)
    ensures !(LexLess(s, o) && LexLess(o, s))
    ensures !LexLess(s, o) && !LexLess(o, s) ==> s == o
  {
    if s != "" && o != "" && s[0] == o[0] {
      LexTotal(s[1..], o[1..]);
      assert s == [s[0]] + s[1..] && o == [o[0]] + o[1..];
    }
  }

  /** The text order: a proper prefix comes first, else the first difference decides. */
  lemma {:induction false} LexLessMeans(s: string, o: string)
    ensures LexLess(s, o) <==>
            exists n :: 0 <= n <= |s| && n < |o| && s[..n] == o[..n] && (n == |s| || s[n] < o[n])
    decreases |s|
  {
    if s == "" || o == "" || s[0] != o[0] {
      assert s[..0] == o[..0];
      CommonHead(s, o);
    } else {
      LexLessMeans(s[1..], o[1..]);
      if m :| 0 <= m <= |s[1..]| && m < |o[1..]| && s[1..][..m] == o[1..][..m] && (m == |s[1..]| || s[1..][m] < o[1..][m]) {
        assert s[..m + 1] == [s[0]] + s[1..][..m] && o[..m + 1] == [o[0]] + o[1..][..m];
      }
      if n :| 0 <= n <= |s| && n < |o| && s[..n] == o[..n] && (n == |s| || s[n] < o[n]) {
        assert n > 0;
        assert s[1..][..n - 1] == s[..n][1..] && o[1..][..n - 1] == o[..n][1..];
      }
    }
  }

  lemma CommonHead(s: string, o: string)
    ensures forall n :: 0 < n <= |s| && n <= |o| && s[..n] == o[..n] ==> s[0] == o[0]
  {
    forall n | 0 < n <= |s| && n <= |o| && s[..n] == o[..n] ensures s[0] == o[0] {
      assert s[..n][0] == s[0] && o[..n][0] == o[0];
    }
  }

  lemma {:induction false} LexTransitive(s: string, o: string, u: string)
    requires LexLess(s, o) && LexLess(o, u)
    ensures LexLess(s, u)
  {
    if s != "" && s[0] == o[0] == u[0] {
      LexTransitive(s[1..], o[1..], u[1..]);
    }
  }

  /** Two canonical numerals that read as the same number are the same text. */
  lemma ParseUintInjective(s: string, o: string)
    requires Canonical(s) && Canonical(o)
    requires ParseUint(s).Some? && ParseUint(s) == ParseUint(o)
    ensures s == o
  {
    DecimalOfValue(s);
    DecimalOfValue(o);
  }

  lemma PartAntisymmetric(s: string, o: string)
    requires Canonical(s) && Canonical(o)
    ensures ComparePrePart(s, o) == -ComparePrePart(o, s)
    ensures ComparePrePart(s, o) == 0 <==> s == o
  {
    LexTotal(s, o);
    if ParseUint(s).Some? && ParseUint(s) == ParseUint(o) {
      ParseUintInjective(s, o);
    }
  }

  lemma PartTransitive(s: string, o: string, u: string)
    requires Canonical(s) && Canonical(o) && Canonical(u)
    requires ComparePrePart(s, o) <= 0 && ComparePrePart(o, u) <= 0
    ensures ComparePrePart(s, u) <= 0
    ensures ComparePrePart(s, u) == 0 ==> s == o == u
  {
    PartAntisymmetric(s, o);
    PartAntisymmetric(o, u);
    PartAntisymmetric(s, u);
    LexTotal(s, o);
    LexTotal(o, u);
    if LexLess(s, o) && LexLess(o, u) {
      LexTransitive(s, o, u);
      LexTotal(s, u);
    }
  }

  // ---------------------------------------------------------------- lists of identifiers

  ghost predicate CanonicalParts(parts: seq<string>) {
    forall i: nat :: Canonical(At(parts, i))
  }

  /** Past the end of both lists the loop finds no further difference. */
  lemma {:induction false} LargerBound(s: seq<string>, o: seq<string>, i: nat, bound: nat, larger: nat)
    requires |s| <= bound && |o| <= bound <= larger
    ensures CompareParts(s, o, i, bound) == CompareParts(s, o, i, larger)
    decreases larger - i
  {
    if i < larger {
      LargerBound(s, o, i + 1, bound, larger);
    }
  }

  lemma {:induction false} PartsAntisymmetric(s: seq<string>, o: seq<string>, i: nat, bound: nat)
    requires CanonicalParts(s) && CanonicalParts(o)
    ensures CompareParts(s, o, i, bound) == -CompareParts(o, s, i, bound)
    ensures CompareParts(s, o, i, bound) == 0 <==> forall k: nat :: i <= k < bound ==> At(s, k) == At(o, k)
    decreases bound - i
  {
    if i < bound {
      PartAntisymmetric(At(s, i), At(o, i));
      PartsAntisymmetric(s, o, i + 1, bound);
    }
  }

  lemma {:induction false} PartsTransitive(s: seq<string>, o: seq<string>, u: seq<string>, i: nat, bound: nat)
    requires CanonicalParts(s) && CanonicalParts(o) && CanonicalParts(u)
    requires CompareParts(s, o, i, bound) <= 0 && CompareParts(o, u, i, bound) <= 0
    ensures CompareParts(s, u, i, bound) <= 0
    decreases bound - i
  {
    if i < bound {
      var a, b, c := At(s, i), At(o, i), At(u, i);
      PartAntisymmetric(a, b);
      PartAntisymmetric(b, c);
      PartTransitive(a, b, c);
      if a == b == c {
        PartsTransitive(s, o, u, i + 1, bound);
      } else {
        PartAntisymmetric(a, c);
      }
    }
  }

  // ---------------------------------------------------------------- versions

  lemma PreParts(v: Version)
    requires WellFormed(v) && v.pre != ""
    ensures CanonicalParts(Split(v.pre, '.'))
    ensures forall i :: 0 <= i < |Split(v.pre, '.')| ==> Split(v.pre, '.')[i] != ""
  {
    var parts := Split(v.pre, '.');
    forall i: nat ensures Canonical(At(parts, i)) {
      if i < |parts| {
        assert parts[i] in parts;
      }
    }
    forall i | 0 <= i < |parts| ensures parts[i] != "" {
      assert parts[i] in parts;
    }
  }

  function Max(a: nat, b: nat): nat {
    if a >= b then a else b
  }

  /** Comparison of two pre-releases with any sufficient bound. */
  lemma PrereleaseBound(v: string, o: string, bound: nat)
    requires |Split(v, '.')| <= bound && |Split(o, '.')| <= bound
    ensures ComparePrerelease(v, o) == CompareParts(Split(v, '.'), Split(o, '.'), 0, bound)
  {
    LargerBound(Split(v, '.'), Split(o, '.'), 0, Max(|Split(v, '.')|, |Split(o, '.')|), bound);
  }

  lemma PrereleaseAntisymmetric(v: Version, o: Version)
    requires WellFormed(v) && WellFormed(o) && v.pre != "" && o.pre != ""
    ensures ComparePrerelease(v.pre, o.pre) == -ComparePrerelease(o.pre, v.pre)
    ensures ComparePrerelease(v.pre, o.pre) == 0 <==> v.pre == o.pre
  {
    var s, t := Split(v.pre, '.'), Split(o.pre, '.');
    var bound := Max(|s|, |t|);
    PreParts(v);
    PreParts(o);
    PrereleaseBound(v.pre, o.pre, bound);
    PrereleaseBound(o.pre, v.pre, bound);
    PartsAntisymmetric(s, t, 0, bound);
    if ComparePrerelease(v.pre, o.pre) == 0 {
      var shorter: nat := if |s| < |t| then |s| else |t|;
      assert shorter < bound ==> At(s, shorter) == At(t, shorter);
      forall i | 0 <= i < |s| ensures s[i] == t[i] {
        assert At(s, i) == At(t, i);
      }
      assert s == t;
      JoinSplit(v.pre, '.');
      JoinSplit(o.pre, '.');
    }
  }

  /**
   Swapping the arguments flips the sign, and a tie means equal numbers and equal pre-release:
   metadata and spelling play no part.
   */
  lemma CompareAntisymmetric(v: Version, o: Version)
    requires WellFormed(v) && WellFormed(o)
    ensures Compare(v, o) == -Compare(o, v)
    ensures Compare(v, o) == 0 <==>
            v.major == o.major && v.minor == o.minor && v.patch == o.patch && v.pre == o.pre
  {
    if v.pre != "" && o.pre != "" {
      PrereleaseAntisymmetric(v, o);
    }
  }

  lemma CompareTransitive(v: Version, o: Version, u: Version)
    requires WellFormed(v) && WellFormed(o) && WellFormed(u)
    requires Compare(v, o) <= 0 && Compare(o, u) <= 0
    ensures Compare(v, u) <= 0
  {
    if v.pre != "" && o.pre != "" && u.pre != "" {
      var s, t, w := Split(v.pre, '.'), Split(o.pre, '.'), Split(u.pre, '.');
      var bound := Max(|s|, Max(|t|, |w|));
      PreParts(v);
      PreParts(o);
      PreParts(u);
      PrereleaseBound(v.pre, o.pre, bound);
      PrereleaseBound(o.pre, u.pre, bound);
      PrereleaseBound(v.pre, u.pre, bound);
      if CompareParts(s, t, 0, bound) <= 0 && CompareParts(t, w, 0, bound) <= 0 {
        PartsTransitive(s, t, w, 0, bound);
      }
    }
  }

  /** Two parsing tags tie exactly when they agree without leading 'v' and build metadata. */
  lemma TiesAreSpellings(s: string, t: string)
    ensures ParseVersion(s).Some? && ParseVersion(t).Some? ==>
              (Compare(ParseVersion(s).value, ParseVersion(t).value) == 0 <==> Stem(s) == Stem(t))
  {
    if ParseVersion(s).Some? && ParseVersion(t).Some? {
      var v, o := ParseVersion(s).value, ParseVersion(t).value;
      ParsedText(s);
      ParsedText(t);
      CompareAntisymmetric(v, o);
      if Core(v) == Core(o) {
        CoreInjective(v, o);
      }
    }
  }

  /**
   The order needs the parser's checks: on identifiers with leading zeros, which the parser
   rejects, the comparison is not even antisymmetric.
   */
  lemma LeadingZerosBreakTheOrder()
    ensures ComparePrePart("01", "1") == -1 && ComparePrePart("1", "01") == -1
  {
    assert "01"[..1] == "0" && "0"[..0] == "" && "1"[..0] == "";
    assert Value("0") == 0 && Value("01") == 1 && Value("1") == 1;
  }

  // ---------------------------------------------------------------- section 11

  /** Precedence of two different non-empty identifiers by section 11.4. */
  function Section11Part(s: string, o: string): int {
    if s == o then 0
    else if AllDigits(s) && AllDigits(o) then (if Value(s) < Value(o) then -1 else 1)
    else if AllDigits(s) then -1
    else if AllDigits(o) then 1
    else if LexLess(s, o) then -1 else 1
  }

  /** A numeric identifier too long for 64 bits: the comparison reads it as text. */
  ghost predicate Oversized(s: string) {
    AllDigits(s) && Value(s) > MAX_UINT64
  }

  /** Text order ranks s and o the wrong way round: by length for numbers, numbers first otherwise. */
  ghost predicate TextMisranks(s: string, o: string) {
    if AllDigits(s) && AllDigits(o) then |s| != |o| && (LexLess(s, o) <==> |s| > |o|)
    else if AllDigits(s) then LexLess(o, s)
    else LexLess(s, o)
  }

  lemma {:induction false} ValueBounds(s: string)
    requires s != "" && AllDigits(s)
    ensures Value(s) < Pow10(|s|)
    ensures s[0] != '0' ==> Value(s) >= Pow10(|s| - 1)
  {
    var init := s[..|s| - 1];
    if |s| == 1 {
      assert init == "" && Value(init) == 0;
      assert Pow10(1) == 10 * Pow10(0);
    } else {
      ValueBounds(init);
    }
  }

  function Pow10(n: nat): nat {
    if n == 0 then 1 else 10 * Pow10(n - 1)
  }

  lemma {:induction false} Pow10Monotone(m: nat, n: nat)
    requires m <= n
    ensures 1 <= Pow10(m) <= Pow10(n)
  {
    if m < n {
      Pow10Monotone(m, n - 1);
    } else if m > 0 {
      Pow10Monotone(m - 1, n - 1);
    }
  }

  /** A shorter canonical numeral denotes a smaller number. */
  lemma LongerIsLarger(s: string, o: string)
    requires AllDigits(s) && AllDigits(o) && s != "" && |s| < |o| && !LeadingZero(o)
    ensures Value(s) < Value(o)
  {
    ValueBounds(s);
    ValueBounds(o);
    Pow10Monotone(|s|, |o| - 1);
  }

  /** Numerals of equal length are ranked by text order as by value. */
  lemma {:induction false} EqualLengthOrder(s: string, o: string)
    requires AllDigits(s) && AllDigits(o) && |s| == |o|
    ensures LexLess(s, o) <==> Value(s) < Value(o)
    decreases |s|
  {
    if s != "" {
      var n := |s| - 1;
      EqualLengthOrder(s[..n], o[..n]);
      EqualLengthOrder(o[..n], s[..n]);
      LexSnoc(s[..n], o[..n], s[n], o[n]);
      assert s == s[..n] + [s[n]] && o == o[..n] + [o[n]];
      LexTotal(s[..n], o[..n]);
    }
  }

  /** Appending one character each decides only a tie. */
  lemma {:induction false} LexSnoc(s: string, o: string, c: char, d: char)
    requires |s| == |o|
    ensures LexLess(s + [c], o + [d]) <==> LexLess(s, o) || (s == o && c < d)
  {
    if s == "" {
      assert s + [c] == [c] && o + [d] == [d];
    } else {
      assert (s + [c])[1..] == s[1..] + [c] && (o + [d])[1..] == o[1..] + [d];
      LexSnoc(s[1..], o[1..], c, d);
      assert s == [s[0]] + s[1..] && o == [o[0]] + o[1..];
    }
  }

  /**
   The comparison of two identifiers is that of section 11 except on the branch that compares
   text, and there it fails exactly when an oversized number takes part and text order ranks the
   two the other way round.
   */
  lemma PartFollowsSection11(s: string, o: string)
    requires s != "" && o != "" && Canonical(s) && Canonical(o)
    ensures ComparePrePart(s, o) == Section11Part(s, o) <==>
            s == o || ParseUint(s).Some? || ParseUint(o).Some? ||
            !((Oversized(s) || Oversized(o)) && TextMisranks(s, o))
  {
    LexTotal(s, o);
    if s != o && AllDigits(s) && AllDigits(o) {
      if |s| < |o| {
        LongerIsLarger(s, o);
      } else if |o| < |s| {
        LongerIsLarger(o, s);
      } else {
        EqualLengthOrder(s, o);
        EqualLengthOrder(o, s);
      }
      DecimalOfValue(s);
      DecimalOfValue(o);
    }
  }

  lemma Pow10OfTwenty()
    ensures Pow10(20) > MAX_UINT64
  {
    assert Pow10(5) == 100_000 && Pow10(10) == 10_000_000_000 && Pow10(15) == 1_000_000_000_000_000;
    assert Pow10(20) == 100_000_000_000_000_000_000;
  }

  /** Precedence of two identifier lists by section 11.4. */
  function Section11Parts(s: seq<string>, o: seq<string>): int {
    if s == [] && o == [] then 0
    else if s == [] then -1
    else if o == [] then 1
    else if s[0] != o[0] then Section11Part(s[0], o[0])
    else Section11Parts(s[1..], o[1..])
  }

  /** Precedence of two versions by section 11. */
  function Section11(v: Version, o: Version): int {
    if v.major != o.major then (if v.major < o.major then -1 else 1)
    else if v.minor != o.minor then (if v.minor < o.minor then -1 else 1)
    else if v.patch != o.patch then (if v.patch < o.patch then -1 else 1)
    else if v.pre == o.pre then 0
    else if v.pre == "" then 1
    else if o.pre == "" then -1
    else Section11Parts(Split(v.pre, '.'), Split(o.pre, '.'))
  }

  /** The first place where two lists differ within both of them, if there is one. */
  function FirstDifference(s: seq<string>, o: seq<string>): Option<(string, string)> {
    if s == [] || o == [] then None
    else if s[0] != o[0] then Some((s[0], o[0]))
    else FirstDifference(s[1..], o[1..])
  }

  /** The pair that the two versions are decided on is ranked by text with an oversized number in it. */
  ghost predicate DecidedByOversized(v: Version, o: Version) {
    && v.major == o.major && v.minor == o.minor && v.patch == o.patch && v.pre != "" && o.pre != ""
    && var d := FirstDifference(Split(v.pre, '.'), Split(o.pre, '.'));
       && d.Some?
       && ParseUint(d.value.0).None? && ParseUint(d.value.1).None?
       && (Oversized(d.value.0) || Oversized(d.value.1))
       && TextMisranks(d.value.0, d.value.1)
  }

  lemma {:induction false} PartsFollowSection11(s: seq<string>, o: seq<string>, i: nat, bound: nat)
    requires CanonicalParts(s) && CanonicalParts(o)
    requires forall k :: 0 <= k < |s| ==> s[k] != ""
    requires forall k :: 0 <= k < |o| ==> o[k] != ""
    requires i <= |s| <= bound && i <= |o| <= bound
    ensures var d := FirstDifference(s[i..], o[i..]);
            CompareParts(s, o, i, bound) ==
            if d.Some? then ComparePrePart(d.value.0, d.value.1) else Section11Parts(s[i..], o[i..])
    ensures var d := FirstDifference(s[i..], o[i..]);
            d.Some? ==>
              && Section11Parts(s[i..], o[i..]) == Section11Part(d.value.0, d.value.1)
              && d.value.0 in s && d.value.1 in o && d.value.0 != d.value.1
    decreases bound - i
  {
    if i == |s| && i == |o| {
      PartsAntisymmetric(s, o, i, bound);
    } else if i < |s| && i < |o| {
      PartAntisymmetric(At(s, i), At(o, i));
      if s[i] == o[i] {
        assert s[i..][1..] == s[i + 1..] && o[i..][1..] == o[i + 1..];
        PartsFollowSection11(s, o, i + 1, bound);
      }
    }
  }

  /** Versions are ordered by section 11 exactly when no oversized number decides against it. */
  lemma OrderFollowsSection11(v: Version, o: Version)
    requires WellFormed(v) && WellFormed(o)
    ensures Compare(v, o) == Section11(v, o) <==> !DecidedByOversized(v, o)
  {
    CompareAntisymmetric(v, o);
    if v.major == o.major && v.minor == o.minor && v.patch == o.patch && v.pre != "" && o.pre != "" {
      var s, t := Split(v.pre, '.'), Split(o.pre, '.');
      PreParts(v);
      PreParts(o);
      PartsFollowSection11(s, t, 0, Max(|s|, |t|));
      assert s[0..] == s && t[0..] == t;
      var d := FirstDifference(s, t);
      if d.Some? {
        var i :| 0 <= i < |s| && s[i] == d.value.0;
        var j :| 0 <= j < |t| && t[j] == d.value.1;
        assert Canonical(At(s, i)) && Canonical(At(t, j));
        PartFollowsSection11(d.value.0, d.value.1);
      }
    }
  }

  // ---------------------------------------------------------------- tags ranked the wrong way

  function Nines(n: nat): string {
    Repeat('9', n)
  }

  /** The numeral of ten to the power of n. */
  function PowerOfTen(n: nat): string {
    "1" + Repeat('0', n)
  }

  /** n nines are ranked above the numeral with one digit more, from twenty digits on. */
  lemma NinesAreMisordered(n: nat)
    requires n >= 20
    ensures ComparePrePart(Nines(n), PowerOfTen(n)) == 1 && Section11Part(Nines(n), PowerOfTen(n)) == -1
    ensures Numeral(Nines(n)) && Numeral(PowerOfTen(n)) && Nines(n) != PowerOfTen(n)
  {
    var nines, power := Nines(n), PowerOfTen(n);
    assert nines[0] == '9' && power[0] == '1';
    ValueBounds(nines);
    ValueBounds(power);
    NinesBound(n);
    Pow10OfTwenty();
    Pow10Monotone(20, n);
    LongerIsLarger(nines, power);
    LexTotal(nines, power);
  }

  lemma {:induction false} NinesBound(n: nat)
    ensures AllDigits(Nines(n)) && Value(Nines(n)) == Pow10(n) - 1
  {
    if n > 0 {
      NinesBound(n - 1);
      RepeatSnoc('9', n);
    }
  }

  lemma RepeatSnoc(c: char, n: nat)
    requires n > 0
    ensures Repeat(c, n)[..n - 1] == Repeat(c, n - 1) && Repeat(c, n)[n - 1] == c
  {
  }

  /** A run of digits without leading zeros. */
  ghost predicate Numeral(s: string) {
    s != "" && AllDigits(s) && !LeadingZero(s)
  }

  function Tagged(identifier: string): string {
    "1.0.0-" + identifier
  }

  /** A tag with one canonical identifier as pre-release parses, and that is its pre-release. */
  lemma TagParses(identifier: string)
    requires Numeral(identifier)
    ensures ParseVersion(Tagged(identifier)) == Some(Version(1, 0, 0, identifier, "", Tagged(identifier)))
    ensures Split(identifier, '.') == [identifier]
  {
    var v := Version(1, 0, 0, identifier, "", Tagged(identifier));
    DigitsHaveNoMarks(identifier);
    SplitOne(identifier, '.');
    assert Decimal(1) == "1" && Decimal(0) == "0";
    assert String(v) == Tagged(identifier);
    assert Tagged(identifier)[0] == '1';
    PrintedVersionParses(v, Tagged(identifier));
  }

  /** Such tags parse, and are ranked against section 11. */
  lemma OversizedNumbersAreMisordered(n: nat)
    requires n >= 20
    ensures var s, t := ParseVersion(Tagged(Nines(n))), ParseVersion(Tagged(PowerOfTen(n)));
            && s.Some? && t.Some?
            && Compare(s.value, t.value) == 1 && Section11(s.value, t.value) == -1
            && DecidedByOversized(s.value, t.value)
  {
    hide ParseVersion, Compare, Section11, DecidedByOversized, ComparePrePart, Section11Part, Nines, PowerOfTen, Numeral, Split;
    var nines, power := Nines(n), PowerOfTen(n);
    NinesAreMisordered(n);
    TagParses(nines);
    TagParses(power);
    var v, o := ParseVersion(Tagged(nines)).value, ParseVersion(Tagged(power)).value;
    OneIdentifierEach(v, o);
    ParsedText(Tagged(nines));
    ParsedText(Tagged(power));
    OrderFollowsSection11(v, o);
  }

  lemma OneIdentifierEach(v: Version, o: Version)
    requires v.major == o.major && v.minor == o.minor && v.patch == o.patch && v.pre != o.pre && v.pre != "" && o.pre != ""
    requires Split(v.pre, '.') == [v.pre] && Split(o.pre, '.') == [o.pre]
    ensures Compare(v, o) == ComparePrePart(v.pre, o.pre)
    ensures Section11(v, o) == Section11Part(v.pre, o.pre)
  {
    hide ComparePrePart, Section11Part, Split, ComparePrerelease, Section11Parts;
    OneIdentifier(v.pre, o.pre);
  }

  lemma OneIdentifier(s: string, o: string)
    requires Split(s, '.') == [s] && Split(o, '.') == [o] && s != o
    ensures ComparePrerelease(s, o) == ComparePrePart(s, o)
    ensures Section11Parts(Split(s, '.'), Split(o, '.')) == Section11Part(s, o)
  {
    PartDecides(s, o);
  }

  lemma PartDecides(s: string, o: string)
    requires s != o
    ensures ComparePrePart(s, o) != 0
    ensures CompareParts([s], [o], 0, 1) == ComparePrePart(s, o)
  {
  }
}
