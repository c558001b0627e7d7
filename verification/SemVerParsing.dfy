/** What parsing a tag preserves: the printed version is the tag, up to a leading 'v'. */
module SemVerParsing {
  import opened Wrappers
  import opened Strings
  import opened SemVer

  /** What every parsed version satisfies and the order below relies on. */
  ghost predicate WellFormed(v: Version) {
    v.pre == "" || (Identifiers(v.pre) && ValidPrerelease(v.pre))
  }

  // ---------------------------------------------------------------- numerals

  lemma {:induction false} DecimalIsCanonical(n: nat)
    ensures Decimal(n) != "" && AllDigits(Decimal(n)) && !LeadingZero(Decimal(n))
    ensures Decimal(n)[0] == '0' ==> n == 0
    ensures Value(Decimal(n)) == n
    decreases n
  {
    if n < 10 {
      assert Decimal(n)[..0] == "";
    } else {
      DecimalIsCanonical(n / 10);
      var d := Decimal(n);
      assert d[..|d| - 1] == Decimal(n / 10);
      assert d[0] == Decimal(n / 10)[0];
    }
  }

  lemma {:induction false} ValueIsPositive(s: string)
    requires s != "" && AllDigits(s) && s[0] != '0'
    ensures Value(s) >= 1
  {
    if |s| > 1 {
      ValueIsPositive(s[..|s| - 1]);
    } else {
      assert s[..0] == "";
    }
  }

  /** A numeral without a leading zero is determined by the number it denotes. */
  lemma {:induction false} DecimalOfValue(s: string)
    requires s != "" && AllDigits(s) && !LeadingZero(s)
    ensures Decimal(Value(s)) == s
  {
    var init := s[..|s| - 1];
    if |s| == 1 {
      assert init == "" && Value(init) == 0;
    } else {
      ValueIsPositive(init);
      DecimalOfValue(init);
      assert Value(s) / 10 == Value(init);
      assert s == init + [s[|s| - 1]];
    }
  }

  // ---------------------------------------------------------------- cutting

  lemma CutGlue(s: string, c: char)
    ensures c !in Cut(s, c).0
    ensures s == Cut(s, c).0 + Marked(c, Cut(s, c).1)
  {
    IndexSpec(s, c);
  }

  lemma CutOptional(head: string, c: char, o: Option<string>)
    requires c !in head
    ensures Cut(head + Marked(c, o), c) == (head, o)
  {
    var s := head + Marked(c, o);
    assert s[..|head|] == head;
    IndexIs(s, c, |head|);
    if o.Some? {
      assert s[|head| + 1..] == o.value;
    } else {
      assert s == head;
    }
  }

  /** Cutting behind a dotted, mark-free head leaves the head in place. */
  lemma CutBehind(head: string, tail: string, c: char)
    requires c !in head && c != '.'
    ensures Cut(Dotted(head, tail), c) == (Dotted(head, Cut(tail, c).0), Cut(tail, c).1)
  {
    var s := Dotted(head, tail);
    assert s == (head + ['.']) + tail;
    IndexShift(head + ['.'], tail, c);
    var i := Index(tail, c);
    if i < |tail| {
      assert s[..|head| + 1 + i] == Dotted(head, tail[..i]);
      assert s[|head| + 1 + i + 1..] == tail[i + 1..];
    } else {
      assert Cut(tail, c) == (tail, None) && i == |tail|;
    }
  }

  lemma CutDotted(head: string, tail: string)
    requires '.' !in head
    ensures Cut(Dotted(head, tail), '.') == (head, Some(tail))
    ensures Split(Dotted(head, tail), '.') == [head] + Split(tail, '.')
  {
    var s := Dotted(head, tail);
    assert s == head + Marked('.', Some(tail));
    CutOptional(head, '.', Some(tail));
    assert s[|head| + 1..] == tail;
  }

  lemma SplitOne(s: string, c: char)
    requires c !in s
    ensures Split(s, c) == [s]
  {
    IndexNone(s, c);
  }

  lemma DigitsHaveNoMarks(s: string)
    requires AllDigits(s)
    ensures '.' !in s && '-' !in s && '+' !in s
  {
  }

  lemma {:induction false} IdentifiersAreAllowed(p: string)
    requires Identifiers(p)
    ensures p != "" && '+' !in p
    decreases |p|
  {
    var i := Index(p, '.');
    IndexSpec(p, '.');
    assert Split(p, '.')[0] == p[..i];
    assert p[..i] in Split(p, '.');
    if i < |p| {
      var rest := p[i + 1..];
      assert Split(p, '.') == [p[..i]] + Split(rest, '.');
      assert Identifiers(rest) by {
        hide Split;
        forall part | part in Split(rest, '.') ensures part != "" && AllAllowed(part) {
          assert part in Split(p, '.');
        }
      }
      IdentifiersAreAllowed(rest);
      assert p == p[..i] + ['.'] + p[i + 1..];
    }
  }

  // ---------------------------------------------------------------- the two parsers agree

  /** The pieces of a version text. */
  datatype Pieces = Pieces(major: string, minor: string, patch: string,
                           pre: Option<string>, metadata: Option<string>)

  function Front(p: Pieces): string {
    p.patch + Marked('-', p.pre)
  }

  function Numbers(p: Pieces): string {
    Dotted(p.major, Dotted(p.minor, p.patch))
  }

  function CoreText(p: Pieces): string {
    Dotted(p.major, Dotted(p.minor, Front(p)))
  }

  function FullText(p: Pieces): string {
    Dotted(p.major, Dotted(p.minor, Front(p) + Marked('+', p.metadata)))
  }

  ghost predicate Strict(p: Pieces) {
    StrictSegment(p.major) && StrictSegment(p.minor) && StrictSegment(p.patch) && '+' !in Front(p)
  }

  lemma StrictShape(s: string) returns (p: Pieces)
    requires StrictNewVersion(s).Some?
    ensures Strict(p) && FullText(p) == s
  {
    var (major, afterMajor) := Cut(s, '.');
    var (minor, afterMinor) := Cut(afterMajor.value, '.');
    var (front, metadata) := Cut(afterMinor.value, '+');
    var (patch, pre) := Cut(front, '-');
    CutGlue(s, '.');
    CutGlue(afterMajor.value, '.');
    CutGlue(afterMinor.value, '+');
    CutGlue(front, '-');
    p := Pieces(major, minor, patch, pre, metadata);
    assert Front(p) == front;
  }

  /** Any text of that shape is cut by the lenient parser into the same pieces. */
  lemma LenientShape(p: Pieces)
    requires Strict(p)
    ensures Cut(FullText(p), '+') == (CoreText(p), p.metadata)
    ensures Cut(CoreText(p), '-') == (Numbers(p), p.pre)
    ensures Split(Numbers(p), '.') == [p.major, p.minor, p.patch]
  {
    DigitsHaveNoMarks(p.major);
    DigitsHaveNoMarks(p.minor);
    DigitsHaveNoMarks(p.patch);
    CutOptional(Front(p), '+', p.metadata);
    CutBehind(p.minor, Front(p) + Marked('+', p.metadata), '+');
    CutBehind(p.major, Dotted(p.minor, Front(p) + Marked('+', p.metadata)), '+');
    CutOptional(p.patch, '-', p.pre);
    CutBehind(p.minor, Front(p), '-');
    CutBehind(p.major, Dotted(p.minor, Front(p)), '-');
    CutDotted(p.major, Dotted(p.minor, p.patch));
    CutDotted(p.minor, p.patch);
    SplitOne(p.patch, '.');
  }

  lemma FullTextIsCoreAndMetadata(p: Pieces)
    ensures FullText(p) == CoreText(p) + Marked('+', p.metadata)
  {
    var m := Marked('+', p.metadata);
    assert Dotted(p.minor, Front(p) + m) == Dotted(p.minor, Front(p)) + m;
    assert Dotted(p.major, Dotted(p.minor, Front(p)) + m) == Dotted(p.major, Dotted(p.minor, Front(p))) + m;
  }

  // ---------------------------------------------------------------- main results

  /**
   Parsing loses nothing but a leading 'v': printing the parsed version gives the tag back, the
   original is the tag verbatim, and the comparable core is the tag's stem.
   */
  lemma ParsedText(t: string)
    requires ParseVersion(t).Some?
    ensures ParseVersion(t).value.original == t
    ensures String(ParseVersion(t).value) == TrimPrefix(t, "v")
    ensures Core(ParseVersion(t).value) == Stem(t)
    ensures WellFormed(ParseVersion(t).value)
  {
    var p := StrictShape(TrimPrefix(t, "v"));
    ParsedFields(t, p);
    DecimalOfValue(p.major);
    DecimalOfValue(p.minor);
    DecimalOfValue(p.patch);
    FullTextIsCoreAndMetadata(p);
    var v := ParseVersion(t).value;
    hide ParseVersion, Decimal, Value, Identifiers;
    assert Core(v) == CoreText(p);
  }

  /** The fields of the parsed version are the pieces of the text. */
  lemma ParsedFields(t: string, p: Pieces)
    requires ParseVersion(t).Some? && Strict(p) && FullText(p) == TrimPrefix(t, "v")
    ensures ParseVersion(t).value ==
            Version(Value(p.major), Value(p.minor), Value(p.patch), Text(p.pre), Text(p.metadata), t)
    ensures NonEmpty(Text(p.pre)) == p.pre && NonEmpty(Text(p.metadata)) == p.metadata
    ensures Stem(t) == CoreText(p) && WellFormed(ParseVersion(t).value)
  {
    LenientShape(p);
    if p.pre.Some? {
      IdentifiersAreAllowed(p.pre.value);
    }
    if p.metadata.Some? {
      IdentifiersAreAllowed(p.metadata.value);
    }
  }

  /** The numeral of n reads back as n. */
  ghost predicate Numeral(n: nat) {
    AllDigits(Decimal(n)) && Value(Decimal(n)) == n
  }

  lemma CoreParts(v: Version)
    ensures Cut(Core(v), '.') == (Decimal(v.major), Some(Dotted(Decimal(v.minor), AfterMinor(v))))
    ensures Cut(Dotted(Decimal(v.minor), AfterMinor(v)), '.') == (Decimal(v.minor), Some(AfterMinor(v)))
    ensures Cut(AfterMinor(v), '-') == (Decimal(v.patch), NonEmpty(v.pre))
    ensures Numeral(v.major) && Numeral(v.minor) && Numeral(v.patch)
  {
    DecimalIsCanonical(v.major);
    DecimalIsCanonical(v.minor);
    DecimalIsCanonical(v.patch);
    DigitsHaveNoMarks(Decimal(v.major));
    DigitsHaveNoMarks(Decimal(v.minor));
    DigitsHaveNoMarks(Decimal(v.patch));
    CutDotted(Decimal(v.major), Dotted(Decimal(v.minor), AfterMinor(v)));
    CutDotted(Decimal(v.minor), AfterMinor(v));
    CutOptional(Decimal(v.patch), '-', NonEmpty(v.pre));
  }

  function AfterMinor(v: Version): string {
    Decimal(v.patch) + Marked('-', NonEmpty(v.pre))
  }

  /** The core determines the four fields it prints. */
  lemma CoreInjective(a: Version, b: Version)
    requires Core(a) == Core(b)
    ensures a.major == b.major && a.minor == b.minor && a.patch == b.patch && a.pre == b.pre
  {
    CoreParts(a);
    CoreParts(b);
  }

  // ---------------------------------------------------------------- what parses

  /** Numbers of 64 bits, and pre-release and metadata of admissible identifiers or none. */
  ghost predicate Printable(v: Version) {
    && v.major <= MAX_UINT64 && v.minor <= MAX_UINT64 && v.patch <= MAX_UINT64
    && WellFormed(v) && (v.metadata == "" || Identifiers(v.metadata))
  }

  function PiecesOf(v: Version): Pieces {
    Pieces(Decimal(v.major), Decimal(v.minor), Decimal(v.patch), NonEmpty(v.pre), NonEmpty(v.metadata))
  }

  lemma PrintableIsStrict(v: Version)
    requires Printable(v)
    ensures Strict(PiecesOf(v)) && FullText(PiecesOf(v)) == String(v)
    ensures ParseUint(Decimal(v.major)) == Some(v.major) && ParseUint(Decimal(v.minor)) == Some(v.minor)
    ensures ParseUint(Decimal(v.patch)) == Some(v.patch)
  {
    var p := PiecesOf(v);
    DecimalIsCanonical(v.major);
    DecimalIsCanonical(v.minor);
    DecimalIsCanonical(v.patch);
    DigitsHaveNoMarks(p.patch);
    if v.pre != "" {
      IdentifiersAreAllowed(v.pre);
    }
    hide Decimal, Value, Identifiers;
    FullTextIsCoreAndMetadata(p);
    assert CoreText(p) == Core(v);
  }

  /** The strict parser cuts a text of its shape into the pieces it was made of. */
  lemma StrictCuts(p: Pieces)
    requires Strict(p)
    ensures Cut(FullText(p), '.') == (p.major, Some(Dotted(p.minor, Front(p) + Marked('+', p.metadata))))
    ensures Cut(Dotted(p.minor, Front(p) + Marked('+', p.metadata)), '.')
         == (p.minor, Some(Front(p) + Marked('+', p.metadata)))
    ensures Cut(Front(p) + Marked('+', p.metadata), '+') == (Front(p), p.metadata)
    ensures Cut(Front(p), '-') == (p.patch, p.pre)
  {
    DigitsHaveNoMarks(p.major);
    DigitsHaveNoMarks(p.minor);
    DigitsHaveNoMarks(p.patch);
    CutDotted(p.major, Dotted(p.minor, Front(p) + Marked('+', p.metadata)));
    CutDotted(p.minor, Front(p) + Marked('+', p.metadata));
    CutOptional(Front(p), '+', p.metadata);
    CutOptional(p.patch, '-', p.pre);
  }

  lemma PrintedIsStrict(v: Version)
    requires Printable(v)
    ensures StrictNewVersion(String(v)).Some?
  {
    PrintableIsStrict(v);
    StrictCuts(PiecesOf(v));
    MetadataIsValid(v);
    hide Cut, Decimal, Value, Identifiers, ValidPrerelease, ValidMetadata, FullText, Front;
  }

  lemma PrintedIsLenient(v: Version, t: string)
    requires Printable(v) && TrimPrefix(t, "v") == String(v)
    ensures NewVersion(t) == Some(v.(original := t))
  {
    PrintableIsStrict(v);
    LenientShape(PiecesOf(v));
    MetadataIsValid(v);
    hide Cut, Split, Decimal, Value, Identifiers, ValidPrerelease, ValidMetadata, FullText, CoreText, Numbers, String;
  }

  /**
   A tag parses exactly when, less a leading 'v', it is the text of a printable version, and that
   version, with the tag as its original, is what it parses to.
   */
  lemma PrintedVersionParses(v: Version, t: string)
    requires Printable(v) && TrimPrefix(t, "v") == String(v)
    ensures ParseVersion(t) == Some(v.(original := t))
  {
    PrintedIsStrict(v);
    PrintedIsLenient(v, t);
    hide StrictNewVersion, NewVersion, String, Printable;
  }

  lemma ParsedIsPrintable(t: string)
    requires ParseVersion(t).Some?
    ensures Printable(ParseVersion(t).value)
  {
    var p := StrictShape(TrimPrefix(t, "v"));
    ParsedFields(t, p);
    LenientShape(p);
    hide Cut, Split, Value, Identifiers, ValidPrerelease, StrictNewVersion, FullText, CoreText, Numbers;
  }

  lemma ParsesExactlyPrinted(t: string)
    ensures ParseVersion(t).Some? <==> exists v :: Printable(v) && String(v) == TrimPrefix(t, "v")
  {
    hide ParseVersion, Printable, String;
    if ParseVersion(t).Some? {
      ParsedText(t);
      ParsedIsPrintable(t);
    }
    forall v | Printable(v) && String(v) == TrimPrefix(t, "v")
      ensures ParseVersion(t).Some?
    {
      PrintedVersionParses(v, t);
    }
  }

  /** With a leading 'v' and without, the text of a printable version parses to that version. */
  lemma LeadingVMakesNoDifference(v: Version)
    requires Printable(v)
    ensures ParseVersion(String(v)) == Some(v.(original := String(v)))
    ensures ParseVersion("v" + String(v)) == Some(v.(original := "v" + String(v)))
  {
    hide ParseVersion, Printable;
    DecimalIsCanonical(v.major);
    assert String(v)[0] == Decimal(v.major)[0] && "v"[0] == 'v';
    assert forall rest :: String(v) != "v" + rest by {
      forall rest ensures String(v) != "v" + rest {
        assert ("v" + rest)[0] == 'v';
      }
    }
    hide String, Decimal;
    TrimPrefixMeans(String(v), "v");
    TrimPrefixMeans("v" + String(v), "v");
    PrintedVersionParses(v, String(v));
    PrintedVersionParses(v, "v" + String(v));
  }

  const DIGITS := "0123456789"
  const CAPITALS := "ABCDEFGHIJKLMNOPQRSTUVWXYZ"
  const LETTERS := "abcdefghijklmnopqrstuvwxyz"
  const ALPHABET := DIGITS + CAPITALS + LETTERS + "-"

  ghost predicate Over(s: string, alphabet: string) {
    s != "" && forall i :: 0 <= i < |s| ==> s[i] in alphabet
  }

  /** A pre-release identifier: no number with leading zeros, else any text over the alphabet. */
  ghost predicate PrereleaseIdentifier(s: string) {
    Over(s, ALPHABET) && !(Over(s, DIGITS) && |s| > 1 && s[0] == '0')
  }

  lemma Digits(c: char)
    ensures IsDigit(c) <==> c in DIGITS
  {
    if IsDigit(c) {
      assert DIGITS[c as int - '0' as int] == c;
    }
  }

  lemma Capitals(c: char)
    ensures 'A' <= c <= 'Z' <==> c in CAPITALS
  {
    if 'A' <= c <= 'Z' {
      assert CAPITALS[c as int - 'A' as int] == c;
    }
  }

  lemma Letters(c: char)
    ensures 'a' <= c <= 'z' <==> c in LETTERS
  {
    if 'a' <= c <= 'z' {
      assert LETTERS[c as int - 'a' as int] == c;
    }
  }

  lemma Characters(c: char)
    ensures IsDigit(c) <==> c in DIGITS
    ensures IsAllowed(c) <==> c in ALPHABET
  {
    Digits(c);
    Capitals(c);
    Letters(c);
    var digits, capitals, letters := DIGITS, CAPITALS, LETTERS;
    assert c in digits + capitals + letters + "-" <==> c in digits || c in capitals || c in letters || c == '-';
  }

  lemma PrereleaseMeans(p: string)
    ensures Identifiers(p) && ValidPrerelease(p) <==> forall part :: part in Split(p, '.') ==> PrereleaseIdentifier(part)
  {
    forall part | part in Split(p, '.')
      ensures part != "" && AllAllowed(part) && (if AllDigits(part) then !LeadingZero(part) else AllAllowed(part))
              <==> PrereleaseIdentifier(part)
    {
      IdentifierMeans(part);
    }
    hide Split, AllDigits, AllAllowed, LeadingZero, Over, PrereleaseIdentifier;
  }

  lemma MetadataMeans(m: string)
    ensures Identifiers(m) <==> forall part :: part in Split(m, '.') ==> Over(part, ALPHABET)
  {
    forall part | part in Split(m, '.') ensures part != "" && AllAllowed(part) <==> Over(part, ALPHABET) {
      IdentifierMeans(part);
    }
    hide Split, AllAllowed, Over;
  }

  /** What can be printed and parsed, in terms of characters: numbers of 64 bits and lists of identifiers. */
  lemma PrintableMeans(v: Version)
    ensures Printable(v) <==>
            && v.major < 0x1_0000_0000_0000_0000 && v.minor < 0x1_0000_0000_0000_0000 && v.patch < 0x1_0000_0000_0000_0000
            && (v.pre == "" || forall part :: part in Split(v.pre, '.') ==> PrereleaseIdentifier(part))
            && (v.metadata == "" || forall part :: part in Split(v.metadata, '.') ==> Over(part, ALPHABET))
  {
    PrereleaseMeans(v.pre);
    MetadataMeans(v.metadata);
    hide Identifiers, ValidPrerelease, Split, PrereleaseIdentifier, Over;
  }

  lemma IdentifierMeans(part: string)
    ensures part != "" && AllAllowed(part) <==> Over(part, ALPHABET)
    ensures part != "" && AllDigits(part) <==> Over(part, DIGITS)
  {
    forall i | 0 <= i < |part| ensures IsDigit(part[i]) <==> part[i] in DIGITS
      ensures IsAllowed(part[i]) <==> part[i] in ALPHABET
    {
      Characters(part[i]);
    }
  }

  lemma MetadataIsValid(v: Version)
    requires Printable(v)
    ensures v.metadata != "" ==> ValidMetadata(v.metadata)
    ensures v.pre != "" ==> Identifiers(v.pre) && ValidPrerelease(v.pre)
  {
  }
}
