/** Reading the printed command back gives the command. */
module FluxRoundTrip {
  import opened Wrappers
  import opened Strings
  import opened FluxCommand

  // ---------------------------------------------------------------- scanning

  /** Free of what separates words: blanks and newlines. */
  predicate Clean(s: string) {
    ' ' !in s && '\n' !in s
  }

  predicate EndsInBackslash(text: string) {
    text != "" && text[|text| - 1] == '\\'
  }

  /** A backslash at the end of the text does not meet a newline behind it. */
  predicate KeptApart(text: string, rest: string) {
    EndsInBackslash(text) && rest != "" ==> rest[0] != '\n'
  }

  predicate AllClean(words: seq<string>) {
    forall i :: 0 <= i < |words| ==> Clean(words[i])
  }

  function NonEmptyOf(words: seq<string>): seq<string> {
    if words == [] then [] else Finish(words[0]) + NonEmptyOf(words[1..])
  }

  lemma {:induction false} ScanWord(w: string, rest: string, acc: string)
    requires Clean(w) && KeptApart(w, rest)
    ensures Scan(w + rest, acc) == Scan(rest, acc + w)
    decreases |w|
  {
    if w == "" {
      assert w + rest == rest && acc + w == acc;
    } else {
      assert |w| > 1 ==> (w + rest)[1] == w[1];
      assert (w + rest)[0] == w[0] && (w + rest)[1..] == w[1..] + rest;
      ScanWord(w[1..], rest, acc + [w[0]]);
      assert acc + [w[0]] + w[1..] == acc + w;
    }
  }

  lemma ScanSeparator(c: char, rest: string, acc: string)
    requires Separates(c)
    ensures Scan([c] + rest, acc) == Finish(acc) + Scan(rest, "")
  {
    assert ([c] + rest)[1..] == rest;
  }

  lemma ScanJoin(rest: string, acc: string)
    ensures Scan("\\\n" + rest, acc) == Scan(rest, acc)
  {
    assert ("\\\n" + rest)[2..] == rest;
  }

  /** A line yields its non-empty words, of which the last is still being read. */
  lemma {:induction false} ScanLine(words: seq<string>, rest: string)
    requires words != [] && AllClean(words) && KeptApart(words[|words| - 1], rest)
    ensures var k := |words| - 1;
            Scan(Join(words, ' ') + rest, "") == NonEmptyOf(words[..k]) + Scan(rest, words[k])
    decreases |words|
  {
    var w, k := words[0], |words| - 1;
    assert "" + w == w;
    if |words| == 1 {
      hide Scan;
      ScanWord(w, rest, "");
    } else {
      var more := words[1..];
      var tail := Join(more, ' ') + rest;
      assert Join(words, ' ') + rest == w + ([' '] + tail);
      assert NonEmptyOf(words[..k]) == Finish(w) + NonEmptyOf(more[..k - 1]) by {
        assert words[..k][1..] == more[..k - 1];
      }
      assert KeptApart(w, [' '] + tail) && AllClean(more) && more[k - 1] == words[k];
      hide Scan, Join, NonEmptyOf, KeptApart, Clean, Finish, EndsInBackslash;
      ScanWord(w, [' '] + tail, "");
      ScanSeparator(' ', tail, w);
      ScanLine(more, rest);
      Regroup(Finish(w), NonEmptyOf(more[..k - 1]), Scan(rest, words[k]));
    }
  }

  lemma Regroup(a: seq<string>, b: seq<string>, c: seq<string>)
    ensures a + (b + c) == a + b + c
  {
  }

  lemma ScanIndented(words: seq<string>, i: nat, rest: string)
    requires words != [] && AllClean(words) && KeptApart(words[|words| - 1], rest)
    ensures var k := |words| - 1;
            Scan(LineText(words, i) + rest, "") == NonEmptyOf(words[..k]) + Scan(rest, words[k])
  {
    hide Scan, Join;
    ScanLine(words, rest);
    var line := Join(words, ' ');
    if i == 0 {
      assert LineText(words, i) == line;
    } else {
      ScanIndent(line, rest);
    }
  }

  /** A line followed by a separator yields its non-empty words. */
  lemma ScanSeparated(words: seq<string>, i: nat, c: char, rest: string)
    requires words != [] && AllClean(words) && Separates(c)
    requires c == '\n' ==> !EndsInBackslash(words[|words| - 1])
    ensures Scan(LineText(words, i) + ([c] + rest), "") == NonEmptyOf(words) + Scan(rest, "")
  {
    var k := |words| - 1;
    var before, w := words[..k], words[k];
    assert KeptApart(w, [c] + rest);
    assert words == before + [w];
    hide Scan, LineText, NonEmptyOf, Finish, Clean, KeptApart, EndsInBackslash, Separates;
    ScanIndented(words, i, [c] + rest);
    ScanSeparator(c, rest, w);
    NonEmptySnoc(before, w);
    Regroup(NonEmptyOf(before), Finish(w), Scan(rest, ""));
  }

  lemma NonEmptySnoc(words: seq<string>, w: string)
    ensures NonEmptyOf(words + [w]) == NonEmptyOf(words) + Finish(w)
  {
    NonEmptyConcat(words, [w]);
  }

  lemma ScanIndent(line: string, rest: string)
    ensures Scan((INDENT + line) + rest, "") == Scan(line + rest, "")
  {
    assert (INDENT + line) + rest == [' '] + ([' '] + (line + rest));
    ScanSeparator(' ', [' '] + (line + rest), "");
    ScanSeparator(' ', line + rest, "");
  }

  function Flat(lines: seq<seq<string>>): seq<string> {
    if lines == [] then [] else Flat(lines[..|lines| - 1]) + lines[|lines| - 1]
  }

  lemma {:induction false} NonEmptyConcat(a: seq<string>, b: seq<string>)
    ensures NonEmptyOf(a + b) == NonEmptyOf(a) + NonEmptyOf(b)
  {
    if a == [] {
      assert a + b == b;
    } else {
      assert (a + b)[1..] == a[1..] + b;
      NonEmptyConcat(a[1..], b);
    }
  }

  predicate LinesClean(lines: seq<seq<string>>) {
    NoEmptyLine(lines) && forall i :: 0 <= i < |lines| ==> AllClean(lines[i])
  }

  lemma ContinuedSplits(before: string, line: string, rest: string)
    ensures before + line + CONTINUATION + rest == before + (line + ([' '] + ("\\\n" + rest)))
  {
    assert CONTINUATION + rest == [' '] + ("\\\n" + rest);
    assert before + line + CONTINUATION + rest == before + (line + (CONTINUATION + rest));
  }

  lemma {:induction false} ScanContinued(lines: seq<seq<string>>, rest: string)
    requires LinesClean(lines)
    ensures Scan(Continued(lines) + rest, "") == NonEmptyOf(Flat(lines)) + Scan(rest, "")
    decreases |lines|
  {
    if lines == [] {
      assert Continued(lines) + rest == rest;
    } else {
      var n := |lines| - 1;
      var tail := LineText(lines[n], n) + ([' '] + ("\\\n" + rest));
      hide Scan, LineText, Clean;
      ContinuedSplits(Continued(lines[..n]), LineText(lines[n], n), rest);
      ScanContinued(lines[..n], tail);
      ScanSeparated(lines[n], n, ' ', "\\\n" + rest);
      ScanJoin(rest, "");
      NonEmptyConcat(Flat(lines[..n]), lines[n]);
    }
  }

  lemma RenderSplits(before: string, line: string)
    ensures before + line + "\n" == before + (line + (['\n'] + ""))
    ensures Scan("", "") == []
  {
  }

  /** The words read from rendered lines are the non-empty words of the lines. */
  lemma WordsOfRender(lines: seq<seq<string>>)
    requires lines != [] && LinesClean(lines)
    requires var last := lines[|lines| - 1]; !EndsInBackslash(last[|last| - 1])
    ensures Words(Render(lines)) == NonEmptyOf(Flat(lines))
  {
    var n := |lines| - 1;
    var tail := LineText(lines[n], n) + (['\n'] + "");
    RenderSplits(Continued(lines[..n]), LineText(lines[n], n));
    hide Scan, Continued, LineText, Clean;
    ScanContinued(lines[..n], tail);
    ScanSeparated(lines[n], n, '\n', "");
    NonEmptyConcat(Flat(lines[..n]), lines[n]);
  }

  /** A backslash at the end of the last word is lost: it joins the text with nothing. */
  lemma WordsOfEscaped(lines: seq<seq<string>>)
    requires lines != [] && LinesClean(lines)
    requires var last := lines[|lines| - 1]; EndsInBackslash(last[|last| - 1])
    ensures var last := lines[|lines| - 1];
            var k, w := |last| - 1, last[|last| - 1];
            Words(Render(lines)) == NonEmptyOf(Flat(lines[..|lines| - 1]) + last[..k] + [w[..|w| - 1]])
  {
    var n := |lines| - 1;
    var last := lines[n];
    var k := |last| - 1;
    var w := last[k];
    var cut := last[k := w[..|w| - 1]];
    var tail := LineText(cut, n) + "\\\n";
    LineTextCut(last, n);
    RenderSplits(Continued(lines[..n]), LineText(last, n));
    assert LineText(last, n) + (['\n'] + "") == tail;
    hide Scan, Continued, LineText;
    ScanContinued(lines[..n], tail);
    ScanIndented(cut, n, "\\\n");
    assert "\\\n" + "" == "\\\n";
    ScanJoin("", cut[k]);
    ScanNothing(cut[k]);
    hide NonEmptyOf, Flat;
    NonEmptyConcat(Flat(lines[..n]), cut[..k]);
    NonEmptySnoc(Flat(lines[..n]) + cut[..k], cut[k]);
  }

  lemma ScanNothing(acc: string)
    ensures Scan("", acc) == Finish(acc)
  {
  }

  /** A line without the backslash at its end. */
  lemma LineTextCut(words: seq<string>, i: nat)
    requires words != [] && EndsInBackslash(words[|words| - 1])
    ensures var k := |words| - 1;
            LineText(words, i) == LineText(words[k := words[k][..|words[k]| - 1]], i) + "\\"
  {
    JoinCut(words);
  }

  lemma {:induction false} JoinCut(words: seq<string>)
    requires words != [] && EndsInBackslash(words[|words| - 1])
    ensures var k := |words| - 1;
            Join(words, ' ') == Join(words[k := words[k][..|words[k]| - 1]], ' ') + "\\"
    decreases |words|
  {
    var k := |words| - 1;
    var cut := words[k := words[k][..|words[k]| - 1]];
    if |words| > 1 {
      JoinCut(words[1..]);
      assert cut[1..] == words[1..][k - 1 := words[k][..|words[k]| - 1]];
    }
  }

  // ---------------------------------------------------------------- the words of a command

  /** The fields a command is printed from. */
  function Fields(c: Command): seq<string> {
    [c.release, c.version, c.namespace] +
    (match c.target case InRepository(chart, url) => [chart, url] case ByReference(reference) => [reference]) +
    (match c.values case ValuesFile => [] case SetValues(values) => values)
  }

  function TargetWords(c: Command): seq<string> {
    match c.target
    case InRepository(chart, url) => [chart, "--repo", url]
    case ByReference(reference) => [reference]
  }

  function NamespaceWords(c: Command): seq<string> {
    if c.namespace == "" then [] else ["--namespace", c.namespace, "--create-namespace"]
  }

  function SetWords(values: seq<string>): seq<string> {
    if values == [] then [] else SetWords(values[..|values| - 1]) + ["--set", values[|values| - 1]]
  }

  function ValueWords(c: Command): seq<string> {
    match c.values
    case ValuesFile => ["--values=values.yaml"]
    case SetValues(values) => SetWords(values)
  }

  /** The words after the target. */
  function TailWords(c: Command): seq<string> {
    VersionWords(c.version) + (NamespaceWords(c) + (WAIT_WORDS + ValueWords(c)))
  }

  /** All words of a command, in order. */
  function CommandWords(c: Command): seq<string> {
    ["helm", "upgrade", "--install", c.release] + TargetWords(c) + TailWords(c)
  }

  lemma {:induction false} FlatConcat(a: seq<seq<string>>, b: seq<seq<string>>)
    ensures Flat(a + b) == Flat(a) + Flat(b)
    decreases |b|
  {
    if b == [] {
      assert a + b == a;
    } else {
      var n := |b| - 1;
      assert (a + b)[..|a + b| - 1] == a + b[..n];
      FlatConcat(a, b[..n]);
    }
  }

  lemma FlatOne(words: seq<string>)
    ensures Flat([words]) == words
  {
    assert [words][..0] == [];
  }

  lemma FlatNone()
    ensures Flat([]) == []
  {
  }

  lemma {:induction false} FlatSets(values: seq<string>)
    ensures Flat(SetLines(values)) == SetWords(values)
  {
    if values != [] {
      var n := |values| - 1;
      FlatSets(values[..n]);
      FlatConcat(SetLines(values[..n]), [["--set", values[n]]]);
      FlatOne(["--set", values[n]]);
    }
  }

  lemma FlatHead(c: Command)
    ensures Flat(HeadLines(c)) == ["helm", "upgrade", "--install", c.release] + TargetWords(c) + VersionWords(c.version)
  {
    match c.target
    case InRepository(chart, url) =>
      var first, second := ["helm", "upgrade", "--install", c.release, chart], ["--repo", url] + VersionWords(c.version);
      assert HeadLines(c) == [first] + [second];
      FlatConcat([first], [second]);
      FlatOne(first);
      FlatOne(second);
    case ByReference(reference) =>
      FlatOne(["helm", "upgrade", "--install", c.release, reference] + VersionWords(c.version));
  }

  lemma Reassociate<T>(a: seq<T>, b: seq<T>, c: seq<T>, d: seq<T>, e: seq<T>)
    ensures a + b + c + d + e == a + (b + (c + (d + e)))
  {
  }

  lemma FlatLines(c: Command)
    ensures Flat(Lines(c)) == CommandWords(c)
  {
    hide Flat, HeadLines, SetWords, SetLines, TargetWords;
    Reassociate(["helm", "upgrade", "--install", c.release] + TargetWords(c), VersionWords(c.version),
                NamespaceWords(c), WAIT_WORDS, ValueWords(c));
    FlatHead(c);
    FlatConcat(HeadLines(c), NamespaceLines(c));
    FlatConcat(HeadLines(c) + NamespaceLines(c), [WAIT_WORDS]);
    FlatConcat(HeadLines(c) + NamespaceLines(c) + [WAIT_WORDS], ValueLines(c));
    FlatOne(WAIT_WORDS);
    if c.namespace != "" {
      FlatOne(["--namespace", c.namespace, "--create-namespace"]);
    } else {
      FlatNone();
    }
    match c.values
    case ValuesFile => FlatOne(["--values=values.yaml"]);
    case SetValues(values) => FlatSets(values);
  }

  lemma {:induction false} SetLinesClean(values: seq<string>)
    requires AllClean(values)
    ensures LinesClean(SetLines(values))
  {
    if values != [] {
      SetLinesClean(values[..|values| - 1]);
      FlagsAreClean();
    }
  }

  lemma FlagsAreClean()
    ensures Clean("helm") && Clean("upgrade") && Clean("--install") && Clean("--repo") && Clean("--version")
    ensures Clean("--namespace") && Clean("--create-namespace") && Clean("--set") && Clean("--values=values.yaml")
    ensures AllClean(WAIT_WORDS)
  {
    LongFlagsAreClean();
    WaitWordsAreClean();
  }

  lemma LongFlagsAreClean()
    ensures Clean("--namespace") && Clean("--create-namespace") && Clean("--values=values.yaml")
  {
    CreateFlagIsClean();
    ValuesFlagIsClean();
  }

  lemma CreateFlagIsClean()
    ensures Clean("--create-namespace")
  {
  }

  lemma ValuesFlagIsClean()
    ensures Clean("--values=values.yaml")
  {
  }

  lemma WaitWordsAreClean()
    ensures AllClean(WAIT_WORDS)
  {
    assert Clean("--wait") && Clean("--debug") && Clean("--burst-limit=1000");
  }

  lemma LinesAreClean(c: Command)
    requires AllClean(Fields(c))
    ensures Lines(c) != [] && LinesClean(Lines(c))
  {
    FlagsAreClean();
    FieldsClean(c);
    LinesShape(c);
    if c.values.SetValues? {
      SetLinesClean(c.values.values);
    }
  }

  lemma FieldsClean(c: Command)
    requires AllClean(Fields(c))
    ensures Clean(c.release) && Clean(c.version) && Clean(c.namespace)
    ensures match c.target
            case InRepository(chart, url) => Clean(chart) && Clean(url)
            case ByReference(reference) => Clean(reference)
    ensures c.values.SetValues? ==> AllClean(c.values.values)
  {
    var f := Fields(c);
    assert f[0] == c.release && f[1] == c.version && f[2] == c.namespace;
    match c.target {
      case InRepository(chart, url) => assert f[3] == chart && f[4] == url;
      case ByReference(reference) => assert f[3] == reference;
    }
    if c.values.SetValues? {
      var k := |f| - |c.values.values|;
      assert f[k..] == c.values.values;
      forall i | 0 <= i < |c.values.values| ensures Clean(c.values.values[i]) {
        assert f[k + i] == c.values.values[i];
      }
    }
  }

  // ---------------------------------------------------------------- reading the words

  /** Nothing that must be a word is empty; version and namespace may be. */
  predicate Complete(c: Command) {
    && c.release != ""
    && (match c.target
        case InRepository(chart, url) => chart != "" && url != ""
        case ByReference(reference) => reference != "")
    && (c.values.SetValues? ==> forall i :: 0 <= i < |c.values.values| ==> c.values.values[i] != "")
  }

  predicate NoneEmpty(words: seq<string>) {
    forall i :: 0 <= i < |words| ==> words[i] != ""
  }

  lemma {:induction false} NonEmptyIsIdentity(words: seq<string>)
    requires NoneEmpty(words)
    ensures NonEmptyOf(words) == words
  {
    if words != [] {
      NonEmptyIsIdentity(words[1..]);
      assert words == [words[0]] + words[1..];
    }
  }

  lemma {:induction false} SetWordsNoneEmpty(values: seq<string>)
    requires NoneEmpty(values)
    ensures NoneEmpty(SetWords(values))
  {
    if values != [] {
      SetWordsNoneEmpty(values[..|values| - 1]);
    }
  }

  lemma NoneEmptyConcat(a: seq<string>, b: seq<string>)
    requires NoneEmpty(a) && NoneEmpty(b)
    ensures NoneEmpty(a + b)
  {
  }

  lemma CompleteWords(c: Command)
    requires Complete(c)
    ensures NoneEmpty(CommandWords(c))
  {
    if c.values.SetValues? {
      SetWordsNoneEmpty(c.values.values);
    }
    assert NoneEmpty(ValueWords(c)) && NoneEmpty(WAIT_WORDS) && NoneEmpty(NamespaceWords(c));
    assert NoneEmpty(VersionWords(c.version)) && NoneEmpty(TargetWords(c));
    var start := ["helm", "upgrade", "--install", c.release];
    assert NoneEmpty(start);
    hide NoneEmpty, ValueWords, NamespaceWords, TargetWords, VersionWords;
    NoneEmptyConcat(WAIT_WORDS, ValueWords(c));
    NoneEmptyConcat(NamespaceWords(c), WAIT_WORDS + ValueWords(c));
    NoneEmptyConcat(VersionWords(c.version), NamespaceWords(c) + (WAIT_WORDS + ValueWords(c)));
    NoneEmptyConcat(start, TargetWords(c));
    NoneEmptyConcat(start + TargetWords(c), VersionWords(c.version) + (NamespaceWords(c) + (WAIT_WORDS + ValueWords(c))));
  }

  lemma {:induction false} ReadSetWords(values: seq<string>)
    ensures ReadSets(SetWords(values)) == Some(values)
    ensures |SetWords(values)| == 2 * |values|
  {
    if values != [] {
      var n := |values| - 1;
      ReadSetWords(values[..n]);
      var ws := SetWords(values);
      assert ws[..|ws| - 2] == SetWords(values[..n]);
      assert values == values[..n] + [values[n]];
    }
  }

  lemma ReadValueWords(c: Command)
    ensures ReadValues(ValueWords(c)) == Some(c.values)
  {
    if c.values.SetValues? {
      ReadSetWords(c.values.values);
      assert |ValueWords(c)| != 1;
    }
  }

  /** The flags that may come next are told apart. */
  lemma FlagsDiffer()
    ensures "--repo" != "--version" && "--repo" != "--namespace" && "--repo" != "--wait"
    ensures "--version" != "--namespace" && "--version" != "--wait" && "--namespace" != "--wait"
  {
    assert "--repo"[2] == 'r' && "--version"[2] == 'v' && "--namespace"[2] == 'n' && "--wait"[2] == 'w';
  }

  lemma ReadNamespaceWords(c: Command, rest: seq<string>)
    requires |rest| >= 3 && rest[0] == "--wait"
    ensures ReadNamespace(NamespaceWords(c) + rest) == (c.namespace, rest)
  {
    FlagsDiffer();
    var ws := NamespaceWords(c) + rest;
    if c.namespace != "" {
      assert ws[3..] == rest;
    } else {
      assert ws == rest;
    }
  }

  lemma ReadVersionWords(version: string, rest: seq<string>)
    requires rest != [] && (rest[0] == "--namespace" || rest[0] == "--wait")
    ensures ReadFlag(VersionWords(version) + rest, "--version") == (version, rest)
  {
    FlagsDiffer();
    var ws := VersionWords(version) + rest;
    if version != "" {
      assert ws[2..] == rest;
    } else {
      assert ws == rest;
    }
  }

  lemma ReadTailWords(c: Command)
    ensures ReadTail(c.release, c.target, TailWords(c)) == Some(c)
    ensures TailWords(c) != [] && TailWords(c)[0] != "--repo"
  {
    FlagsDiffer();
    var waited := WAIT_WORDS + ValueWords(c);
    var spaced := NamespaceWords(c) + waited;
    assert waited[0] == "--wait" && waited[..3] == WAIT_WORDS && waited[3..] == ValueWords(c);
    assert spaced[0] == "--namespace" || spaced[0] == "--wait";
    ReadValueWords(c);
    ReadNamespaceWords(c, waited);
    ReadVersionWords(c.version, spaced);
  }

  lemma ReadHead(release: string, chart: string, rest: seq<string>)
    ensures var (url, after) := ReadFlag(rest, "--repo");
            ReadCommand(["helm", "upgrade", "--install", release] + ([chart] + rest)) ==
            ReadTail(release, if url == "" then ByReference(chart) else InRepository(chart, url), after)
  {
    hide ReadTail;
    var ws := ["helm", "upgrade", "--install", release] + ([chart] + rest);
    assert ws[..3] == ["helm", "upgrade", "--install"] && ws[3] == release && ws[4] == chart && ws[5..] == rest;
  }

  /** The words of a complete command read back as the command. */
  lemma ReadCommandWords(c: Command)
    requires Complete(c)
    ensures ReadCommand(CommandWords(c)) == Some(c)
  {
    hide ReadTail, ReadCommand;
    var start, tail := ["helm", "upgrade", "--install", c.release], TailWords(c);
    ReadTailWords(c);
    hide TailWords;
    match c.target
    case InRepository(chart, url) =>
      assert start + [chart, "--repo", url] + tail == start + ([chart] + (["--repo", url] + tail));
      assert (["--repo", url] + tail)[2..] == tail;
      ReadHead(c.release, chart, ["--repo", url] + tail);
    case ByReference(reference) =>
      assert start + [reference] + tail == start + ([reference] + tail);
      ReadHead(c.release, reference, tail);
  }

  /** What is read back from non-empty words has just these words. */
  lemma ReadIsPrinted(ws: seq<string>)
    requires NoneEmpty(ws) && ReadCommand(ws).Some?
    ensures ws == CommandWords(ReadCommand(ws).value)
  {
    var c := ReadCommand(ws).value;
    var (url, afterRepo) := ReadFlag(ws[5..], "--repo");
    assert ws == ["helm", "upgrade", "--install", c.release] + TargetWords(c) + afterRepo by {
      hide ReadTail;
      var target := if url == "" then ByReference(ws[4]) else InRepository(ws[4], url);
      TailKeepsHead(ws[3], target, afterRepo);
      assert ws == ["helm", "upgrade", "--install", ws[3]] + [ws[4]] + ws[5..];
    }
    hide ReadCommand, CommandWords;
    TailIsPrinted(c.release, c.target, afterRepo);
    assert CommandWords(c) == ["helm", "upgrade", "--install", c.release] + TargetWords(c) + TailWords(c);
  }

  lemma TailKeepsHead(release: string, target: Target, ws: seq<string>)
    ensures var c := ReadTail(release, target, ws);
            c.Some? ==> c.value.release == release && c.value.target == target
  {
  }

  lemma VersionIsPrinted(ws: seq<string>)
    requires NoneEmpty(ws)
    ensures var (version, rest) := ReadFlag(ws, "--version"); ws == VersionWords(version) + rest && NoneEmpty(rest)
  {
  }

  lemma NamespaceIsPrinted(ws: seq<string>, c: Command)
    requires NoneEmpty(ws) && c.namespace == ReadNamespace(ws).0
    ensures ws == NamespaceWords(c) + ReadNamespace(ws).1
  {
  }

  lemma TailIsPrinted(release: string, target: Target, ws: seq<string>)
    requires NoneEmpty(ws) && ReadTail(release, target, ws).Some?
    ensures ws == TailWords(ReadTail(release, target, ws).value)
  {
    var c := ReadTail(release, target, ws).value;
    var (version, afterVersion) := ReadFlag(ws, "--version");
    var (namespace, afterNamespace) := ReadNamespace(afterVersion);
    var values := afterNamespace[3..];
    assert afterNamespace == WAIT_WORDS + values;
    assert Some(c.values) == ReadValues(values);
    VersionIsPrinted(ws);
    NamespaceIsPrinted(afterVersion, c);
    ValuesArePrinted(values);
    hide ReadFlag, ReadNamespace, ReadValues, SetWords, VersionWords, NamespaceWords, NoneEmpty;
  }

  lemma ValuesArePrinted(ws: seq<string>)
    requires ReadValues(ws).Some?
    ensures match ReadValues(ws).value
            case ValuesFile => ws == ["--values=values.yaml"]
            case SetValues(values) => ws == SetWords(values)
  {
    if ws != ["--values=values.yaml"] {
      SetsArePrinted(ws);
    }
  }

  lemma {:induction false} SetsArePrinted(ws: seq<string>)
    requires ReadSets(ws).Some?
    ensures ws == SetWords(ReadSets(ws).value)
  {
    if ws != [] {
      var n := |ws| - 2;
      SetsArePrinted(ws[..n]);
      assert ws == ws[..n] + ["--set", ws[n + 1]];
    }
  }

  // ---------------------------------------------------------------- what can be a word

  predicate IsWord(w: string) {
    Clean(w) && w != ""
  }

  predicate AreWords(ws: seq<string>) {
    forall i :: 0 <= i < |ws| ==> IsWord(ws[i])
  }

  /** The scanner yields words only. */
  lemma {:induction false} ScannedAreWords(s: string, acc: string)
    requires Clean(acc)
    ensures AreWords(Scan(s, acc))
    decreases |s|
  {
    if s == "" {
    } else if s[0] == '\\' && |s| > 1 && s[1] == '\n' {
      ScannedAreWords(s[2..], acc);
    } else if Separates(s[0]) {
      ScannedAreWords(s[1..], "");
    } else {
      ScannedAreWords(s[1..], acc + [s[0]]);
    }
  }

  lemma AreWordsConcat(a: seq<string>, b: seq<string>)
    ensures AreWords(a + b) <==> AreWords(a) && AreWords(b)
  {
    hide IsWord;
    assert forall k :: 0 <= k < |a| ==> (a + b)[k] == a[k];
    assert forall k :: 0 <= k < |b| ==> (a + b)[|a| + k] == b[k];
  }

  lemma {:induction false} SetWordsAreWords(values: seq<string>)
    requires AreWords(SetWords(values))
    ensures AreWords(values)
  {
    if values != [] {
      var n := |values| - 1;
      var pair := ["--set", values[n]];
      hide IsWord;
      AreWordsConcat(SetWords(values[..n]), pair);
      assert IsWord(pair[1]);
      SetWordsAreWords(values[..n]);
      assert forall i :: 0 <= i < n ==> values[i] == values[..n][i];
    }
  }

  /** A command whose words are all words has clean fields, and nothing it needs is empty. */
  lemma FieldsOfWords(c: Command)
    requires AreWords(CommandWords(c))
    ensures AllClean(Fields(c)) && Complete(c)
  {
    var start, target, tail := ["helm", "upgrade", "--install", c.release], TargetWords(c), TailWords(c);
    AreWordsConcat(start + target, tail);
    AreWordsConcat(start, target);
    assert IsWord(start[3]);
    FieldsOfTail(c);
    match c.target {
      case InRepository(chart, url) => assert IsWord(target[0]) && IsWord(target[2]);
      case ByReference(reference) => assert IsWord(target[0]);
    }
  }

  lemma FieldsOfTail(c: Command)
    requires AreWords(TailWords(c))
    ensures Clean(c.version) && Clean(c.namespace) && (c.values.SetValues? ==> AreWords(c.values.values))
  {
    var version, namespace, values := VersionWords(c.version), NamespaceWords(c), ValueWords(c);
    AreWordsConcat(version, namespace + (WAIT_WORDS + values));
    AreWordsConcat(namespace, WAIT_WORDS + values);
    AreWordsConcat(WAIT_WORDS, values);
    if c.version != "" {
      assert IsWord(version[1]);
    }
    if c.namespace != "" {
      assert IsWord(namespace[1]);
    }
    if c.values.SetValues? {
      SetWordsAreWords(c.values.values);
    }
  }

  // ---------------------------------------------------------------- the round trip

  /** There is a last set value, and it ends in a backslash. */
  predicate LastValueEscapes(c: Command) {
    c.values.SetValues? && c.values.values != [] && EndsInBackslash(c.values.values[|c.values.values| - 1])
  }

  lemma LastLineEnds(c: Command)
    ensures Lines(c) != []
    ensures var last := Lines(c)[|Lines(c)| - 1];
            last != [] && (EndsInBackslash(last[|last| - 1]) <==> LastValueEscapes(c))
  {
    var before := HeadLines(c) + NamespaceLines(c) + [WAIT_WORDS];
    var values := ValueLines(c);
    assert !EndsInBackslash("--burst-limit=1000") && !EndsInBackslash("--values=values.yaml");
    if values == [] {
      assert Lines(c) == before && before[|before| - 1] == WAIT_WORDS;
      if c.values.SetValues? {
        SetLinesShape(c.values.values);
      }
    } else {
      assert Lines(c)[|Lines(c)| - 1] == values[|values| - 1];
    }
  }

  /** With a backslash lost at the end, other words are read than were printed. */
  lemma EscapedLinesDiffer(lines: seq<seq<string>>)
    requires lines != [] && LinesClean(lines) && NoneEmpty(Flat(lines))
    requires var last := lines[|lines| - 1]; EndsInBackslash(last[|last| - 1])
    ensures Words(Render(lines)) != Flat(lines)
  {
    var last := lines[|lines| - 1];
    var k, w := |last| - 1, last[|last| - 1];
    var before := Flat(lines[..|lines| - 1]) + last[..k];
    WordsOfEscaped(lines);
    assert Flat(lines) == before + [w] by {
      assert last == last[..k] + [w];
    }
    assert NoneEmpty(before) by {
      assert forall i :: 0 <= i < |before| ==> Flat(lines)[i] == before[i];
    }
    hide Flat, Words, Render, LinesClean, NoneEmpty, NonEmptyOf, EndsInBackslash, Finish;
    NonEmptyIsIdentity(before);
    NonEmptySnoc(before, w[..|w| - 1]);
    ShorterDiffers(before, w[..|w| - 1], w);
  }

  lemma EscapedWordsDiffer(c: Command)
    requires AllClean(Fields(c)) && Complete(c) && LastValueEscapes(c)
    ensures Lines(c) != [] && NoEmptyLine(Lines(c)) && Words(Render(Lines(c))) != CommandWords(c)
  {
    LinesAreClean(c);
    LastLineEnds(c);
    FlatLines(c);
    CompleteWords(c);
    hide Lines, Render, Words, Complete, Fields, CommandWords, Flat, LastValueEscapes, Clean;
    EscapedLinesDiffer(Lines(c));
  }

  lemma ShorterDiffers(before: seq<string>, shorter: string, w: string)
    requires |shorter| < |w|
    ensures before + Finish(shorter) != before + [w]
  {
    assert (before + [w])[|before|] == w;
  }

  /**
   Round trip: joining the continued lines of the output and reading its words gives back the
   command exactly when nothing that must be a word is empty, no field holds a blank or a newline,
   and the last set value, if there is one, does not end in a backslash. An absent version or
   namespace is read back as absent.
   */
  lemma PrintedCommandReadsBack(c: Command)
    ensures Lines(c) != [] && NoEmptyLine(Lines(c))
    ensures ReadCommand(Words(Render(Lines(c)))) == Some(c) <==>
            Complete(c) && AllClean(Fields(c)) && !LastValueEscapes(c)
  {
    hide ReadCommand, Render, Lines, Scan, CommandWords, Fields, Complete;
    LinesShape(c);
    var ws := Words(Render(Lines(c)));
    if ReadCommand(ws) == Some(c) {
      ScannedAreWords(Render(Lines(c)), "");
      ReadIsPrinted(ws);
      FieldsOfWords(c);
      if LastValueEscapes(c) {
        EscapedWordsDiffer(c);
      }
    }
    if Complete(c) && AllClean(Fields(c)) && !LastValueEscapes(c) {
      LinesAreClean(c);
      LastLineEnds(c);
      WordsOfRender(Lines(c));
      FlatLines(c);
      CompleteWords(c);
      NonEmptyIsIdentity(CommandWords(c));
      ReadCommandWords(c);
    }
  }

  /** A set value with a blank in it is printed, but not read back. */
  lemma BlankSplitsValue()
    ensures var c := Command("r", InRepository("c", "u"), "", "", SetValues(["k=a b"]));
            && Complete(c) && Lines(c) != [] && NoEmptyLine(Lines(c))
            && ReadCommand(Words(Render(Lines(c)))) != Some(c)
  {
    var c := Command("r", InRepository("c", "u"), "", "", SetValues(["k=a b"]));
    PrintedCommandReadsBack(c);
    assert c.values.values[0] == "k=a b" && "k=a b"[3] == ' ';
    assert Fields(c)[5] == "k=a b";
  }
}
