/** The helm command that the Flux printer writes, as text and read back from the text. */
module FluxCommand {
  import opened Wrappers
  import opened Strings

  const INDENT := "  "
  const CONTINUATION := " \\\n"

  /** A chart in a repository, or a chart by its OCI reference. */
  datatype Target = InRepository(chart: string, repoURL: string) | ByReference(reference: string)

  datatype Values = ValuesFile | SetValues(values: seq<string>)

  /** version and namespace are empty when not given. */
  datatype Command = Command(
    release: string, target: Target, version: string, namespace: string, values: Values)

  // ---------------------------------------------------------------- the text

  function VersionWords(version: string): seq<string> {
    if version == "" then [] else ["--version", version]
  }

  /** The first line, or the first two for a chart in a repository, as words. */
  function HeadLines(c: Command): seq<seq<string>> {
    match c.target
    case InRepository(chart, url) =>
      [["helm", "upgrade", "--install", c.release, chart], ["--repo", url] + VersionWords(c.version)]
    case ByReference(reference) =>
      [["helm", "upgrade", "--install", c.release, reference] + VersionWords(c.version)]
  }

  function NamespaceLines(c: Command): seq<seq<string>> {
    if c.namespace == "" then [] else [["--namespace", c.namespace, "--create-namespace"]]
  }

  const WAIT_WORDS := ["--wait", "--debug", "--burst-limit=1000"]

  function SetLines(values: seq<string>): seq<seq<string>> {
    if values == [] then [] else SetLines(values[..|values| - 1]) + [["--set", values[|values| - 1]]]
  }

  function ValueLines(c: Command): seq<seq<string>> {
    match c.values
    case ValuesFile => [["--values=values.yaml"]]
    case SetValues(values) => SetLines(values)
  }

  function Lines(c: Command): seq<seq<string>> {
    HeadLines(c) + NamespaceLines(c) + [WAIT_WORDS] + ValueLines(c)
  }

  /** Line i of a command: its words, indented after the first line. */
  function LineText(words: seq<string>, i: nat): string
    requires words != []
  {
    (if i == 0 then "" else INDENT) + Join(words, ' ')
  }

  predicate NoEmptyLine(lines: seq<seq<string>>) {
    forall i :: 0 <= i < |lines| ==> lines[i] != []
  }

  /** Every line with a continuation behind it, as the buffer holds it while it grows. */
  function Continued(lines: seq<seq<string>>): string
    requires NoEmptyLine(lines)
  {
    if lines == [] then ""
    else
      var n := |lines| - 1;
      Continued(lines[..n]) + LineText(lines[n], n) + CONTINUATION
  }

  /** All lines but the last continued, the last ended by a newline. */
  function Render(lines: seq<seq<string>>): string
    requires lines != [] && NoEmptyLine(lines)
  {
    var n := |lines| - 1;
    Continued(lines[..n]) + LineText(lines[n], n) + "\n"
  }

  lemma LineAdded(lines: seq<seq<string>>, words: seq<string>)
    requires NoEmptyLine(lines) && words != []
    ensures NoEmptyLine(lines + [words])
  {
  }

  lemma ContinuedLine(lines: seq<seq<string>>, words: seq<string>)
    requires NoEmptyLine(lines) && words != []
    ensures NoEmptyLine(lines + [words])
    ensures Continued(lines + [words]) == Continued(lines) + LineText(words, |lines|) + CONTINUATION
    ensures Render(lines + [words]) == Continued(lines) + LineText(words, |lines|) + "\n"
  {
    var all := lines + [words];
    LineAdded(lines, words);
    hide NoEmptyLine, LineText;
    var n := |all| - 1;
    assert all[..n] == lines && all[n] == words && n == |lines|;
    assert Continued(all) == Continued(all[..n]) + LineText(all[n], n) + CONTINUATION;
    assert Render(all) == Continued(all[..n]) + LineText(all[n], n) + "\n";
  }

  lemma JoinCons(w: string, ws: seq<string>)
    requires ws != []
    ensures Join([w] + ws, ' ') == w + [' '] + Join(ws, ' ')
  {
    assert ([w] + ws)[1..] == ws;
  }

  lemma JoinTwo(a: string, b: string)
    ensures Join([a, b], ' ') == a + " " + b
  {
    JoinCons(a, [b]);
    assert [a] + [b] == [a, b];
  }

  lemma JoinThree(a: string, b: string, c: string)
    ensures Join([a, b, c], ' ') == a + " " + b + " " + c
  {
    JoinCons(a, [b, c]);
    JoinTwo(b, c);
    assert [a] + [b, c] == [a, b, c];
    assert a + [' '] + (b + " " + c) == a + " " + b + " " + c;
  }

  lemma JoinFour(a: string, b: string, c: string, d: string)
    ensures Join([a, b, c, d], ' ') == a + " " + b + " " + c + " " + d
  {
    JoinCons(a, [b, c, d]);
    JoinThree(b, c, d);
    assert [a] + [b, c, d] == [a, b, c, d];
    assert a + [' '] + (b + " " + c + " " + d) == a + " " + b + " " + c + " " + d;
  }

  /** The three fixed words at the start. */
  lemma JoinInstall(rest: seq<string>)
    requires rest != []
    ensures Join(["helm", "upgrade", "--install"] + rest, ' ') == "helm upgrade --install " + Join(rest, ' ')
  {
    var r := Join(rest, ' ');
    JoinCons("--install", rest);
    JoinCons("upgrade", ["--install"] + rest);
    JoinCons("helm", ["upgrade"] + (["--install"] + rest));
    assert ["helm"] + (["upgrade"] + (["--install"] + rest)) == ["helm", "upgrade", "--install"] + rest;
    InstallText(r);
  }

  lemma InstallText(r: string)
    ensures "helm" + [' '] + ("upgrade" + [' '] + ("--install" + [' '] + r)) == "helm upgrade --install " + r
  {
    assert "upgrade" + [' '] + ("--install" + [' '] + r) == "upgrade --install " + r;
    assert "helm" + [' '] + ("upgrade --install " + r) == "helm upgrade --install " + r;
  }

  lemma WaitText()
    ensures Join(WAIT_WORDS, ' ') == "--wait --debug --burst-limit=1000"
  {
    JoinThree("--wait", "--debug", "--burst-limit=1000");
    assert "--wait" + " " + "--debug" + " " + "--burst-limit=1000" == "--wait --debug --burst-limit=1000";
  }

  lemma {:induction false} SetLinesShape(values: seq<string>)
    ensures |SetLines(values)| == |values| && NoEmptyLine(SetLines(values))
  {
    if values != [] {
      SetLinesShape(values[..|values| - 1]);
    }
  }

  lemma LinesShape(c: Command)
    ensures Lines(c) != [] && NoEmptyLine(Lines(c))
    ensures NoEmptyLine(HeadLines(c) + NamespaceLines(c) + [WAIT_WORDS])
  {
    if c.values.SetValues? {
      SetLinesShape(c.values.values);
    }
  }

  /** Removing the last three characters removes exactly the last continuation. */
  lemma TruncationRemovesContinuation(lines: seq<seq<string>>)
    requires lines != [] && NoEmptyLine(lines)
    ensures |Continued(lines)| >= 3
    ensures Continued(lines)[..|Continued(lines)| - 3] + "\n" == Render(lines)
  {
    var n := |lines| - 1;
    var text := Continued(lines[..n]) + LineText(lines[n], n);
    assert Continued(lines) == text + CONTINUATION;
    assert (text + CONTINUATION)[..|text|] == text;
  }

  // ---------------------------------------------------------------- reading it back

  predicate Separates(c: char) {
    c == ' ' || c == '\n'
  }

  /** Blank-separated words; a backslash before a newline joins the lines. word is read so far. */
  function Scan(s: string, word: string): seq<string>
    decreases |s|
  {
    if s == "" then Finish(word)
    else if s[0] == '\\' && |s| > 1 && s[1] == '\n' then Scan(s[2..], word)
    else if Separates(s[0]) then Finish(word) + Scan(s[1..], "")
    else Scan(s[1..], word + [s[0]])
  }

  function Finish(word: string): seq<string> {
    if word == "" then [] else [word]
  }

  function Words(s: string): seq<string> {
    Scan(s, "")
  }

  /** "--set" value pairs up to the end. */
  function ReadSets(ws: seq<string>): Option<seq<string>> {
    if ws == [] then Some([])
    else if |ws| < 2 || ws[|ws| - 2] != "--set" then None
    else
      var rest := ReadSets(ws[..|ws| - 2]);
      if rest.None? then None else Some(rest.value + [ws[|ws| - 1]])
  }

  function ReadValues(ws: seq<string>): Option<Values> {
    if ws == ["--values=values.yaml"] then Some(ValuesFile)
    else
      var sets := ReadSets(ws);
      if sets.None? then None else Some(SetValues(sets.value))
  }

  /** The word behind a flag, if the flag comes next, and what follows. */
  function ReadFlag(ws: seq<string>, flag: string): (string, seq<string>) {
    if |ws| >= 2 && ws[0] == flag then (ws[1], ws[2..]) else ("", ws)
  }

  function ReadNamespace(ws: seq<string>): (string, seq<string>) {
    if |ws| >= 3 && ws[0] == "--namespace" && ws[2] == "--create-namespace" then (ws[1], ws[3..]) else ("", ws)
  }

  /** What follows the target. */
  function ReadTail(release: string, target: Target, ws: seq<string>): Option<Command> {
    var (version, afterVersion) := ReadFlag(ws, "--version");
    var (namespace, afterNamespace) := ReadNamespace(afterVersion);
    if |afterNamespace| < 3 || afterNamespace[..3] != WAIT_WORDS then None
    else
      var values := ReadValues(afterNamespace[3..]);
      if values.None? then None else Some(Command(release, target, version, namespace, values.value))
  }

  function ReadCommand(ws: seq<string>): Option<Command> {
    if |ws| < 5 || ws[..3] != ["helm", "upgrade", "--install"] then None
    else
      var (url, afterRepo) := ReadFlag(ws[5..], "--repo");
      ReadTail(ws[3], if url == "" then ByReference(ws[4]) else InRepository(ws[4], url), afterRepo)
  }
}
