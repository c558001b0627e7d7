/** The printed command, character by character. */
module FluxText {
  import opened Strings
  import opened FluxCommand

  const NEXT_LINE := " \\\n  "

  function VersionText(version: string): string {
    if version == "" then "" else " --version " + version
  }

  function HeadText(c: Command): string {
    match c.target
    case InRepository(chart, url) =>
      "helm upgrade --install " + c.release + " " + chart + NEXT_LINE + "--repo " + url + VersionText(c.version)
    case ByReference(reference) =>
      "helm upgrade --install " + c.release + " " + reference + VersionText(c.version)
  }

  function NamespaceText(namespace: string): string {
    if namespace == "" then "" else NEXT_LINE + ("--namespace" + " " + namespace + " " + "--create-namespace")
  }

  function SetsText(values: seq<string>): string {
    if values == [] then ""
    else SetsText(values[..|values| - 1]) + (NEXT_LINE + ("--set" + " " + values[|values| - 1]))
  }

  function ValuesText(values: Values): string {
    match values
    case ValuesFile => NEXT_LINE + "--values=values.yaml"
    case SetValues(vs) => SetsText(vs)
  }

  /** A text of lines without the newline at the end. */
  function Body(lines: seq<seq<string>>): string
    requires lines != [] && NoEmptyLine(lines)
  {
    var n := |lines| - 1;
    Continued(lines[..n]) + LineText(lines[n], n)
  }

  lemma BodyGrows(lines: seq<seq<string>>, words: seq<string>)
    requires lines != [] && NoEmptyLine(lines) && words != []
    ensures NoEmptyLine(lines + [words])
    ensures Body(lines + [words]) == Body(lines) + (NEXT_LINE + Join(words, ' '))
  {
    var all := lines + [words];
    LineAdded(lines, words);
    assert all[..|all| - 1] == lines && all[|all| - 1] == words;
    assert Continued(lines) == Body(lines) + CONTINUATION;
    hide NoEmptyLine, Join, Continued;
    var line := Join(words, ' ');
    assert Body(all) == Body(lines) + CONTINUATION + (INDENT + line);
    LineBreak(Body(lines), line);
  }

  lemma LineBreak(before: string, line: string)
    ensures before + CONTINUATION + (INDENT + line) == before + (NEXT_LINE + line)
  {
    assert CONTINUATION + INDENT == NEXT_LINE;
  }

  lemma {:induction false} JoinBoth(words: seq<string>, more: seq<string>)
    requires words != [] && more != []
    ensures Join(words + more, ' ') == Join(words, ' ') + ([' '] + Join(more, ' '))
    decreases |words|
  {
    var w := words[0];
    assert words == [w] + words[1..];
    if |words| == 1 {
      assert words + more == [w] + more;
      JoinCons(w, more);
    } else {
      JoinBoth(words[1..], more);
      assert words + more == [w] + (words[1..] + more);
      hide Join;
      JoinCons(w, words[1..] + more);
      JoinCons(w, words[1..]);
    }
  }

  lemma VersionJoins(words: seq<string>, version: string)
    requires words != []
    ensures Join(words + VersionWords(version), ' ') == Join(words, ' ') + VersionText(version)
  {
    if version == "" {
      assert words + VersionWords(version) == words;
    } else {
      JoinBoth(words, ["--version", version]);
      JoinTwo("--version", version);
      assert [' '] + ("--version" + " " + version) == " --version " + version;
    }
  }

  lemma InstallJoins(release: string, target: string)
    ensures Join(["helm", "upgrade", "--install", release, target], ' ') ==
            "helm upgrade --install " + release + " " + target
  {
    JoinInstall([release, target]);
    JoinTwo(release, target);
    assert ["helm", "upgrade", "--install"] + [release, target] == ["helm", "upgrade", "--install", release, target];
    assert "helm upgrade --install " + (release + " " + target) == "helm upgrade --install " + release + " " + target;
  }

  lemma BodyOfOne(words: seq<string>)
    requires words != []
    ensures NoEmptyLine([words]) && Body([words]) == Join(words, ' ')
  {
    assert [words][..0] == [];
  }

  lemma HeadPrints(c: Command)
    ensures HeadLines(c) != [] && NoEmptyLine(HeadLines(c)) && Body(HeadLines(c)) == HeadText(c)
  {
    match c.target
    case InRepository(chart, url) =>
      var first, second := ["helm", "upgrade", "--install", c.release, chart], ["--repo", url] + VersionWords(c.version);
      InstallJoins(c.release, chart);
      JoinTwo("--repo", url);
      VersionJoins(["--repo", url], c.version);
      BodyOfOne(first);
      hide Body, Join, VersionWords;
      BodyGrows([first], second);
      assert HeadLines(c) == [first] + [second];
      Regroup(Join(first, ' '), NEXT_LINE, "--repo ", url, VersionText(c.version));
      assert "--repo" + " " == "--repo ";
    case ByReference(reference) =>
      var first := ["helm", "upgrade", "--install", c.release, reference];
      InstallJoins(c.release, reference);
      VersionJoins(first, c.version);
      BodyOfOne(first + VersionWords(c.version));
  }

  lemma Regroup(a: string, b: string, c: string, d: string, e: string)
    ensures a + (b + (c + d + e)) == a + b + c + d + e
  {
  }

  lemma NamespaceLineText(namespace: string)
    requires namespace != ""
    ensures NEXT_LINE + Join(["--namespace", namespace, "--create-namespace"], ' ') == NamespaceText(namespace)
  {
    JoinThree("--namespace", namespace, "--create-namespace");
  }

  lemma NamespacePrints(c: Command, lines: seq<seq<string>>)
    requires lines != [] && NoEmptyLine(lines)
    ensures NoEmptyLine(lines + NamespaceLines(c))
    ensures Body(lines + NamespaceLines(c)) == Body(lines) + NamespaceText(c.namespace)
  {
    if c.namespace == "" {
      assert lines + NamespaceLines(c) == lines;
    } else {
      NamespaceLineText(c.namespace);
      hide Body, Join;
      BodyGrows(lines, ["--namespace", c.namespace, "--create-namespace"]);
    }
  }

  lemma {:induction false} SetsPrint(lines: seq<seq<string>>, values: seq<string>)
    requires lines != [] && NoEmptyLine(lines)
    ensures NoEmptyLine(lines + SetLines(values))
    ensures Body(lines + SetLines(values)) == Body(lines) + SetsText(values)
  {
    if values == [] {
      assert lines + SetLines(values) == lines;
    } else {
      var n := |values| - 1;
      SetsPrint(lines, values[..n]);
      JoinTwo("--set", values[n]);
      assert lines + SetLines(values) == lines + SetLines(values[..n]) + [["--set", values[n]]];
      var line := NEXT_LINE + ("--set" + " " + values[n]);
      assert SetsText(values) == SetsText(values[..n]) + line;
      hide Body, Join, SetLines, NoEmptyLine, SetsText;
      BodyGrows(lines + SetLines(values[..n]), ["--set", values[n]]);
      assert Body(lines) + SetsText(values[..n]) + line == Body(lines) + (SetsText(values[..n]) + line);
    }
  }

  lemma ValuesPrint(c: Command, lines: seq<seq<string>>)
    requires lines != [] && NoEmptyLine(lines)
    ensures NoEmptyLine(lines + ValueLines(c))
    ensures Body(lines + ValueLines(c)) == Body(lines) + ValuesText(c.values)
  {
    match c.values
    case ValuesFile => BodyGrows(lines, ["--values=values.yaml"]);
    case SetValues(values) => SetsPrint(lines, values);
  }

  /** The text of every command, in all branch combinations. */
  lemma PrintedText(c: Command)
    ensures Lines(c) != [] && NoEmptyLine(Lines(c))
    ensures Render(Lines(c)) ==
            HeadText(c) + NamespaceText(c.namespace) + (NEXT_LINE + "--wait --debug --burst-limit=1000")
            + ValuesText(c.values) + "\n"
  {
    var head := HeadLines(c);
    var spaced := head + NamespaceLines(c);
    var waited := spaced + [WAIT_WORDS];
    HeadPrints(c);
    assert Render(Lines(c)) == Body(Lines(c)) + "\n" by {
      LinesShape(c);
    }
    LinesShape(c);
    WaitText();
    hide HeadLines, NamespaceLines, ValueLines, Body, Render, NoEmptyLine;
    NamespacePrints(c, head);
    BodyGrows(spaced, WAIT_WORDS);
    ValuesPrint(c, waited);
  }
}
