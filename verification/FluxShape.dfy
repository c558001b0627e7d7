/** When the text of the printed command has the shape a shell needs. */
module FluxShape {
  import opened Strings
  import opened FluxCommand
  import opened FluxRoundTrip

  // ---------------------------------------------------------------- the shape of the text

  /** Every newline but the last follows a blank and a backslash; the last follows no backslash and ends the text. */
  ghost predicate ShellShape(text: string) {
    && text != "" && text[|text| - 1] == '\n'
    && (|text| >= 2 ==> text[|text| - 2] != '\\')
    && forall i :: 0 <= i < |text| - 1 && text[i] == '\n' ==> i >= 2 && text[i - 1] == '\\' && text[i - 2] == ' '
  }

  /** Every newline follows a blank and a backslash. */
  ghost predicate OnlyContinuations(text: string) {
    forall i :: 0 <= i < |text| && text[i] == '\n' ==> i >= 2 && text[i - 1] == '\\' && text[i - 2] == ' '
  }

  /** A word behind a blank adds no newline but continuations; so does every word without a newline. */
  ghost predicate Continues(word: string) {
    OnlyContinuations([' '] + word)
  }

  lemma NoNewlineContinues(word: string)
    requires '\n' !in word
    ensures Continues(word)
  {
  }

  /** Behind a text that ends in a blank, a word is judged on its own. */
  lemma WordBehindBlank(before: string, word: string)
    requires before != "" && before[|before| - 1] == ' '
    ensures OnlyContinuations(before + word) <==> OnlyContinuations(before) && Continues(word)
  {
    var text, alone, n := before + word, [' '] + word, |before|;
    assert forall i :: 0 <= i < n ==> text[i] == before[i];
    assert forall i :: 0 <= i < |alone| ==> alone[i] == text[n - 1 + i];
    if OnlyContinuations(text) {
      forall i | 0 <= i < |alone| && alone[i] == '\n' ensures i >= 2 && alone[i - 1] == '\\' && alone[i - 2] == ' ' {
        assert text[n - 1 + i] == '\n';
      }
      forall i | 0 <= i < n && before[i] == '\n' ensures i >= 2 && before[i - 1] == '\\' && before[i - 2] == ' ' {
        assert text[i] == '\n';
      }
    }
    if OnlyContinuations(before) && Continues(word) {
      forall i | 0 <= i < |text| && text[i] == '\n' ensures i >= 2 && text[i - 1] == '\\' && text[i - 2] == ' ' {
        if i >= n {
          assert alone[i - n + 1] == '\n';
          assert alone[i - n] == text[i - 1] && alone[i - n - 1] == text[i - 2];
        } else {
          assert before[i] == '\n';
        }
      }
    }
  }

  /** Text without a newline, and a continuation, change nothing. */
  lemma TextBehind(before: string, more: string)
    requires '\n' !in more || more == CONTINUATION
    ensures OnlyContinuations(before + more) <==> OnlyContinuations(before)
  {
    var text, n := before + more, |before|;
    assert forall i :: 0 <= i < n ==> text[i] == before[i];
    assert forall i :: 0 <= i < |more| ==> text[n + i] == more[i];
    if OnlyContinuations(text) {
      forall i | 0 <= i < n && before[i] == '\n' ensures i >= 2 && before[i - 1] == '\\' && before[i - 2] == ' ' {
        assert text[i] == '\n';
      }
    }
    if OnlyContinuations(before) {
      forall i | 0 <= i < |text| && text[i] == '\n' ensures i >= 2 && text[i - 1] == '\\' && text[i - 2] == ' ' {
        if i >= n {
          assert more[i - n] == '\n';
          assert more == CONTINUATION && i == n + 2 && text[n] == more[0] && text[n + 1] == more[1];
        }
      }
    }
  }

  ghost predicate AllContinue(words: seq<string>) {
    forall i :: 0 <= i < |words| ==> Continues(words[i])
  }

  /** A line starts with a word of the printer's own, and its other words continue. */
  ghost predicate LineContinues(words: seq<string>) {
    words != [] && AllContinue(words[1..])
  }

  ghost predicate StartsPlain(words: seq<string>) {
    words != [] && words[0] != "" && '\n' !in words[0]
  }

  lemma {:induction false} WordsBehindBlank(before: string, words: seq<string>)
    requires words != [] && before != "" && before[|before| - 1] == ' '
    ensures OnlyContinuations(before + Join(words, ' ')) <==> OnlyContinuations(before) && AllContinue(words)
    decreases |words|
  {
    var w := words[0];
    WordBehindBlank(before, w);
    if |words| > 1 {
      var longer := before + w + [' '];
      TextBehind(before + w, [' ']);
      assert before + Join(words, ' ') == longer + Join(words[1..], ' ');
      hide OnlyContinuations;
      WordsBehindBlank(longer, words[1..]);
      assert AllContinue(words) <==> Continues(w) && AllContinue(words[1..]) by {
        assert words == [w] + words[1..];
      }
    }
  }

  /** One more line, as the buffer holds it. */
  lemma LineBehind(before: string, words: seq<string>, i: nat)
    requires StartsPlain(words)
    ensures OnlyContinuations(before + LineText(words, i)) <==> OnlyContinuations(before) && LineContinues(words)
  {
    var indent := if i == 0 then "" else INDENT;
    var start := before + (indent + words[0]);
    TextBehind(before, indent + words[0]);
    if |words| == 1 {
      assert before + LineText(words, i) == start;
    } else {
      TextBehind(start, [' ']);
      WordsBehindBlank(start + [' '], words[1..]);
      assert before + LineText(words, i) == start + [' '] + Join(words[1..], ' ');
    }
  }

  lemma {:induction false} ContinuedShape(lines: seq<seq<string>>)
    requires NoEmptyLine(lines) && forall k :: 0 <= k < |lines| ==> StartsPlain(lines[k])
    ensures OnlyContinuations(Continued(lines)) <==> forall k :: 0 <= k < |lines| ==> LineContinues(lines[k])
    decreases |lines|
  {
    if lines != [] {
      var n := |lines| - 1;
      ContinuedShape(lines[..n]);
      var before, line := Continued(lines[..n]), LineText(lines[n], n);
      LineBehind(before, lines[n], n);
      TextBehind(before + line, CONTINUATION);
      hide OnlyContinuations, LineContinues, StartsPlain, LineText;
      assert forall k :: 0 <= k < n ==> lines[..n][k] == lines[k];
    }
  }

  lemma EndedByNewline(text: string)
    ensures ShellShape(text + "\n") <==> OnlyContinuations(text) && !EndsInBackslash(text)
  {
    var whole := text + "\n";
    assert forall i :: 0 <= i < |text| ==> whole[i] == text[i];
    if ShellShape(whole) {
      forall i | 0 <= i < |text| && text[i] == '\n' ensures i >= 2 && text[i - 1] == '\\' && text[i - 2] == ' ' {
        assert whole[i] == '\n';
      }
    }
  }

  lemma LineEnds(words: seq<string>, i: nat)
    requires StartsPlain(words)
    ensures LineText(words, i) != ""
    ensures EndsInBackslash(LineText(words, i)) <==> EndsInBackslash(words[|words| - 1])
  {
    JoinEnds(words);
    var line, w := LineText(words, i), Join(words, ' ');
    assert line[|line| - |w|..] == w;
  }

  lemma {:induction false} JoinEnds(words: seq<string>)
    requires words != []
    ensures |Join(words, ' ')| >= |words[0]|
    ensures EndsInBackslash(Join(words, ' ')) <==> EndsInBackslash(words[|words| - 1])
    decreases |words|
  {
    if |words| > 1 {
      JoinEnds(words[1..]);
      var rest := Join(words[1..], ' ');
      assert Join(words, ' ') == words[0] + [' '] + rest;
      assert rest != "" ==> Join(words, ' ')[|words[0]| + |rest|] == rest[|rest| - 1];
    }
  }

  ghost predicate AllLinesContinue(lines: seq<seq<string>>) {
    forall k :: 0 <= k < |lines| ==> LineContinues(lines[k])
  }

  ghost predicate AllStartPlain(lines: seq<seq<string>>) {
    forall k :: 0 <= k < |lines| ==> StartsPlain(lines[k])
  }

  /** The shape of any lines that start with plain words. */
  lemma RenderedShape(lines: seq<seq<string>>)
    requires lines != [] && NoEmptyLine(lines) && AllStartPlain(lines)
    ensures var last := lines[|lines| - 1];
            && last != []
            && (ShellShape(Render(lines)) <==> AllLinesContinue(lines) && !EndsInBackslash(last[|last| - 1]))
  {
    var n := |lines| - 1;
    var before, line := Continued(lines[..n]), LineText(lines[n], n);
    ContinuedShape(lines[..n]);
    LineBehind(before, lines[n], n);
    EndedByNewline(before + line);
    LineEnds(lines[n], n);
    assert EndsInBackslash(before + line) == EndsInBackslash(line);
    assert forall k :: 0 <= k < n ==> lines[..n][k] == lines[k];
    hide ShellShape, OnlyContinuations, LineContinues, StartsPlain, LineText, EndsInBackslash, Continued;
  }

  // ---------------------------------------------------------------- the shape of a command

  lemma AllLinesConcat(a: seq<seq<string>>, b: seq<seq<string>>)
    ensures AllLinesContinue(a + b) <==> AllLinesContinue(a) && AllLinesContinue(b)
    ensures AllStartPlain(a + b) <==> AllStartPlain(a) && AllStartPlain(b)
  {
    hide LineContinues, StartsPlain;
    assert forall k :: 0 <= k < |a| ==> (a + b)[k] == a[k];
    assert forall k :: 0 <= k < |b| ==> (a + b)[|a| + k] == b[k];
  }

  lemma AllContinueConcat(a: seq<string>, b: seq<string>)
    ensures AllContinue(a + b) <==> AllContinue(a) && AllContinue(b)
  {
    hide Continues;
    assert forall k :: 0 <= k < |a| ==> (a + b)[k] == a[k];
    assert forall k :: 0 <= k < |b| ==> (a + b)[|a| + k] == b[k];
  }

  lemma OneLine(word: string, words: seq<string>)
    requires Clean(word) && word != ""
    ensures AllStartPlain([[word] + words])
    ensures AllLinesContinue([[word] + words]) <==> AllContinue(words)
  {
    var line := [word] + words;
    assert line[1..] == words;
    assert LineContinues(line) <==> AllContinue(words);
    hide Continues, LineContinues;
    assert [line][0] == line;
  }

  lemma {:induction false} SetLinesContinue(values: seq<string>)
    ensures AllStartPlain(SetLines(values))
    ensures AllLinesContinue(SetLines(values)) <==> AllContinue(values)
  {
    if values != [] {
      var n := |values| - 1;
      SetLinesContinue(values[..n]);
      FlagsAreClean();
      OneLine("--set", [values[n]]);
      assert ["--set"] + [values[n]] == ["--set", values[n]];
      AllLinesConcat(SetLines(values[..n]), [["--set", values[n]]]);
      AllContinueConcat(values[..n], [values[n]]);
      assert values == values[..n] + [values[n]];
      hide Continues, LineContinues, StartsPlain, AllContinue, AllLinesContinue, AllStartPlain;
    }
  }

  lemma CleanContinues(words: seq<string>)
    requires AllClean(words)
    ensures AllContinue(words)
  {
    forall i | 0 <= i < |words| ensures Continues(words[i]) {
      NoNewlineContinues(words[i]);
    }
  }

  lemma VersionContinues(version: string)
    ensures AllContinue(VersionWords(version)) <==> Continues(version)
  {
    FlagsAreClean();
    NoNewlineContinues("--version");
    NoNewlineContinues("");
    assert version != "" ==> VersionWords(version)[0] == "--version" && VersionWords(version)[1] == version;
    hide Continues;
  }

  lemma RepositoryHeadContinues(release: string, chart: string, url: string, version: string)
    ensures var lines := [["helm", "upgrade", "--install", release, chart], ["--repo", url] + VersionWords(version)];
            && AllStartPlain(lines)
            && (AllLinesContinue(lines) <==> Continues(release) && Continues(version) && Continues(chart) && Continues(url))
  {
    FlagsAreClean();
    VersionContinues(version);
    CleanContinues(["upgrade", "--install"]);
    var pair, one := [release, chart], [url];
    var first, second := ["upgrade", "--install"] + pair, one + VersionWords(version);
    OneLine("helm", first);
    OneLine("--repo", second);
    AllContinueConcat(["upgrade", "--install"], pair);
    AllContinueConcat(one, VersionWords(version));
    AllLinesConcat([["helm"] + first], [["--repo"] + second]);
    assert AllContinue(pair) <==> Continues(pair[0]) && Continues(pair[1]);
    assert AllContinue(one) <==> Continues(one[0]);
    hide Continues, LineContinues, AllLinesContinue, AllStartPlain, AllContinue;
    assert ["helm"] + first == ["helm", "upgrade", "--install", release, chart];
    assert ["--repo"] + second == ["--repo", url] + VersionWords(version);
    assert [["helm"] + first] + [["--repo"] + second] == [["helm"] + first, ["--repo"] + second];
  }

  lemma ReferenceHeadContinues(release: string, reference: string, version: string)
    ensures var lines := [["helm", "upgrade", "--install", release, reference] + VersionWords(version)];
            && AllStartPlain(lines)
            && (AllLinesContinue(lines) <==> Continues(release) && Continues(version) && Continues(reference))
  {
    FlagsAreClean();
    VersionContinues(version);
    CleanContinues(["upgrade", "--install"]);
    var pair := [release, reference];
    var first := ["upgrade", "--install"] + (pair + VersionWords(version));
    OneLine("helm", first);
    AllContinueConcat(["upgrade", "--install"], pair + VersionWords(version));
    AllContinueConcat(pair, VersionWords(version));
    assert AllContinue(pair) <==> Continues(pair[0]) && Continues(pair[1]);
    hide Continues, LineContinues, AllLinesContinue, AllStartPlain, AllContinue;
    assert ["helm"] + first == ["helm", "upgrade", "--install", release, reference] + VersionWords(version);
  }

  lemma HeadContinues(c: Command)
    ensures AllStartPlain(HeadLines(c))
    ensures AllLinesContinue(HeadLines(c)) <==>
            Continues(c.release) && Continues(c.version)
            && match c.target
               case InRepository(chart, url) => Continues(chart) && Continues(url)
               case ByReference(reference) => Continues(reference)
  {
    hide Continues, AllLinesContinue, AllStartPlain;
    match c.target
    case InRepository(chart, url) => RepositoryHeadContinues(c.release, chart, url, c.version);
    case ByReference(reference) => ReferenceHeadContinues(c.release, reference, c.version);
  }

  lemma NamespaceContinues(c: Command)
    ensures AllStartPlain(NamespaceLines(c))
    ensures AllLinesContinue(NamespaceLines(c)) <==> Continues(c.namespace)
  {
    FlagsAreClean();
    NoNewlineContinues("");
    NoNewlineContinues("--create-namespace");
    hide Continues;
    if c.namespace != "" {
      var words := [c.namespace, "--create-namespace"];
      OneLine("--namespace", words);
      assert ["--namespace"] + words == ["--namespace", c.namespace, "--create-namespace"];
      assert AllContinue(words) <==> Continues(words[0]) && Continues(words[1]);
    }
  }

  lemma FixedContinues()
    ensures AllStartPlain([WAIT_WORDS]) && AllLinesContinue([WAIT_WORDS])
    ensures AllStartPlain([["--values=values.yaml"]]) && AllLinesContinue([["--values=values.yaml"]])
  {
    FlagsAreClean();
    OneLine("--wait", ["--debug", "--burst-limit=1000"]);
    assert Clean(WAIT_WORDS[1]) && Clean(WAIT_WORDS[2]);
    CleanContinues(["--debug", "--burst-limit=1000"]);
    assert ["--wait"] + ["--debug", "--burst-limit=1000"] == WAIT_WORDS;
    OneLine("--values=values.yaml", []);
    assert ["--values=values.yaml"] + [] == ["--values=values.yaml"];
  }

  lemma FieldsContinue(c: Command)
    ensures AllContinue(Fields(c)) <==>
            Continues(c.release) && Continues(c.version) && Continues(c.namespace)
            && (match c.target
                case InRepository(chart, url) => Continues(chart) && Continues(url)
                case ByReference(reference) => Continues(reference))
            && (c.values.SetValues? ==> AllContinue(c.values.values))
  {
    hide Continues;
    var first := [c.release, c.version, c.namespace];
    var target := match c.target case InRepository(chart, url) => [chart, url] case ByReference(reference) => [reference];
    var values := match c.values case ValuesFile => [] case SetValues(values) => values;
    AllContinueConcat(first + target, values);
    AllContinueConcat(first, target);
    assert AllContinue(first) <==> Continues(first[0]) && Continues(first[1]) && Continues(first[2]);
    assert Fields(c) == first + target + values;
  }

  lemma LinesContinue(c: Command)
    ensures AllStartPlain(Lines(c))
    ensures AllLinesContinue(Lines(c)) <==> AllContinue(Fields(c))
  {
    HeadContinues(c);
    NamespaceContinues(c);
    FixedContinues();
    FieldsContinue(c);
    if c.values.SetValues? {
      SetLinesContinue(c.values.values);
    }
    AllLinesConcat(HeadLines(c) + NamespaceLines(c) + [WAIT_WORDS], ValueLines(c));
    AllLinesConcat(HeadLines(c) + NamespaceLines(c), [WAIT_WORDS]);
    AllLinesConcat(HeadLines(c), NamespaceLines(c));
    hide Continues, AllLinesContinue, AllStartPlain, AllContinue, HeadLines, NamespaceLines, Fields, SetLines;
  }

  /**
   Every printed command is one shell command line, continued over its lines, exactly when no
   newline in a field is more than a continuation and the last set value, if there is one, does not
   end in a backslash.
   */
  lemma PrintedCommandShape(c: Command)
    ensures Lines(c) != [] && NoEmptyLine(Lines(c))
    ensures ShellShape(Render(Lines(c))) <==> AllContinue(Fields(c)) && !LastValueEscapes(c)
  {
    LinesShape(c);
    LinesContinue(c);
    LastLineEnds(c);
    RenderedShape(Lines(c));
    hide Lines, ShellShape, AllLinesContinue, AllContinue, EndsInBackslash, AllStartPlain, Render;
  }

  /** Without newlines in the fields only the end of the last set value matters. */
  lemma ShapeWithoutNewlines(c: Command)
    requires forall i :: 0 <= i < |Fields(c)| ==> '\n' !in Fields(c)[i]
    ensures Lines(c) != [] && NoEmptyLine(Lines(c))
    ensures ShellShape(Render(Lines(c))) <==> !LastValueEscapes(c)
  {
    PrintedCommandShape(c);
    forall i | 0 <= i < |Fields(c)| ensures Continues(Fields(c)[i]) {
      NoNewlineContinues(Fields(c)[i]);
    }
  }

  /** A set value that ends in a backslash makes the end of the command one more continuation. */
  lemma TrailingBackslashContinues()
    ensures var c := Command("r", InRepository("c", "u"), "", "", SetValues(["k=v\\"]));
            Lines(c) != [] && NoEmptyLine(Lines(c)) && !ShellShape(Render(Lines(c)))
  {
    var c := Command("r", InRepository("c", "u"), "", "", SetValues(["k=v\\"]));
    PrintedCommandShape(c);
    assert c.values.values[0] == "k=v\\" && "k=v\\"[3] == '\\';
  }
}
