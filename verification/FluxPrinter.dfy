/** The printer as an object: it fills a buffer line by line and writes it out at the end. */
module FluxPrinter {
  import opened Wrappers
  import opened Strings
  import opened FluxCommand

  datatype PrintError =
    | NoChart | NoHelmRepository | BadURL | MergeFailed | DiffFailed | NewlineInValue(key: string) | WriteFailed

  class Writer {
    var out: string

    constructor ()
      ensures out == ""
    {
      out := "";
    }

    /** A failing write may have written a part. */
    method Write(data: string) returns (ok: bool)
      modifies this
      ensures old(out) <= out <= old(out) + data
      ensures ok ==> out == old(out) + data
    {
      var n :| 0 <= n <= |data|;
      ok := n == |data|;
      assert ok ==> data[..n] == data;
      assert data == data[..n] + data[n..];
      assert old(out) + data == (old(out) + data[..n]) + data[n..];
      out := out + data[..n];
    }
  }

  /**
   The answers of the registry and of the values library: whether the chart is found; for a Helm
   repository source the URL of the repository, else the source's name; how a repository URL and
   the chart name join to a reference; and the changed values, each of the form key=value.
   */
  datatype Answers = Answers(
    chartFound: bool, sourceName: string, isHelmRepository: bool, helmRepositoryURL: Option<string>,
    reference: string -> Option<string>, mergeOk: bool, valuesDiff: Option<string>, changedValues: Option<seq<string>>)

  /** The chart of that name in the repository at the source's URL, or the reference joined for an OCI URL. */
  ghost predicate TargetIs(a: Answers, chart: string, t: Target) {
    a.chartFound &&
    match t
    case InRepository(name, url) =>
      && name == chart && (forall rest :: url != "oci://" + rest)
      && if a.isHelmRepository then a.helmRepositoryURL == Some(url) else a.sourceName == url
    case ByReference(reference) =>
      exists rest ::
        && a.reference("oci://" + rest) == Some(reference)
        && if a.isHelmRepository then a.helmRepositoryURL == Some("oci://" + rest) else a.sourceName == "oci://" + rest
  }

  /** A values file, or exactly the changed values, none with a newline. */
  ghost predicate ValuesAre(a: Answers, useFile: bool, values: Values) {
    a.mergeOk &&
    match values
    case ValuesFile => useFile && a.valuesDiff.Some?
    case SetValues(vs) =>
      !useFile && a.changedValues == Some(vs) && forall i :: 0 <= i < |vs| ==> '\n' !in vs[i]
  }

  class FluxCDCommandPrinter {
    const ChartName: string
    const Version: string
    const ReleaseName: string
    const Namespace: string
    const UseValuesFile: bool
    const W: Writer
    var valuesFile: string

    constructor (chartName: string, version: string, releaseName: string, namespace: string,
                 useValuesFile: bool, w: Writer)
      ensures ChartName == chartName && Version == version && ReleaseName == releaseName
      ensures Namespace == namespace && UseValuesFile == useValuesFile && W == w && valuesFile == ""
    {
      ChartName, Version, ReleaseName, Namespace := chartName, version, releaseName, namespace;
      UseValuesFile, W, valuesFile := useValuesFile, w, "";
    }

    /** Where the chart comes from, or why that is unknown. */
    function TargetOf(a: Answers): Result<Target, PrintError> {
      if !a.chartFound then Err(NoChart)
      else if a.isHelmRepository && a.helmRepositoryURL.None? then Err(NoHelmRepository)
      else
        var url := if a.isHelmRepository then a.helmRepositoryURL.value else a.sourceName;
        if !HasPrefix(url, "oci://") then Ok(InRepository(ChartName, url))
        else if a.reference(url).None? then Err(BadURL)
        else Ok(ByReference(a.reference(url).value))
    }

    lemma TargetMeans(a: Answers, t: Target)
      ensures TargetOf(a) == Ok(t) <==> TargetIs(a, ChartName, t)
      ensures TargetOf(a) == Err(NoChart) <==> !a.chartFound
      ensures TargetOf(a) == Err(NoHelmRepository) <==> a.chartFound && a.isHelmRepository && a.helmRepositoryURL.None?
    {
      forall url ensures HasPrefix(url, "oci://") <==> exists rest :: url == "oci://" + rest {
        PrefixMeans(url, "oci://");
      }
      hide HasPrefix;
    }

    lemma ValuesMean(a: Answers, values: Values)
      ensures ValuesOf(a) == Some(values) <==> ValuesAre(a, UseValuesFile, values)
    {
    }

    /** The values part, or why there is none. */
    function ValuesOf(a: Answers): Option<Values> {
      if !a.mergeOk then None
      else if UseValuesFile then if a.valuesDiff.None? then None else Some(ValuesFile)
      else if a.changedValues.None? then None
      else if exists i :: 0 <= i < |a.changedValues.value| && '\n' in a.changedValues.value[i] then None
      else Some(SetValues(a.changedValues.value))
    }

    /** Why there is no values part. */
    ghost predicate ValuesFail(a: Answers, e: PrintError)
      requires ValuesOf(a).None?
    {
      if !a.mergeOk then e == MergeFailed
      else if UseValuesFile || a.changedValues.None? then e == DiffFailed
      else FirstNewline(a.changedValues.value, e)
    }

    /** What the values file is after a run on these answers; nil, so empty, when there is no diff. */
    function ValuesFileAfter(a: Answers, before: string): string {
      if TargetOf(a).Err? || !a.mergeOk || !UseValuesFile then before
      else if a.valuesDiff.None? then "" else a.valuesDiff.value
    }

    /** The values part behind the other lines, without the final newline. */
    method PrintValues(a: Answers, ghost c: Command, before: string) returns (r: Result<string, PrintError>)
      requires a.changedValues.Some? ==> forall v :: v in a.changedValues.value ==> '=' in v
      requires TargetOf(a).Ok?
      requires var lines := HeadLines(c) + NamespaceLines(c) + [WAIT_WORDS];
               NoEmptyLine(lines) && before == Continued(lines)
      modifies this`valuesFile
      ensures valuesFile == ValuesFileAfter(a, old(valuesFile))
      ensures match ValuesOf(a)
              case None => r.Err? && ValuesFail(a, r.error)
              case Some(values) =>
                var lines := Lines(c.(values := values));
                r.Ok? && lines != [] && NoEmptyLine(lines) && r.value + "\n" == Render(lines)
    {
      hide Render, Continued;
      if !a.mergeOk {
        return Err(MergeFailed);
      }
      ghost var lines := HeadLines(c) + NamespaceLines(c) + [WAIT_WORDS];
      if UseValuesFile {
        valuesFile := if a.valuesDiff.None? then "" else a.valuesDiff.value;
        if a.valuesDiff.None? {
          return Err(DiffFailed);
        }
        ContinuedLine(lines, ["--values=values.yaml"]);
        assert LineText(["--values=values.yaml"], |lines|) == INDENT + "--values=values.yaml";
        assert Lines(c.(values := ValuesFile)) == lines + [["--values=values.yaml"]];
        return Ok(before + (INDENT + "--values=values.yaml"));
      }
      if a.changedValues.None? {
        return Err(DiffFailed);
      }
      var printed := PrintSets(lines, before, a.changedValues.value);
      if printed.Err? {
        return Err(printed.error);
      }
      ghost var done := c.(values := SetValues(a.changedValues.value));
      LinesShape(done);
      TruncationRemovesContinuation(Lines(done));
      return Ok(printed.value[..|printed.value| - 3]);
    }

    /**
     Succeeds in writing exactly the rendered command, or fails for the first reason there is; and
     unless the final write itself fails, a failure has written nothing.
     */
    method Do(a: Answers) returns (r: Result<(), PrintError>)
      requires a.changedValues.Some? ==> forall v :: v in a.changedValues.value ==> '=' in v
      modifies this`valuesFile, W
      ensures r.Ok? ==>
                exists t, values ::
                  && TargetIs(a, ChartName, t) && ValuesAre(a, UseValuesFile, values)
                  && var lines := Lines(Command(ReleaseName, t, Version, Namespace, values));
                     lines != [] && NoEmptyLine(lines) && W.out == old(W.out) + Render(lines)
      ensures r.Ok? && UseValuesFile ==> a.valuesDiff == Some(valuesFile)
      ensures !UseValuesFile ==> valuesFile == old(valuesFile)
      ensures valuesFile == ValuesFileAfter(a, old(valuesFile))
      ensures TargetOf(a).Err? ==> r == Err(TargetOf(a).error) && W.out == old(W.out)
      ensures TargetOf(a).Ok? && ValuesOf(a).None? ==> r.Err? && ValuesFail(a, r.error) && W.out == old(W.out)
      ensures TargetOf(a).Ok? && ValuesOf(a).Some? ==>
                var lines := Lines(Command(ReleaseName, TargetOf(a).value, Version, Namespace, ValuesOf(a).value));
                && lines != [] && NoEmptyLine(lines)
                && (r == Ok(()) || r == Err(WriteFailed))
                && old(W.out) <= W.out <= old(W.out) + Render(lines)
                && (r.Ok? ==> W.out == old(W.out) + Render(lines))
    {
      hide Render, Continued;
      if !a.chartFound {
        return Err(NoChart);
      }
      var repoURL := a.sourceName;
      if a.isHelmRepository {
        if a.helmRepositoryURL.None? {
          return Err(NoHelmRepository);
        }
        repoURL := a.helmRepositoryURL.value;
      }
      var buf;
      if !HasPrefix(repoURL, "oci://") {
        buf := RepositoryHead(ReleaseName, ChartName, repoURL, Version);
      } else {
        var reference := a.reference(repoURL);
        if reference.None? {
          return Err(BadURL);
        }
        buf := ReferenceHead(ReleaseName, reference.value, Version);
      }
      ghost var c := Command(ReleaseName, TargetOf(a).value, Version, Namespace, ValuesFile);
      buf := AfterHead(c, Namespace, buf);
      TargetMeans(a, TargetOf(a).value);
      if ValuesOf(a).Some? {
        ValuesMean(a, ValuesOf(a).value);
        assert UseValuesFile ==> a.valuesDiff.Some?;
      }
      hide HeadLines, NamespaceLines, Lines, ValuesOf, ValuesFail, NoEmptyLine, TargetIs, ValuesAre;
      var printed := PrintValues(a, c, buf);
      if printed.Err? {
        return Err(printed.error);
      }
      buf := printed.value + "\n";
      var ok := W.Write(buf);
      if ok {
        return Ok(());
      } else {
        return Err(WriteFailed);
      }
    }
  }

  /** The error names the key of the first value with a newline in it. */
  ghost predicate FirstNewline(values: seq<string>, e: PrintError) {
    exists i :: 0 <= i < |values| && '\n' in values[i]
                && (forall j :: 0 <= j < i ==> '\n' !in values[j])
                && e == NewlineInValue(values[i][..Index(values[i], '=')])
  }

  /** The two lines for a chart in a repository. */
  method RepositoryHead(release: string, chart: string, repoURL: string, version: string) returns (buf: string)
    ensures forall ns, vs :: var c := Command(release, InRepository(chart, repoURL), version, ns, vs);
              NoEmptyLine(HeadLines(c)) && buf == Continued(HeadLines(c))
  {
    buf := "helm upgrade --install " + (release + " " + chart) + CONTINUATION;
    ghost var first := ["helm", "upgrade", "--install"] + [release, chart];
    JoinInstall([release, chart]);
    JoinTwo(release, chart);
    ContinuedLine([], first);
    assert buf == Continued([first]) by {
      assert [] + [first] == [first];
      assert Continued([]) + LineText(first, 0) == LineText(first, 0) == Join(first, ' ');
    }
    ghost var second := ["--repo", repoURL] + VersionWords(version);
    ContinuedLine([first], second);
    if version != "" {
      JoinFour("--repo", repoURL, "--version", version);
      assert second == ["--repo", repoURL, "--version", version];
      var line := "--repo" + " " + repoURL + " " + "--version" + " " + version;
      buf := buf + (INDENT + line) + CONTINUATION;
    } else {
      JoinTwo("--repo", repoURL);
      assert second == ["--repo", repoURL];
      var line := "--repo" + " " + repoURL;
      buf := buf + (INDENT + line) + CONTINUATION;
    }
    assert buf == Continued([first] + [second]);
    assert first == ["helm", "upgrade", "--install", release, chart];
    assert [first] + [second] == [["helm", "upgrade", "--install", release, chart], second];
  }

  /** The one line for a chart by its reference. */
  method ReferenceHead(release: string, reference: string, version: string) returns (buf: string)
    ensures forall ns, vs :: var c := Command(release, ByReference(reference), version, ns, vs);
              NoEmptyLine(HeadLines(c)) && buf == Continued(HeadLines(c))
  {
    ghost var rest := [release, reference] + VersionWords(version);
    ghost var first := ["helm", "upgrade", "--install"] + rest;
    JoinInstall(rest);
    if version != "" {
      JoinFour(release, reference, "--version", version);
      assert rest == [release, reference, "--version", version];
      buf := "helm upgrade --install " + (release + " " + reference + " " + "--version" + " " + version) + CONTINUATION;
    } else {
      JoinTwo(release, reference);
      assert rest == [release, reference];
      buf := "helm upgrade --install " + (release + " " + reference) + CONTINUATION;
    }
    ContinuedLine([], first);
    assert [] + [first] == [first];
    assert Continued([]) + LineText(first, 0) == LineText(first, 0) == Join(first, ' ');
    assert first == ["helm", "upgrade", "--install", release, reference] + VersionWords(version);
  }

  /** The namespace line, if any, and the line of fixed flags. */
  method AfterHead(ghost c: Command, namespace: string, before: string) returns (buf: string)
    requires c.namespace == namespace && NoEmptyLine(HeadLines(c)) && before == Continued(HeadLines(c))
    ensures NoEmptyLine(HeadLines(c) + NamespaceLines(c) + [WAIT_WORDS])
    ensures buf == Continued(HeadLines(c) + NamespaceLines(c) + [WAIT_WORDS])
  {
    buf := before;
    ghost var lines := HeadLines(c);
    if namespace != "" {
      var line := "--namespace" + " " + namespace + " " + "--create-namespace";
      buf := buf + (INDENT + line) + CONTINUATION;
      NamespaceText(c);
    } else {
      assert lines + NamespaceLines(c) == lines;
    }
    lines := lines + NamespaceLines(c);
    WaitText();
    ContinuedLine(lines, WAIT_WORDS);
    hide Continued, NamespaceLines, HeadLines;
    buf := buf + (INDENT + "--wait --debug --burst-limit=1000") + CONTINUATION;
  }

  lemma NamespaceText(c: Command)
    requires c.namespace != "" && NoEmptyLine(HeadLines(c))
    ensures NoEmptyLine(HeadLines(c) + NamespaceLines(c))
    ensures Continued(HeadLines(c) + NamespaceLines(c)) ==
            Continued(HeadLines(c)) + (INDENT + ("--namespace" + " " + c.namespace + " " + "--create-namespace")) + CONTINUATION
  {
    JoinThree("--namespace", c.namespace, "--create-namespace");
    ContinuedLine(HeadLines(c), ["--namespace", c.namespace, "--create-namespace"]);
  }

  lemma NextSet(head: seq<seq<string>>, values: seq<string>, i: nat)
    requires i < |values| && head != [] && NoEmptyLine(head + SetLines(values[..i]))
    ensures var before, after := head + SetLines(values[..i]), head + SetLines(values[..i + 1]);
            && NoEmptyLine(after)
            && Continued(after) == Continued(before) + (INDENT + ("--set" + " " + values[i])) + CONTINUATION
  {
    var before := head + SetLines(values[..i]);
    JoinTwo("--set", values[i]);
    ContinuedLine(before, ["--set", values[i]]);
    assert values[..i + 1][..i] == values[..i];
    assert head + SetLines(values[..i + 1]) == before + [["--set", values[i]]];
    hide Continued, SetLines, NoEmptyLine;
  }

  /** One line for each set value, up to the first with a newline in it. */
  method PrintSets(ghost head: seq<seq<string>>, before: string, values: seq<string>)
    returns (r: Result<string, PrintError>)
    requires head != [] && NoEmptyLine(head) && before == Continued(head)
    ensures r.Ok? <==> forall i :: 0 <= i < |values| ==> '\n' !in values[i]
    ensures r.Ok? ==> NoEmptyLine(head + SetLines(values)) && r.value == Continued(head + SetLines(values))
    ensures r.Err? ==> FirstNewline(values, r.error)
  {
    var buf := before;
    var i := 0;
    assert head + SetLines([]) == head;
    hide Continued, SetLines, NoEmptyLine;
    while i < |values|
      invariant i <= |values| && forall k :: 0 <= k < i ==> '\n' !in values[k]
      invariant NoEmptyLine(head + SetLines(values[..i])) && buf == Continued(head + SetLines(values[..i]))
    {
      var v := values[i];
      if '\n' in v {
        return Err(NewlineInValue(v[..Index(v, '=')]));
      }
      var line := "--set" + " " + v;
      buf := buf + (INDENT + line) + CONTINUATION;
      NextSet(head, values, i);
      i := i + 1;
    }
    assert values[..i] == values;
    return Ok(buf);
  }
}
