// The `generate_from_config` endpoint: every stored configuration named in
// the request is rendered as HTML, PDF and flipbook, and the outcome of
// each attempt is tallied. The settings store and the report generator are
// the services' objects; the clock reading that may name an unnamed
// report comes in as a parameter.

module GenerateFromConfig {
  import opened Php
  import opened Common
  import opened ReportConfig
  import opened Generator
  import opened Settings
  import Renderers

  /** The `ids` member of the JSON body: absent or null, one id, or a list of ids. */
  datatype IdsField = Absent | One(id: int) | Many(ids: seq<int>)

  /** `!isset($input['ids']) || empty($input['ids'])`. */
  predicate IdsMissing(f: IdsField)
  {
    f.Absent? || (f.One? && f.id == 0) || (f.Many? && f.ids == [])
  }

  /** The ids the loop visits: a single id is wrapped in a list. */
  function IdList(f: IdsField): seq<int>
  {
    match f
    case Absent => []
    case One(id) => [id]
    case Many(ids) => ids
  }

  /** `$results`: the titles generated per type, and the failure lines. */
  datatype Tally = Tally(html: seq<string>, pdf: seq<string>, flipbook: seq<string>, failed: seq<string>)

  const NoResults := Tally([], [], [], [])

  /** The generator configuration built from a stored report; its file name is sanitised. */
  function StoredConfig(rep: Report, now: nat): Config
  {
    Config(
      Sanitize(rep.fileName, now),
      Some(rep.title),
      Some(rep.author),
      rep.numberOfStocks,
      rep.dataSource,
      rep.images.article,
      rep.images.cover,
      Some(rep.templates.intro),
      Some(rep.templates.stockBlock),
      Some(rep.templates.disclaimer))
  }

  /** What `getConfigurationById` hands the loop: the report, or None on any failure. */
  function Found(file: FileState, reports: seq<Report>, id: int): Option<Report>
  {
    if file == Present then ById(reports, id) else None
  }

  function NotFound(id: int): string
  {
    "Config ID " + IntToString(id) + " (not found)"
  }

  /** The title goes to `generated[type]` on success, a failure line to `failed` otherwise. */
  function Attempt(title: string, opening: string, g: GenResult): (r: (seq<string>, seq<string>))
    ensures |r.0| + |r.1| == 1
  {
    if g.success then ([title], []) else ([], [title + opening + g.message + ")"])
  }

  /** One pass of the loop. */
  function Step(t: Tally, found: Option<Report>, id: int, env: Env, now: nat): Tally
  {
    match found
    case None => t.(failed := t.failed + [NotFound(id)])
    case Some(rep) =>
      var c := StoredConfig(rep, now);
      var h := Attempt(rep.title, " (HTML: ", HtmlResult(c, env));
      var p := Attempt(rep.title, " (PDF: ", PdfResult(c, env));
      var f := Attempt(rep.title, " (Flipbook: ", FlipbookResult(c, env));
      Tally(t.html + h.0, t.pdf + p.0, t.flipbook + f.0, t.failed + h.1 + p.1 + f.1)
  }

  /** The tally after the loop has visited `ids` in order. */
  function Tallied(file: FileState, reports: seq<Report>, ids: seq<int>, env: Env, now: nat): (r: Tally)
    ensures |r.html| <= |ids| && |r.pdf| <= |ids| && |r.flipbook| <= |ids|
    ensures |ids| <= |r.failed| + |r.html| + |r.pdf| + |r.flipbook| <= 3 * |ids|
    decreases |ids|
  {
    if ids == [] then NoResults
    else
      var last := ids[|ids| - 1];
      Step(Tallied(file, reports, ids[..|ids| - 1], env, now), Found(file, reports, last), last, env, now)
  }

  function CompletionMessage(t: Tally): string
  {
    "Report generation completed." + (if t.failed != [] then " Some reports failed to generate." else "")
  }

  function JsonTexts(xs: seq<string>): Json
  {
    JList(seq(|xs|, i requires 0 <= i < |xs| => JStr(xs[i])))
  }

  function TallyJson(t: Tally): Json
  {
    JObject([("generated", JObject([("html", JsonTexts(t.html)), ("pdf", JsonTexts(t.pdf)),
                                    ("flipbook", JsonTexts(t.flipbook))])),
             ("failed", JsonTexts(t.failed))])
  }

  /** The whole endpoint as a function of the request and the stored data. */
  function BatchResponse(field: IdsField, file: FileState, reports: seq<Report>, env: Env, now: nat): Response
  {
    if IdsMissing(field) then Error("Missing required field: ids (array of configuration IDs)")
    else
      var t := Tallied(file, reports, IdList(field), env, now);
      Success(Some(CompletionMessage(t)), Some(TallyJson(t)))
  }

  /** The three generators on one configuration. */
  method GenerateThree(gen: ReportGenerator, c: Config, env: Env) returns (h: GenResult, p: GenResult, f: GenResult)
    modifies gen
    ensures h == HtmlResult(c, env) && p == PdfResult(c, env) && f == FlipbookResult(c, env)
  {
    hide Renderers.HtmlBody, Renderers.PdfDocument, Renderers.FlipbookDocument;
    h := gen.GenerateHtml(c, env);
    p := gen.GeneratePdf(c, env);
    f := gen.GenerateFlipbook(c, env);
  }

  /** One pass of the loop: look the id up, then try the three generators. */
  method Visit(settings: ReportSettings, gen: ReportGenerator, results: Tally, id: int, env: Env, now: nat)
    returns (next: Tally)
    modifies gen
    ensures next == Step(results, Found(settings.file, settings.reports, id), id, env, now)
  {
    hide HtmlResult, PdfResult, FlipbookResult, StoredConfig;
    var configResult := settings.GetConfigurationById(id);
    if !configResult.success {
      return results.(failed := results.failed + [NotFound(id)]);
    }
    var rep := configResult.data.value;
    var config := StoredConfig(rep, now);
    var htmlResult, pdfResult, flipbookResult := GenerateThree(gen, config, env);
    var html := results.html;
    var pdf := results.pdf;
    var flipbook := results.flipbook;
    var failed := results.failed;
    if htmlResult.success {
      html := html + [rep.title];
    } else {
      failed := failed + [rep.title + " (HTML: " + htmlResult.message + ")"];
    }
    if pdfResult.success {
      pdf := pdf + [rep.title];
    } else {
      failed := failed + [rep.title + " (PDF: " + pdfResult.message + ")"];
    }
    if flipbookResult.success {
      flipbook := flipbook + [rep.title];
    } else {
      failed := failed + [rep.title + " (Flipbook: " + flipbookResult.message + ")"];
    }
    next := Tally(html, pdf, flipbook, failed);
  }

  /** The endpoint, on the settings store and a report generator. */
  method GenerateFromConfigEndpoint(settings: ReportSettings, gen: ReportGenerator, field: IdsField, env: Env, now: nat)
    returns (resp: Response)
    modifies gen
    ensures resp == BatchResponse(field, settings.file, settings.reports, env, now)
  {
    hide Step;
    if field.Absent? || (field.One? && field.id == 0) || (field.Many? && field.ids == []) {
      return Error("Missing required field: ids (array of configuration IDs)");
    }
    var ids := IdList(field);
    var results := NoResults;
    for i := 0 to |ids|
      invariant results == Tallied(settings.file, settings.reports, ids[..i], env, now)
    {
      assert ids[..i + 1][..i] == ids[..i];
      results := Visit(settings, gen, results, ids[i], env, now);
    }
    assert ids[..|ids|] == ids;
    assert results == Tallied(settings.file, settings.reports, IdList(field), env, now);
    var message := "Report generation completed.";
    if |results.failed| > 0 {
      message := message + " Some reports failed to generate.";
    }
    assert message == CompletionMessage(results);
    resp := Success(Some(message), Some(TallyJson(results)));
  }

  // ---------------------------------------------------------------------
  // Properties

  function TallyConcat(a: Tally, b: Tally): Tally
  {
    Tally(a.html + b.html, a.pdf + b.pdf, a.flipbook + b.flipbook, a.failed + b.failed)
  }

  lemma {:induction false} StepTallyConcat(a: Tally, b: Tally, found: Option<Report>, id: int, env: Env, now: nat)
    ensures Step(TallyConcat(a, b), found, id, env, now) == TallyConcat(a, Step(b, found, id, env, now))
  {
    hide HtmlResult, PdfResult, FlipbookResult, Attempt, StoredConfig, NotFound;
    match found
    case None =>
      assert (a.failed + b.failed) + [NotFound(id)] == a.failed + (b.failed + [NotFound(id)]);
    case Some(rep) =>
      var c := StoredConfig(rep, now);
      var h := Attempt(rep.title, " (HTML: ", HtmlResult(c, env));
      var p := Attempt(rep.title, " (PDF: ", PdfResult(c, env));
      var f := Attempt(rep.title, " (Flipbook: ", FlipbookResult(c, env));
      assert (a.html + b.html) + h.0 == a.html + (b.html + h.0);
      assert (a.pdf + b.pdf) + p.0 == a.pdf + (b.pdf + p.0);
      assert (a.flipbook + b.flipbook) + f.0 == a.flipbook + (b.flipbook + f.0);
      assert (a.failed + b.failed) + h.1 + p.1 + f.1 == a.failed + (b.failed + h.1 + p.1 + f.1);
  }

  /**
   * The ids are handled one after another: the tally of a longer list is
   * the tally of its first part followed by that of the rest.
   */
  lemma {:induction false} TalliedAppend(file: FileState, reports: seq<Report>, xs: seq<int>, ys: seq<int>, env: Env, now: nat)
    ensures Tallied(file, reports, xs + ys, env, now)
         == TallyConcat(Tallied(file, reports, xs, env, now), Tallied(file, reports, ys, env, now))
    decreases |ys|
  {
    hide Step;
    var a := Tallied(file, reports, xs, env, now);
    if ys == [] {
      assert xs + ys == xs;
      assert TallyConcat(a, NoResults) == a;
    } else {
      var last := ys[|ys| - 1];
      var init := ys[..|ys| - 1];
      assert (xs + ys)[..|xs + ys| - 1] == xs + init;
      TalliedAppend(file, reports, xs, init, env, now);
      StepTallyConcat(a, Tallied(file, reports, init, env, now), Found(file, reports, last), last, env, now);
    }
  }

  /** How many of the ids do not resolve to a stored report. */
  function Unresolved(file: FileState, reports: seq<Report>, ids: seq<int>): nat
    decreases |ids|
  {
    if ids == [] then 0
    else Unresolved(file, reports, ids[..|ids| - 1]) + (if Found(file, reports, ids[|ids| - 1]).None? then 1 else 0)
  }

  /**
   * Every resolved id makes three attempts, each of which lands in exactly
   * one list; every unresolved id makes one failure line.
   */
  lemma {:induction false} TallySize(file: FileState, reports: seq<Report>, ids: seq<int>, env: Env, now: nat)
    ensures var t := Tallied(file, reports, ids, env, now);
            |t.html| + |t.pdf| + |t.flipbook| + |t.failed| == 3 * |ids| - 2 * Unresolved(file, reports, ids)
    ensures Unresolved(file, reports, ids) <= |ids|
    ensures |Tallied(file, reports, ids, env, now).html| <= |ids| - Unresolved(file, reports, ids)
    decreases |ids|
  {
    hide HtmlResult, PdfResult, FlipbookResult;
    if ids != [] {
      TallySize(file, reports, ids[..|ids| - 1], env, now);
    }
  }

  /** The last id is handled after all the others. */
  lemma TalliedLast(file: FileState, reports: seq<Report>, ids: seq<int>, env: Env, now: nat)
    requires ids != []
    ensures Tallied(file, reports, ids, env, now)
         == Step(Tallied(file, reports, ids[..|ids| - 1], env, now), Found(file, reports, ids[|ids| - 1]),
                 ids[|ids| - 1], env, now)
  {
  }

  /** An id without a stored report adds one failure line and nothing else. */
  lemma StepNotFound(t: Tally, id: int, env: Env, now: nat)
    ensures Step(t, None, id, env, now) == t.(failed := t.failed + [NotFound(id)])
  {
  }

  /** Without a readable settings file every id fails as not found, in order. */
  lemma {:induction false} TallyWithoutFile(file: FileState, reports: seq<Report>, ids: seq<int>, env: Env, now: nat)
    requires file != Present
    ensures var t := Tallied(file, reports, ids, env, now);
            t.html == [] && t.pdf == [] && t.flipbook == []
            && |t.failed| == |ids| && forall i :: 0 <= i < |ids| ==> t.failed[i] == NotFound(ids[i])
    decreases |ids|
  {
    hide ById, IndexOf, HtmlResult, PdfResult, FlipbookResult, StoredConfig, Attempt;
    if ids != [] {
      var init := ids[..|ids| - 1];
      var last := ids[|ids| - 1];
      var before := Tallied(file, reports, init, env, now);
      assert Found(file, reports, last) == None;
      hide Step, Found, NotFound, Tallied;
      TalliedLast(file, reports, ids, env, now);
      TallyWithoutFile(file, reports, init, env, now);
      StepNotFound(before, last, env, now);
      var t := Tallied(file, reports, ids, env, now);
      var fs := before.failed + [NotFound(last)];
      assert t.html == [] && t.pdf == [] && t.flipbook == [] && t.failed == fs;
      forall i | 0 <= i < |ids| ensures fs[i] == NotFound(ids[i]) {
        if i < |init| {
          assert fs[i] == before.failed[i] && ids[i] == init[i];
        } else {
          assert i == |init| && fs[i] == NotFound(last);
        }
      }
    }
  }

  /** A configuration whose data file is missing fails all three types with the generator's message. */
  lemma MissingDataSource(rep: Report, id: int, t: Tally, env: Env, now: nat)
    requires rep.dataSource !in env.files
    ensures var s := Step(t, Some(rep), id, env, now);
            var m := "Data source file not found: " + rep.dataSource;
            s.html == t.html && s.pdf == t.pdf && s.flipbook == t.flipbook
            && s.failed == t.failed + [rep.title + " (HTML: " + m + ")",
                                      rep.title + " (PDF: " + m + ")",
                                      rep.title + " (Flipbook: " + m + ")"]
  {
    var m := "Data source file not found: " + rep.dataSource;
    var x, y, z := rep.title + " (HTML: " + m + ")", rep.title + " (PDF: " + m + ")", rep.title + " (Flipbook: " + m + ")";
    assert t.failed + [x] + [y] + [z] == t.failed + [x, y, z];
  }

  /** The message says that some reports failed exactly when a failure was recorded. */
  lemma CompletionMessageIff(t: Tally)
    ensures CompletionMessage(t) == "Report generation completed." <==> t.failed == []
  {
    if t.failed != [] {
      assert |CompletionMessage(t)| > |"Report generation completed."|;
    }
  }

  /** A stored report is always generated under a clean file name. */
  lemma StoredConfigClean(rep: Report, now: nat)
    ensures CleanName(StoredConfig(rep, now).fileName)
    ensures StoredConfig(rep, now).fileName == Sanitize(StoredConfig(rep, now).fileName, now)
  {
    SanitizeClean(rep.fileName, now);
    SanitizeIdempotent(rep.fileName, now);
  }

  /** A request with ids always succeeds, whatever happened to each id. */
  lemma BatchAlwaysSucceeds(field: IdsField, file: FileState, reports: seq<Report>, env: Env, now: nat)
    ensures BatchResponse(field, file, reports, env, now).success <==> !IdsMissing(field)
    ensures !IdsMissing(field) ==> |IdList(field)| > 0
  {
  }
}
