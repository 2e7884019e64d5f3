// The `generate_reports` endpoint: one report from the form, of the type
// the form asks for. The request is the POST fields and the two image
// uploads; the clock reading and the two `mt_rand` draws that name the
// stored images come in as parameters.

module GenerateReports {
  import opened Php
  import opened Common
  import opened ReportConfig
  import opened Generator
  import Renderers

  /** The fields the endpoint insists on. */
  const RequiredFields: seq<string> := ["file_name", "stock_count"]

  /**
   * The endpoint's own `handleImageUpload($fileInput, $targetDir, $prefix)`:
   * the checks of the shared one, but the image is stored as
   * `<prefix>_<time>_<rand>.<ext>`.
   */
  function UploadedImage(f: Option<ImageFile>, prefix: string, time: int, rand: int): (r: Option<string>)
    ensures r.Some? <==> f.Some? && ImageAccepted(f.value) && f.value.moved
  {
    if f.None? || f.value.error == UploadErrNoFile then None
    else if f.value.error != UploadErrOk then None
    else if f.value.size > MaxImageSize then None
    else if f.value.mime !in AllowedImageTypes then None
    else if f.value.moved then
      Some(prefix + "_" + IntToString(time) + "_" + IntToString(rand) + "." + Extension(f.value.name))
    else None
  }

  /** A stored image keeps the upload's extension and starts with its prefix. */
  lemma UploadedImageName(f: ImageFile, prefix: string, time: int, rand: int)
    requires ImageAccepted(f) && f.moved
    ensures var r := UploadedImage(Some(f), prefix, time, rand);
            r.Some? && Extension(r.value) == Extension(f.name)
            && |r.value| > |prefix| && r.value[..|prefix| + 1] == prefix + "_"
  {
    hide Extension;
    var stem := prefix + "_" + IntToString(time) + "_" + IntToString(rand);
    var ext := Extension(f.name);
    ExtensionOf(stem, ext);
    assert UploadedImage(Some(f), prefix, time, rand) == Some(stem + "." + ext);
    assert (stem + "." + ext)[..|prefix| + 1] == prefix + "_";
  }

  /** A new upload wins; without one, a non-empty `*_existing` field is kept. */
  function ChosenImage(uploaded: Option<string>, existing: Option<string>): (r: Option<string>)
    ensures uploaded.Some? ==> r == uploaded
    ensures uploaded.None? ==> (r.Some? <==> !EmptyOpt(existing))
    ensures uploaded.None? && r.Some? ==> r == existing
  {
    if uploaded.None? && !EmptyOpt(existing) then existing else uploaded
  }

  /** The `$config` array the endpoint builds from the picked form fields. */
  function FormConfig(input: Assoc<string>, article: Option<ImageFile>, cover: Option<ImageFile>,
                      time: int, rands: (int, int)): Config
  {
    Config(
      Trim(Lookup(input, "file_name").GetOr(""), WhiteSpace),
      Some(Lookup(input, "report_title").GetOr("Stock Report")),
      Some(Lookup(input, "author_name").GetOr("")),
      Intval(Lookup(input, "stock_count").GetOr("")),
      Lookup(input, "data_source").GetOr("data.csv"),
      ChosenImage(UploadedImage(article, "article", time, rands.0), Lookup(input, "article_image_existing")),
      ChosenImage(UploadedImage(cover, "cover", time, rands.1), Lookup(input, "pdf_cover_existing")),
      Some(Lookup(input, "report_intro_html").GetOr("")),
      Some(Lookup(input, "stock_block_html").GetOr("")),
      Some(Lookup(input, "disclaimer_html").GetOr("")))
  }

  /** The generated and failed maps with their values as JSON strings. */
  function JsonStrings(a: Assoc<string>): (r: Assoc<Json>)
    ensures |r| == |a|
    ensures forall i :: 0 <= i < |a| ==> r[i] == (a[i].0, JStr(a[i].1))
  {
    if a == [] then [] else [(a[0].0, JStr(a[0].1))] + JsonStrings(a[1..])
  }

  lemma {:induction false} JsonStringsLookup(a: Assoc<string>, k: string)
    ensures Lookup(JsonStrings(a), k) == match Lookup(a, k) case Some(v) => Some(JStr(v)) case None => None
  {
    if a != [] {
      JsonStringsLookup(a[1..], k);
      assert JsonStrings(a)[1..] == JsonStrings(a[1..]);
    }
  }

  /** The response for one document: its file and type, or the generator's message. */
  function Single(reportType: string, g: GenResult): Response
  {
    if !g.success then Error(g.message)
    else if g.file.Some? then
      Success(Some(g.message), Some(JObject([("file", JStr(g.file.value)), ("type", JStr(reportType))])))
    else Success(Some(g.message), Some(JObject([])))
  }

  /**
   * The response for `all`: the generated files with a `failed` entry added.
   * `generateAll` returns no message, so none is sent, on failure too.
   */
  function Combined(a: AllResult): Response
  {
    if a.success then Success(None, Some(JObject(Put(JsonStrings(a.generated), "failed", JObject(JsonStrings(a.failed))))))
    else Response(false, None, None)
  }

  /** The `switch ($reportType)` and the response it leads to. */
  function Dispatched(reportType: string, c: Config, env: Env): Response
  {
    if reportType == "html" then Single(reportType, HtmlResult(c, env))
    else if reportType == "pdf" then Single(reportType, PdfResult(c, env))
    else if reportType == "flipbook" then Single(reportType, FlipbookResult(c, env))
    else if reportType == "all" then Combined(Collect(HtmlResult(c, env), PdfResult(c, env), FlipbookResult(c, env)))
    else Error("Unknown report type: " + reportType)
  }

  /** The whole endpoint as a function of the request and the environment. */
  function ReportsResponse(post: Assoc<string>, article: Option<ImageFile>, cover: Option<ImageFile>,
                           env: Env, time: int, rands: (int, int)): (r: Response)
    ensures r.success ==> Lookup(post, "file_name").Some? && Trim(Lookup(post, "file_name").value, WhiteSpace) != ""
    ensures r.success ==> Lookup(post, "stock_count").Some? && Trim(Lookup(post, "stock_count").value, WhiteSpace) != ""
  {
    MissingFromPost(post, "file_name");
    MissingFromPost(post, "stock_count");
    var input := Picked(post, GenerateFields);
    var missing := MissingFields(input, RequiredFields);
    if missing != [] then Error("Missing required fields: " + Join(missing, ", "))
    else Dispatched(Lookup(input, "report_type").GetOr("html"), FormConfig(input, article, cover, time, rands), env)
  }

  /** The `switch ($reportType)`, run on a report generator. */
  method Dispatch(gen: ReportGenerator, reportType: string, config: Config, env: Env) returns (resp: Response)
    modifies gen
    ensures resp == Dispatched(reportType, config, env)
  {
    hide Renderers.HtmlBody, Renderers.PdfDocument, Renderers.FlipbookDocument;
    if reportType == "html" {
      var g := gen.GenerateHtml(config, env);
      resp := Single(reportType, g);
    } else if reportType == "pdf" {
      var g := gen.GeneratePdf(config, env);
      resp := Single(reportType, g);
    } else if reportType == "flipbook" {
      var g := gen.GenerateFlipbook(config, env);
      resp := Single(reportType, g);
    } else if reportType == "all" {
      var a := gen.GenerateAll(config, env);
      resp := Combined(a);
    } else {
      resp := Error("Unknown report type: " + reportType);
    }
  }

  /** The endpoint, driving a report generator. */
  method GenerateReportsEndpoint(gen: ReportGenerator, post: Assoc<string>, article: Option<ImageFile>,
                                 cover: Option<ImageFile>, env: Env, time: int, rands: (int, int))
    returns (resp: Response)
    modifies gen
    ensures resp == ReportsResponse(post, article, cover, env, time, rands)
  {
    var input := GetFormInput(post, GenerateFields);
    var valid, missing := ValidateRequired(input, RequiredFields);
    if !valid {
      return Error("Missing required fields: " + Join(missing, ", "));
    }
    var config := FormConfig(input, article, cover, time, rands);
    var reportType := Lookup(input, "report_type").GetOr("html");
    resp := Dispatch(gen, reportType, config, env);
  }

  // ---------------------------------------------------------------------
  // Loading the script

  /** The functions `common.php` declares at its top level, in order. */
  const CommonFunctions: seq<string> :=
    ["sendResponse", "sendSuccess", "sendError", "getJsonInput", "getFormInput",
     "validateRequired", "logDebug", "sanitizeFilename", "buildImageFilename", "handleImageUpload"]

  /**
   * PHP binds a script's unconditional top-level functions when it compiles
   * the script, before the first statement runs; `require_once` of
   * `common.php` then fails with "Cannot redeclare" if one of its functions
   * already exists. Function names are compared without regard to case.
   */
  predicate LoadsCommon(own: seq<string>)
  {
    forall n, m :: n in own && m in CommonFunctions ==> ToLower(n) != ToLower(m)
  }

  /** The endpoint as served: nothing at all when the script fails to load, the JSON answer otherwise. */
  function Served(own: seq<string>, post: Assoc<string>, article: Option<ImageFile>, cover: Option<ImageFile>,
                  env: Env, time: int, rands: (int, int)): (r: Option<Response>)
    ensures r.Some? <==> LoadsCommon(own)
  {
    if LoadsCommon(own) then Some(ReportsResponse(post, article, cover, env, time, rands)) else None
  }

  /** The endpoint's own top-level functions as written: `handleImageUpload` (line 27). */
  const OwnFunctionsAsWritten: seq<string> := ["handleImageUpload"]

  /**
   * As written, the endpoint's `handleImageUpload` clashes with the one in
   * `common.php`, so the script stops before it reads the request and no
   * request gets a JSON answer.
   */
  lemma AsWrittenNeverResponds(post: Assoc<string>, article: Option<ImageFile>, cover: Option<ImageFile>,
                               env: Env, time: int, rands: (int, int))
    ensures Served(OwnFunctionsAsWritten, post, article, cover, env, time, rands).None?
  {
    var n := OwnFunctionsAsWritten[0];
    assert n == CommonFunctions[9];
    assert n in OwnFunctionsAsWritten && n in CommonFunctions && ToLower(n) == ToLower(n);
  }

  /**
   * With its upload helper under a name `common.php` does not use, the
   * endpoint loads and answers every request with `ReportsResponse`, the
   * behaviour the rest of this module models.
   */
  lemma RenamedHelperResponds(helper: string, post: Assoc<string>, article: Option<ImageFile>,
                              cover: Option<ImageFile>, env: Env, time: int, rands: (int, int))
    requires forall m :: m in CommonFunctions ==> ToLower(helper) != ToLower(m)
    ensures Served([helper], post, article, cover, env, time, rands)
            == Some(ReportsResponse(post, article, cover, env, time, rands))
  {
  }

  // ---------------------------------------------------------------------
  // Properties

  lemma RequiredPicked()
    ensures forall f :: f in RequiredFields ==> f in GenerateFields
  {
    assert GenerateFields[1] == "file_name" && GenerateFields[4] == "stock_count";
  }

  /**
   * The error lists exactly the required fields that POST lacks or leaves
   * blank, in the order they are required.
   */
  lemma MissingFromPost(post: Assoc<string>, f: string)
    ensures f in MissingFields(Picked(post, GenerateFields), RequiredFields)
        <==> f in RequiredFields && (Lookup(post, f).None? || Trim(Lookup(post, f).value, WhiteSpace) == "")
  {
    MissingFieldsIff(Picked(post, GenerateFields), RequiredFields, f);
    PickedLookup(post, GenerateFields, f);
    RequiredPicked();
  }

  /** With both required fields given, the request is never refused as incomplete. */
  lemma CompleteRequest(post: Assoc<string>, article: Option<ImageFile>, cover: Option<ImageFile>,
                        env: Env, time: int, rands: (int, int))
    requires forall f :: f in RequiredFields ==>
               Lookup(post, f).Some? && Trim(Lookup(post, f).value, WhiteSpace) != ""
    ensures var input := Picked(post, GenerateFields);
            ReportsResponse(post, article, cover, env, time, rands)
            == Dispatched(Lookup(input, "report_type").GetOr("html"), FormConfig(input, article, cover, time, rands), env)
  {
    var missing := MissingFields(Picked(post, GenerateFields), RequiredFields);
    if missing != [] {
      assert missing[0] in missing;
      MissingFromPost(post, missing[0]);
    }
  }

  /** An unknown report type is refused by name, whatever the generator would do. */
  lemma UnknownType(t: string, c: Config, env: Env)
    requires t != "html" && t != "pdf" && t != "flipbook" && t != "all"
    ensures Dispatched(t, c, env) == Error("Unknown report type: " + t)
  {
  }

  /**
   * A single document succeeds exactly when its generator does, and then
   * sends the generated file's name and the type.
   */
  lemma SingleDocument(c: Config, env: Env)
    ensures Dispatched("html", c, env).success <==> c.dataSource in env.files && env.htmlWritable
    ensures Dispatched("html", c, env).success ==>
              Dispatched("html", c, env).data == Some(JObject([("file", JStr(c.fileName + ".html")), ("type", JStr("html"))]))
    ensures Dispatched("pdf", c, env).success <==> c.dataSource in env.files && env.pdf == Created
    ensures Dispatched("pdf", c, env).success ==>
              Dispatched("pdf", c, env).data == Some(JObject([("file", JStr(c.fileName + ".pdf")), ("type", JStr("pdf"))]))
    ensures Dispatched("flipbook", c, env).success <==> c.dataSource in env.files && env.flipbookWritable
    ensures Dispatched("flipbook", c, env).success ==>
              Dispatched("flipbook", c, env).data
              == Some(JObject([("file", JStr(c.fileName + "/index.html")), ("type", JStr("flipbook"))]))
    ensures forall t :: t in ["html", "pdf", "flipbook"] && !Dispatched(t, c, env).success ==>
              Dispatched(t, c, env).data.None? && Dispatched(t, c, env).message.Some?
  {
  }

  /**
   * `all` succeeds exactly when the HTML document does; then every target
   * is listed under its name or under `failed`, and no message is sent.
   */
  lemma AllDocuments(c: Config, env: Env)
    ensures var r := Dispatched("all", c, env);
            (r.success <==> HtmlResult(c, env).success) && r.message.None?
    ensures var r := Dispatched("all", c, env);
            var a := Collect(HtmlResult(c, env), PdfResult(c, env), FlipbookResult(c, env));
            r.success ==>
              r.data.Some? && r.data.value.JObject?
              && Lookup(r.data.value.fields, "failed") == Some(JObject(JsonStrings(a.failed)))
              && Lookup(r.data.value.fields, "html") == Some(JStr(c.fileName + ".html"))
              && (PdfResult(c, env).success <==> Lookup(r.data.value.fields, "pdf").Some?)
  {
    var a := Collect(HtmlResult(c, env), PdfResult(c, env), FlipbookResult(c, env));
    var g := JsonStrings(a.generated);
    PutLookup(g, "failed", JObject(JsonStrings(a.failed)), "failed");
    PutLookup(g, "failed", JObject(JsonStrings(a.failed)), "html");
    PutLookup(g, "failed", JObject(JsonStrings(a.failed)), "pdf");
    JsonStringsLookup(a.generated, "html");
    JsonStringsLookup(a.generated, "pdf");
  }

  /**
   * The form's fields reach the generator unchanged, with the endpoint's
   * defaults for the absent ones; the file name loses its surrounding
   * white space.
   */
  lemma ConfigFromPost(post: Assoc<string>, article: Option<ImageFile>, cover: Option<ImageFile>,
                       time: int, rands: (int, int))
    ensures var c := FormConfig(Picked(post, GenerateFields), article, cover, time, rands);
            c.fileName == Trim(Lookup(post, "file_name").GetOr(""), WhiteSpace)
            && c.title == Some(Lookup(post, "report_title").GetOr("Stock Report"))
            && c.author == Some(Lookup(post, "author_name").GetOr(""))
            && c.numberOfStocks == Intval(Lookup(post, "stock_count").GetOr(""))
            && c.dataSource == Lookup(post, "data_source").GetOr("data.csv")
            && c.articleImage == ChosenImage(UploadedImage(article, "article", time, rands.0),
                                             Lookup(post, "article_image_existing"))
            && c.pdfCoverImage == ChosenImage(UploadedImage(cover, "cover", time, rands.1),
                                              Lookup(post, "pdf_cover_existing"))
  {
    var fs := GenerateFields;
    assert fs[1] == "file_name" && fs[2] == "report_title" && fs[3] == "author_name";
    assert fs[4] == "stock_count" && fs[5] == "data_source";
    assert fs[9] == "article_image_existing" && fs[10] == "pdf_cover_existing";
    PickedLookup(post, fs, "file_name");
    PickedLookup(post, fs, "report_title");
    PickedLookup(post, fs, "author_name");
    PickedLookup(post, fs, "stock_count");
    PickedLookup(post, fs, "data_source");
    PickedLookup(post, fs, "article_image_existing");
    PickedLookup(post, fs, "pdf_cover_existing");
  }
}
