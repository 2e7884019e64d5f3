// `ReportGeneratorService`: the CSV cache, the three document builders and
// the four generate operations. The file system is a map from report file
// names to contents; what the data directory holds, whether a write
// succeeds and what the PDF converter does come in as an environment.

module Generator {
  import opened Php
  import opened ReportConfig
  import opened Shortcodes
  import opened Csv
  import opened Widgets
  import opened Renderers

  /** What `convertHtmlToPdfWithMpdf` ended with. */
  datatype PdfOutcome =
    | Created             // the converter wrote the file
    | NotCreated          // it returned, but no file exists
    | MpdfError(m: string)  // an `MpdfException` with this message
    | OtherError(m: string) // any other exception with this message

  /**
   * Everything a generate call learns from outside: the clock reading for
   * `[Current Date]`, the data files by `data_source` name, whether the
   * HTML and flipbook files can be written, the converter's outcome and
   * the embedded article image (`getImageAsBase64`, None when absent).
   */
  datatype Env = Env(
    now: string,
    files: map<string, CsvSource>,
    htmlWritable: bool,
    flipbookWritable: bool,
    pdf: PdfOutcome,
    embed: Option<string>)

  /** The `success`/`message`/`file` array one generator returns. */
  datatype GenResult = GenResult(success: bool, message: string, file: Option<string>)

  /** The array `generateAll` returns; `generated` and `failed` keyed by target. */
  datatype AllResult = AllResult(success: bool, generated: Assoc<string>, failed: Assoc<string>)

  function MissingData(c: Config): GenResult
  {
    GenResult(false, "Data source file not found: " + c.dataSource, None)
  }

  /** The records a generator renders, read through the cache. */
  function Stocks(cache: map<string, seq<Record>>, c: Config, env: Env): seq<Record>
    requires c.dataSource in env.files
  {
    CsvResult(cache, c.dataSource, env.files[c.dataSource], Some(c.numberOfStocks))
  }

  /** The cache after a generator read the data file. */
  function CacheAfter(cache: map<string, seq<Record>>, c: Config, env: Env): map<string, seq<Record>>
  {
    if c.dataSource in env.files then CsvCache(cache, c.dataSource, env.files[c.dataSource]) else cache
  }

  /** What `generateHtml` returns. */
  function HtmlResult(c: Config, env: Env): (r: GenResult)
    ensures r.success <==> c.dataSource in env.files && env.htmlWritable
    ensures c.dataSource !in env.files ==> r.message == "Data source file not found: " + c.dataSource
    ensures r.success ==> r.file == Some(c.fileName + ".html")
    ensures !r.success ==> r.file == None
  {
    if c.dataSource !in env.files then MissingData(c)
    else if env.htmlWritable then GenResult(true, "HTML report generated successfully", Some(c.fileName + ".html"))
    else GenResult(false, "Failed to write HTML file", None)
  }

  /** What `generatePdf` returns: the converter's failure message is passed on. */
  function PdfResult(c: Config, env: Env): (r: GenResult)
    ensures r.success <==> c.dataSource in env.files && env.pdf == Created
    ensures c.dataSource !in env.files ==> r.message == "Data source file not found: " + c.dataSource
    ensures r.success ==> r.file == Some(c.fileName + ".pdf")
    ensures !r.success ==> r.file == None
  {
    if c.dataSource !in env.files then MissingData(c)
    else
      match env.pdf
      case Created => GenResult(true, "PDF report generated successfully", Some(c.fileName + ".pdf"))
      case NotCreated => GenResult(false, "PDF file was not created", None)
      case MpdfError(m) => GenResult(false, "mPDF error: " + m, None)
      case OtherError(m) => GenResult(false, "PDF generation error: " + m, None)
  }

  /** What `generateFlipbook` returns. */
  function FlipbookResult(c: Config, env: Env): (r: GenResult)
    ensures r.success <==> c.dataSource in env.files && env.flipbookWritable
    ensures c.dataSource !in env.files ==> r.message == "Data source file not found: " + c.dataSource
    ensures r.success ==> r.file == Some(c.fileName + "/index.html")
    ensures !r.success ==> r.file == None
  {
    if c.dataSource !in env.files then MissingData(c)
    else if env.flipbookWritable then
      GenResult(true, "Flipbook report generated successfully", Some(c.fileName + "/index.html"))
    else GenResult(false, "Failed to write flipbook file", None)
  }

  /** Files a result under `generated` (its file) or `failed` (its message). */
  function Filed(acc: AllResult, target: string, r: GenResult): AllResult
  {
    if r.success then acc.(generated := Put(acc.generated, target, r.file.GetOr("")))
    else acc.(failed := Put(acc.failed, target, r.message))
  }

  /** `target` is under `generated` with its file, or under `failed` with its message. */
  predicate FiledAs(r: AllResult, target: string, g: GenResult)
  {
    Lookup(r.generated, target) == (if g.success then Some(g.file.GetOr("")) else None)
    && Lookup(r.failed, target) == (if g.success then None else Some(g.message))
  }

  lemma FiledLookup(acc: AllResult, target: string, g: GenResult, t: string)
    ensures Filed(acc, target, g).success == acc.success
    ensures Lookup(Filed(acc, target, g).generated, t)
         == if t == target && g.success then Some(g.file.GetOr("")) else Lookup(acc.generated, t)
    ensures Lookup(Filed(acc, target, g).failed, t)
         == if t == target && !g.success then Some(g.message) else Lookup(acc.failed, t)
  {
    PutLookup(acc.generated, target, g.file.GetOr(""), t);
    PutLookup(acc.failed, target, g.message, t);
  }

  /**
   * `generateAll`'s bookkeeping: each target is filed under exactly one of
   * `generated` and `failed`, with its file or its message, nothing else is
   * filed, and only an HTML failure clears `success`.
   */
  function Collect(html: GenResult, pdf: GenResult, flip: GenResult): (r: AllResult)
    ensures r.success <==> html.success
    ensures FiledAs(r, "html", html) && FiledAs(r, "pdf", pdf) && FiledAs(r, "flipbook", flip)
    ensures forall t :: t != "html" && t != "pdf" && t != "flipbook" ==>
              Lookup(r.generated, t) == None && Lookup(r.failed, t) == None
  {
    hide Filed, Lookup;
    var start := AllResult(html.success, [], []);
    var a := Filed(start, "html", html);
    var b := Filed(a, "pdf", pdf);
    var r := Filed(b, "flipbook", flip);
    FiledLookup(start, "html", html, "html");
    FiledLookup(a, "pdf", pdf, "html");
    FiledLookup(b, "flipbook", flip, "html");
    FiledLookup(start, "html", html, "pdf");
    FiledLookup(a, "pdf", pdf, "pdf");
    FiledLookup(b, "flipbook", flip, "pdf");
    FiledLookup(start, "html", html, "flipbook");
    FiledLookup(a, "pdf", pdf, "flipbook");
    FiledLookup(b, "flipbook", flip, "flipbook");
    assert forall t :: t != "html" && t != "pdf" && t != "flipbook" ==>
             Lookup(r.generated, t) == None && Lookup(r.failed, t) == None by {
      forall t | t != "html" && t != "pdf" && t != "flipbook"
        ensures Lookup(r.generated, t) == None && Lookup(r.failed, t) == None
      {
        FiledLookup(start, "html", html, t);
        FiledLookup(a, "pdf", pdf, t);
        FiledLookup(b, "flipbook", flip, t);
      }
    }
    r
  }

  /** The reports directory after a successful write, or unchanged. */
  function WriteIf(files: map<string, string>, ok: bool, name: string, contents: string): map<string, string>
  {
    if ok then files[name := contents] else files
  }

  /**
   * The stock-block loop of `generateHtml` and `buildPdfHtml`: one piece
   * per record appended to `head`, in record order.
   */
  method AppendEach(head: string, piece: Record -> string, xs: seq<Record>) returns (r: string)
    ensures r == head + Joined(piece, xs)
  {
    r := head;
    for i := 0 to |xs|
      invariant r == head + Joined(piece, xs[..i])
    {
      assert xs[..i + 1][..i] == xs[..i];
      Assoc3(head, Joined(piece, xs[..i]), piece(xs[i]));
      r := r + piece(xs[i]);
    }
    assert xs[..|xs|] == xs;
  }

  /**
   * The stock-page loop of `buildFlipbookHtml`: `$stockNum` starts at 1 and
   * goes up by one per record.
   */
  method AppendNumbered(head: string, page: (int, Record) -> string, xs: seq<Record>) returns (r: string)
    ensures r == head + Concat(NumberedPages(page, xs))
  {
    r := head;
    var stockNum := 1;
    for i := 0 to |xs|
      invariant stockNum == i + 1
      invariant r == head + Concat(NumberedPages(page, xs[..i]))
    {
      NumberedSnoc(page, xs[..i], xs[i]);
      assert xs[..i] + [xs[i]] == xs[..i + 1];
      Assoc3(head, Concat(NumberedPages(page, xs[..i])), page(stockNum, xs[i]));
      r := r + page(stockNum, xs[i]);
      stockNum := stockNum + 1;
    }
    assert xs[..|xs|] == xs;
  }

  class ReportGenerator {
    /** `$csvData`: parsed records by data file. */
    var csvData: map<string, seq<Record>>
    /** The reports directory: file name to contents. */
    var written: map<string, string>

    constructor()
      ensures csvData == map[] && written == map[]
    {
      csvData := map[];
      written := map[];
    }

    /** `parseCsv($csvFile, $limit)`. */
    method ParseCsv(path: string, src: CsvSource, limit: Option<int>) returns (r: seq<Record>)
      modifies this
      ensures r == CsvResult(old(csvData), path, src, limit)
      ensures csvData == CsvCache(old(csvData), path, src)
      ensures written == old(written)
    {
      var data: seq<Record>;
      if path in csvData {
        data := csvData[path];
      } else {
        if !src.opens {
          return [];
        }
        if src.header.None? {
          return [];
        }
        var headers := CleanHeaders(src.header.value);
        data := [];
        var i := 0;
        while i < |src.rows|
          invariant 0 <= i <= |src.rows|
          invariant data == ParseRows(headers, src.rows[..i])
          invariant unchanged(this)
        {
          var row := src.rows[i];
          ParseRowsSnoc(headers, src.rows[..i], row);
          assert src.rows[..i] + [row] == src.rows[..i + 1];
          if |row| == |headers| {
            data := data + [Combine(headers, row)];
          }
          i := i + 1;
        }
        assert src.rows[..i] == src.rows;
        csvData := csvData[path := data];
      }
      if limit.Some? {
        r := Slice(data, limit);
      } else {
        r := data;
      }
    }

    /** The article body `generateHtml` assembles. */
    method BuildHtml(c: Config, now: string, stocks: seq<Record>) returns (html: string)
      ensures html == HtmlBody(c, now, stocks)
    {
      hide ReplaceShortcodes, DefaultStockBlockTemplate;
      var intro := "";
      if !EmptyOpt(c.intro) {
        var expanded := Expand(c.intro.value, now, c, None);
        intro := expanded + "\n";
      }
      assert intro == IntroPart(c, now);
      html := ArticleOpen() + MainOpen() + "<title></title>" + HtmlImage(c) + intro + "</div><br>";
      assert html == HtmlHead(c, now);
      var t := if !EmptyOpt(c.stockBlock) then c.stockBlock.value else DefaultStockBlockTemplate();
      assert t == BlockTemplate(c);
      html := AppendEach(html, HtmlBlockOf(t, now, c), stocks);
      var disclaimer := "";
      if !EmptyOpt(c.disclaimer) {
        disclaimer := "\n" + c.disclaimer.value + "\n";
      }
      assert disclaimer == DisclaimerPart(c);
      html := html + disclaimer + "</div>";
    }

    /** The document `buildPdfHtml` hands to the converter. */
    method BuildPdfHtml(c: Config, now: string, stocks: seq<Record>, embed: Option<string>) returns (html: string)
      ensures html == PdfDocument(c, now, stocks, embed)
    {
      hide ReplaceShortcodes, DefaultStockBlockTemplate;
      var title := DocumentTitle(c);
      var intro := "";
      if !EmptyOpt(c.intro) {
        var expanded := Expand(c.intro.value, now, c, None);
        intro := expanded + "\n";
      }
      assert intro == IntroPart(c, now);
      var head := ArticleOpen() + MainOpen() + PdfImage(c, embed) + intro + "</div><br>";
      var t := if !EmptyOpt(c.stockBlock) then c.stockBlock.value else DefaultStockBlockTemplate();
      assert t == BlockTemplate(c);
      var body := AppendEach(head, PdfBlockOf(t, now, c), stocks);
      assert body == head + PdfBlocks(BlockTemplate(c), now, c, stocks);
      var disclaimer := "";
      if !EmptyOpt(c.disclaimer) {
        disclaimer := "\n" + c.disclaimer.value + "\n";
      }
      assert disclaimer == DisclaimerPart(c);
      body := body + disclaimer + "</div>";
      assert body == PdfArticleBody(c, now, stocks, embed);
      html := PdfShellOpen() + title + PdfShellMid() + body + PdfShellClose();
    }

    /** The flipbook page `buildFlipbookHtml` assembles. */
    method BuildFlipbookHtml(c: Config, now: string, stocks: seq<Record>) returns (html: string)
      ensures html == FlipbookDocument(c, now, stocks)
    {
      hide CoverPage, DisclaimerPage, IntroPage, DocumentTitle, StockPage, FlipShellOpen, FlipShellMid, FlipShellClose;
      var title := DocumentTitle(c);
      var pages := CoverPage(c) + DisclaimerPage(c) + IntroPage(c, now);
      pages := AppendNumbered(pages, StockPage, stocks);
      assert pages == FlipbookPages(c, now, stocks);
      html := FlipShellOpen() + title + FlipShellMid() + pages + FlipShellClose();
    }

    /** `generateHtml($config)`. */
    method GenerateHtml(c: Config, env: Env) returns (r: GenResult)
      modifies this
      ensures r == HtmlResult(c, env)
      ensures csvData == CacheAfter(old(csvData), c, env)
      ensures c.dataSource in env.files ==>
                written == WriteIf(old(written), env.htmlWritable, c.fileName + ".html",
                                   HtmlBody(c, env.now, Stocks(old(csvData), c, env)))
      ensures c.dataSource !in env.files ==> written == old(written)
    {
      hide HtmlBody;
      if c.dataSource !in env.files {
        return MissingData(c);
      }
      ghost var before := csvData;
      var stocks := ParseCsv(c.dataSource, env.files[c.dataSource], Some(c.numberOfStocks));
      assert stocks == Stocks(before, c, env);
      var html := BuildHtml(c, env.now, stocks);
      if env.htmlWritable {
        written := written[c.fileName + ".html" := html];
        r := GenResult(true, "HTML report generated successfully", Some(c.fileName + ".html"));
      } else {
        r := GenResult(false, "Failed to write HTML file", None);
      }
    }

    /** `generatePdf($config)`: the converted document is stored under the PDF's name. */
    method GeneratePdf(c: Config, env: Env) returns (r: GenResult)
      modifies this
      ensures r == PdfResult(c, env)
      ensures csvData == CacheAfter(old(csvData), c, env)
      ensures c.dataSource in env.files ==>
                written == WriteIf(old(written), env.pdf == Created, c.fileName + ".pdf",
                                   PdfDocument(c, env.now, Stocks(old(csvData), c, env), env.embed))
      ensures c.dataSource !in env.files ==> written == old(written)
    {
      hide PdfDocument;
      if c.dataSource !in env.files {
        return MissingData(c);
      }
      ghost var before := csvData;
      var stocks := ParseCsv(c.dataSource, env.files[c.dataSource], Some(c.numberOfStocks));
      assert stocks == Stocks(before, c, env);
      var html := BuildPdfHtml(c, env.now, stocks, env.embed);
      match env.pdf
      case Created =>
        written := written[c.fileName + ".pdf" := html];
        r := GenResult(true, "PDF report generated successfully", Some(c.fileName + ".pdf"));
      case NotCreated =>
        r := GenResult(false, "PDF file was not created", None);
      case MpdfError(m) =>
        r := GenResult(false, "mPDF error: " + m, None);
      case OtherError(m) =>
        r := GenResult(false, "PDF generation error: " + m, None);
    }

    /** `generateFlipbook($config)`. */
    method GenerateFlipbook(c: Config, env: Env) returns (r: GenResult)
      modifies this
      ensures r == FlipbookResult(c, env)
      ensures csvData == CacheAfter(old(csvData), c, env)
      ensures c.dataSource in env.files ==>
                written == WriteIf(old(written), env.flipbookWritable, c.fileName + "/index.html",
                                   FlipbookDocument(c, env.now, Stocks(old(csvData), c, env)))
      ensures c.dataSource !in env.files ==> written == old(written)
    {
      hide FlipbookDocument;
      if c.dataSource !in env.files {
        return MissingData(c);
      }
      ghost var before := csvData;
      var stocks := ParseCsv(c.dataSource, env.files[c.dataSource], Some(c.numberOfStocks));
      assert stocks == Stocks(before, c, env);
      var html := BuildFlipbookHtml(c, env.now, stocks);
      if env.flipbookWritable {
        written := written[c.fileName + "/index.html" := html];
        r := GenResult(true, "Flipbook report generated successfully", Some(c.fileName + "/index.html"));
      } else {
        r := GenResult(false, "Failed to write flipbook file", None);
      }
    }

    /**
     * `generateAll($config)`: the three generators in turn. The first one
     * fills the cache, so all three render the same records.
     */
    method GenerateAll(c: Config, env: Env) returns (r: AllResult)
      modifies this
      ensures r == Collect(HtmlResult(c, env), PdfResult(c, env), FlipbookResult(c, env))
      ensures csvData == CacheAfter(old(csvData), c, env)
      ensures c.dataSource in env.files ==>
                var stocks := Stocks(old(csvData), c, env);
                written == WriteIf(WriteIf(WriteIf(old(written),
                             env.htmlWritable, c.fileName + ".html", HtmlBody(c, env.now, stocks)),
                             env.pdf == Created, c.fileName + ".pdf", PdfDocument(c, env.now, stocks, env.embed)),
                             env.flipbookWritable, c.fileName + "/index.html", FlipbookDocument(c, env.now, stocks))
      ensures c.dataSource !in env.files ==> written == old(written)
    {
      hide HtmlBody, PdfDocument, FlipbookDocument;
      r := AllResult(true, [], []);
      var htmlResult := GenerateHtml(c, env);
      if htmlResult.success {
        r := r.(generated := Put(r.generated, "html", htmlResult.file.GetOr("")));
      } else {
        r := r.(success := false);
        r := r.(failed := Put(r.failed, "html", htmlResult.message));
      }
      SameRecordsLater(old(csvData), c, env);
      var pdfResult := GeneratePdf(c, env);
      if pdfResult.success {
        r := r.(generated := Put(r.generated, "pdf", pdfResult.file.GetOr("")));
      } else {
        r := r.(failed := Put(r.failed, "pdf", pdfResult.message));
      }
      var flipResult := GenerateFlipbook(c, env);
      if flipResult.success {
        r := r.(generated := Put(r.generated, "flipbook", flipResult.file.GetOr("")));
      } else {
        r := r.(failed := Put(r.failed, "flipbook", flipResult.message));
      }
    }
  }

  /**
   * After one generator has read the data file, a second one reads the
   * same records and leaves the cache as it is.
   */
  lemma SameRecordsLater(cache: map<string, seq<Record>>, c: Config, env: Env)
    ensures c.dataSource in env.files ==>
              Stocks(CacheAfter(cache, c, env), c, env) == Stocks(cache, c, env)
    ensures CacheAfter(CacheAfter(cache, c, env), c, env) == CacheAfter(cache, c, env)
  {
    if c.dataSource in env.files {
      var src := env.files[c.dataSource];
      if CsvRows(cache, c.dataSource, src).Some? {
        SecondCallCached(cache, c.dataSource, src, src, Some(c.numberOfStocks));
      } else {
        UnreadableNotCached(cache, c.dataSource, src, Some(c.numberOfStocks));
      }
    }
  }
}
