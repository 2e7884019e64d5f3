// The three documents the generator writes, as functions of the
// configuration, the clock reading and the records: the HTML article body,
// the HTML document handed to the PDF converter, and the flipbook page.

module Renderers {
  import opened Php
  import opened Widgets
  import opened ReportConfig
  import opened Shortcodes

  lemma Assoc3(x: string, y: string, z: string)
    ensures x + (y + z) == (x + y) + z
  {
  }

  lemma Suffix(x: string, y: string)
    ensures (x + y)[|x + y| - |y|..] == y
  {
  }

  // ---------------------------------------------------------------------
  // Parts the HTML and PDF bodies share

  function ArticleOpen(): string { "<div id=\"article-body\">" + "\n\n" }
  function MainOpen(): string { "<div class=\"mainarticle\" style=\"width: 100%\"><div>" }
  function ImageOpen(): string { "<p><img alt=\"\" src=\"" }
  function ImageStyle(): string { "\" style=\"float: left; width: 200px; " + "height: 200px; margin: 14px;\"" }

  /** The expanded intro and a newline, present only for a non-empty intro. */
  function IntroPart(c: Config, now: string): (r: string)
    ensures r == "" <==> EmptyOpt(c.intro)
  {
    if EmptyOpt(c.intro) then "" else ReplaceShortcodes(c.intro.value, now, c, None) + "\n"
  }

  /** The configured stock block, or the default one when it is empty. */
  function BlockTemplate(c: Config): string
  {
    if EmptyOpt(c.stockBlock) then DefaultStockBlockTemplate() else c.stockBlock.value
  }

  /** The disclaimer, unexpanded, between newlines; absent when empty. */
  function DisclaimerPart(c: Config): string
  {
    if EmptyOpt(c.disclaimer) then "" else "\n" + c.disclaimer.value + "\n"
  }

  // ---------------------------------------------------------------------
  // HTML (generateHtml)

  function HtmlImage(c: Config): string
  {
    if EmptyOpt(c.articleImage) then ""
    else ImageOpen() + "../images/" + c.articleImage.value + ImageStyle() + "></p>" + "\n\n"
  }

  /** Everything before the first stock block. */
  function HtmlHead(c: Config, now: string): string
  {
    ArticleOpen() + MainOpen() + "<title></title>" + HtmlImage(c) + IntroPart(c, now) + "</div><br>"
  }

  /** `f(xs[0]) + f(xs[1]) + ...`: one piece per record, in record order. */
  function Joined(f: Record -> string, xs: seq<Record>): string
  {
    if xs == [] then "" else Joined(f, xs[..|xs| - 1]) + f(xs[|xs| - 1])
  }

  lemma {:induction false} JoinedAppend(f: Record -> string, a: seq<Record>, b: seq<Record>)
    ensures Joined(f, a + b) == Joined(f, a) + Joined(f, b)
    decreases |b|
  {
    if b == [] {
      assert a + b == a;
    } else {
      var init := b[..|b| - 1];
      var last := b[|b| - 1];
      assert (a + b)[..|a + b| - 1] == a + init;
      assert (a + b)[|a + b| - 1] == last;
      JoinedAppend(f, a, init);
      Assoc3(Joined(f, a), Joined(f, init), f(last));
    }
  }

  /** Record `i` contributes the `i`-th piece, between the earlier and the later ones. */
  lemma {:induction false} JoinedOrder(f: Record -> string, xs: seq<Record>, i: int)
    requires 0 <= i < |xs|
    ensures Joined(f, xs) == Joined(f, xs[..i]) + f(xs[i]) + Joined(f, xs[i + 1..])
  {
    var front := xs[..i + 1];
    var back := xs[i + 1..];
    assert front + back == xs;
    JoinedAppend(f, front, back);
    assert front[..|front| - 1] == xs[..i];
    assert front[|front| - 1] == xs[i];
    assert Joined(f, front) == Joined(f, xs[..i]) + f(xs[i]);
  }

  function HtmlBlock(t: string, now: string, c: Config, rec: Record): string
  {
    ReplaceShortcodes(t, now, c, Some(rec)) + "\n"
  }

  function HtmlBlockOf(t: string, now: string, c: Config): Record -> string
  {
    rec => HtmlBlock(t, now, c, rec)
  }

  /** One expanded block per record, in record order. */
  function HtmlBlocks(t: string, now: string, c: Config, stocks: seq<Record>): string
  {
    Joined(HtmlBlockOf(t, now, c), stocks)
  }

  /** The file `generateHtml` writes. */
  function HtmlBody(c: Config, now: string, stocks: seq<Record>): string
  {
    HtmlHead(c, now) + HtmlBlocks(BlockTemplate(c), now, c, stocks) + DisclaimerPart(c) + "</div>"
  }

  /** Record `i` contributes the `i`-th block, between the earlier and the later ones. */
  lemma HtmlBlockOrder(t: string, now: string, c: Config, stocks: seq<Record>, i: int)
    requires 0 <= i < |stocks|
    ensures HtmlBlocks(t, now, c, stocks)
         == HtmlBlocks(t, now, c, stocks[..i]) + HtmlBlock(t, now, c, stocks[i])
            + HtmlBlocks(t, now, c, stocks[i + 1..])
  {
    JoinedOrder(HtmlBlockOf(t, now, c), stocks, i);
  }

  /** A non-empty disclaimer closes the body verbatim, tokens and all. */
  lemma HtmlDisclaimerLast(c: Config, now: string, stocks: seq<Record>)
    requires !EmptyOpt(c.disclaimer)
    ensures var body := HtmlBody(c, now, stocks);
            var tail := "\n" + c.disclaimer.value + "\n" + "</div>";
            |body| >= |tail| && body[|body| - |tail|..] == tail
  {
    var front := HtmlHead(c, now) + HtmlBlocks(BlockTemplate(c), now, c, stocks);
    var d := DisclaimerPart(c);
    assert HtmlBody(c, now, stocks) == front + d + "</div>";
    Assoc3(front, d, "</div>");
    Suffix(front, d + "</div>");
  }

  /** Without a disclaimer the body ends right after the last block. */
  lemma HtmlNoDisclaimer(c: Config, now: string, stocks: seq<Record>)
    requires EmptyOpt(c.disclaimer)
    ensures HtmlBody(c, now, stocks) == HtmlHead(c, now) + HtmlBlocks(BlockTemplate(c), now, c, stocks) + "</div>"
  {
  }

  // ---------------------------------------------------------------------
  // PDF (buildPdfHtml)

  /** `htmlspecialchars($config['title'])`, or 'Stock Report' when unset. */
  function DocumentTitle(c: Config): (r: string)
    ensures c.title.None? ==> r == "Stock Report"
    ensures c.title.Some? ==> '<' !in r && '>' !in r && '"' !in r
    ensures c.title.Some? && !ValidUtf8(c.title.value) ==> r == ""
  {
    if c.title.Some? then HtmlSpecialChars(c.title.value) else "Stock Report"
  }

  /**
   * The embedded article image. `embed` is what `getImageAsBase64` gave
   * for the stored file (None when the file is missing or unreadable).
   */
  function PdfImage(c: Config, embed: Option<string>): string
  {
    if !EmptyOpt(c.articleImage) && embed.Some? && !Empty(embed.value) then
      ImageOpen() + embed.value + ImageStyle() + " /></p>" + "\n\n"
    else ""
  }

  /** One block, expanded, with every widget region replaced by the note. */
  function PdfBlock(t: string, now: string, c: Config, rec: Record): string
  {
    Strip(ReplaceShortcodes(t, now, c, Some(rec))) + "\n"
  }

  function PdfBlockOf(t: string, now: string, c: Config): Record -> string
  {
    rec => PdfBlock(t, now, c, rec)
  }

  function PdfBlocks(t: string, now: string, c: Config, stocks: seq<Record>): string
  {
    Joined(PdfBlockOf(t, now, c), stocks)
  }

  function PdfArticleBody(c: Config, now: string, stocks: seq<Record>, embed: Option<string>): string
  {
    ArticleOpen() + MainOpen() + PdfImage(c, embed) + IntroPart(c, now) + "</div><br>"
    + PdfBlocks(BlockTemplate(c), now, c, stocks) + DisclaimerPart(c) + "</div>"
  }

  function PdfShellOpen(): string
  {
    "<!DOCTYPE html>\r\n<html lang=\"en\">\r\n" + "<head>\r\n    <meta charset=\"UTF-8\">\r\n" + "    <title>"
  }

  /** The page's style rules are a fixed stylesheet, not spelled out here. */
  function PdfStyleRules(): string { "\r\n        /* stylesheet */\r\n    " }

  function PdfShellMid(): string
  {
    "</title>\r\n    <style>" + PdfStyleRules() + "</style>\r\n</head>\r\n<body>\r\n"
  }

  function PdfShellClose(): string { "\r\n</body>\r\n</html>" }

  /** The HTML document the PDF converter renders. */
  function PdfDocument(c: Config, now: string, stocks: seq<Record>, embed: Option<string>): string
  {
    PdfShellOpen() + DocumentTitle(c) + PdfShellMid() + PdfArticleBody(c, now, stocks, embed) + PdfShellClose()
  }

  lemma OccurrenceBeforeNewline(s: string, w: string, i: int)
    requires |w| > 0 && w[|w| - 1] != '\n'
    ensures IsAt(s + "\n", w, i) ==> IsAt(s, w, i)
  {
    var r := s + "\n";
    if IsAt(r, w, i) && i + |w| <= |s| {
      assert r[i..i + |w|] == s[i..i + |w|];
    }
  }

  lemma NoWidgetAfterNewline(s: string, w: string)
    requires !Occurs(w, s) && |w| > 0 && w[|w| - 1] != '\n'
    ensures !Occurs(w, s + "\n")
  {
    forall i | 0 <= i <= |s + "\n"| ensures !IsAt(s + "\n", w, i) {
      OccurrenceBeforeNewline(s, w, i);
    }
  }

  /** No chart widget, for any ticker, survives in a PDF stock block. */
  lemma PdfBlockHasNoWidget(t: string, now: string, c: Config, rec: Record, ticker: string)
    ensures !Occurs(Widget(ticker), PdfBlock(t, now, c, rec))
  {
    hide Widget, Strip, ReplaceShortcodes;
    var s := Strip(ReplaceShortcodes(t, now, c, Some(rec)));
    NoWidgetSurvives(ReplaceShortcodes(t, now, c, Some(rec)), ticker);
    WidgetShape(ticker);
    var w := Widget(ticker);
    assert w[|w| - |EndText()|..] == EndText();
    assert w[|w| - 1] == EndText()[|EndText()| - 1];
    NoWidgetAfterNewline(s, w);
  }

  /** Record `i` contributes the `i`-th stripped block. */
  lemma PdfBlockOrder(t: string, now: string, c: Config, stocks: seq<Record>, i: int)
    requires 0 <= i < |stocks|
    ensures PdfBlocks(t, now, c, stocks)
         == PdfBlocks(t, now, c, stocks[..i]) + PdfBlock(t, now, c, stocks[i])
            + PdfBlocks(t, now, c, stocks[i + 1..])
  {
    JoinedOrder(PdfBlockOf(t, now, c), stocks, i);
  }

  // ---------------------------------------------------------------------
  // Flipbook (buildFlipbookHtml)

  function ImagePage(path: string): string
  {
    "<div class=\"page\">\r\n\t\t\t\t<img src=\"" + path
    + "\" draggable=\"false\" alt=\"\" " + "height=\"100%\" width=\"100%\" />\r\n\t\t\t</div>"
  }

  /** The cover: the PDF cover image first, else the article image, else none. */
  function CoverPage(c: Config): (r: string)
    ensures r == "" <==> EmptyOpt(c.pdfCoverImage) && EmptyOpt(c.articleImage)
  {
    if !EmptyOpt(c.pdfCoverImage) then ImagePage("../images/" + c.pdfCoverImage.value)
    else if !EmptyOpt(c.articleImage) then ImagePage("../images/" + c.articleImage.value)
    else ""
  }

  /** With a cover image, the article image plays no part in the cover. */
  lemma CoverPrefersPdfCover(c: Config, article: Option<string>)
    requires !EmptyOpt(c.pdfCoverImage)
    ensures CoverPage(c) == CoverPage(c.(articleImage := article))
  {
  }

  function DisclaimerPage(c: Config): string
  {
    if EmptyOpt(c.disclaimer) then ""
    else
      "<div class=\"page\">\r\n\t\t\t    <div id=\"disclaimer\">\r\n"
      + "\t\t\t        <center><h2>Terms and Conditions</h2>"
      + "<br/>LEGAL NOTICE</center><br/>\r\n\t\t\t        <div>"
      + c.disclaimer.value + "</div>\r\n\t\t\t    </div>\r\n\t\t\t</div>"
  }

  function IntroPage(c: Config, now: string): string
  {
    if EmptyOpt(c.intro) then ""
    else
      "<div class=\"page\">\r\n\t\t\t    <div id=\"top-stocks-intro-text\" "
      + "style=\"height: 100%; background-color: white; padding: 25px;\">"
      + "\r\n\t\t\t        " + ReplaceShortcodes(c.intro.value, now, c, None)
      + "\r\n\t\t\t    </div>\r\n\t\t\t</div>"
  }

  /** A column, escaped with `htmlspecialchars`, or '' when absent. */
  function Field(rec: Record, name: string): (r: string)
    ensures Lookup(rec, name).None? ==> r == ""
    ensures '<' !in r && '>' !in r && '"' !in r
    ensures Lookup(rec, name).Some? && !ValidUtf8(Lookup(rec, name).value) ==> r == ""
  {
    match Lookup(rec, name)
    case None => ""
    case Some(v) => HtmlSpecialChars(v)
  }

  function PageOpen(): string
  {
    "<div class=\"page pagebreak\">\r\n\t<div class=\"stock-container\">\r\n"
    + "        <div class=\"stock-container-2\">\r\n"
    + "            <div style=\"\" class=\"order-md-1\">\r\n"
    + "                <h2 class=\"mt-1\">"
  }

  function PageLink(): string
  {
    " (<a target=\"_blank\" href=\"https://trendadvisor.net" + "/go/stocks/NASDAQ/"
  }

  function PagePrice(): string
  {
    "\r\n                <br>\r\n                <strong>Closing Price: </strong>$"
  }

  function PageCap(): string
  {
    "\r\n                <br>\r\n\t\t        <strong>Dividend Yield: </strong>\r\n"
    + "\t\t        <br>\r\n\t\t        <strong>Market Cap</strong>: $"
  }

  function PageTarget(): string
  {
    "\r\n\t\t        <br>\r\n\t\t        <strong>Consensus Price Target: </strong>$N/A"
    + "\r\n            </div>\r\n            <div class=\"w-100 mt-2 order-md-3 "
    + "stock-description-2\">"
  }

  function PageClose(): string { "</div>\r\n        </div>\r\n    </div>\r\n</div>" }

  /**
   * The page for the `k`-th stock: heading "k) Company", links and chart
   * for the escaped ticker, escaped price and market cap, and the raw
   * description.
   */
  function StockPage(k: int, rec: Record): string
  {
    var ticker := Field(rec, "Ticker");
    PageHeading(k, rec) + PageTickerLink(ticker) + Widget(ticker) + PageFigures(rec) + PageText(rec)
  }

  function PageHeading(k: int, rec: Record): string
  {
    PageOpen() + IntToString(k) + ") " + Field(rec, "Company")
  }

  function PageTickerLink(ticker: string): string
  {
    PageLink() + ticker + "/\">NASDAQ:" + ticker + "</a>)</h2>\r\n                "
  }

  function PageFigures(rec: Record): string
  {
    PagePrice() + Field(rec, "Price") + PageCap() + Field(rec, "Market Cap")
  }

  function PageText(rec: Record): string
  {
    PageTarget() + Lookup(rec, "Description").GetOr("") + PageClose()
  }

  /** `page(1, xs[0]) + ... `: one page per record, numbered from 1 in record order. */
  function NumberedPages(page: (int, Record) -> string, xs: seq<Record>): (pages: seq<string>)
    ensures |pages| == |xs|
  {
    if xs == [] then []
    else NumberedPages(page, xs[..|xs| - 1]) + [page(|xs|, xs[|xs| - 1])]
  }

  /** The flipbook's stock pages. */
  function StockPages(stocks: seq<Record>): seq<string>
  {
    NumberedPages(StockPage, stocks)
  }

  /** The pages written one after another. */
  function Concat(parts: seq<string>): string
  {
    if parts == [] then "" else Concat(parts[..|parts| - 1]) + parts[|parts| - 1]
  }

  lemma {:induction false} ConcatAppend(a: seq<string>, b: seq<string>)
    ensures Concat(a + b) == Concat(a) + Concat(b)
    decreases |b|
  {
    if b == [] {
      assert a + b == a;
    } else {
      var init := b[..|b| - 1];
      var last := b[|b| - 1];
      assert (a + b)[..|a + b| - 1] == a + init;
      assert (a + b)[|a + b| - 1] == last;
      ConcatAppend(a, init);
      Assoc3(Concat(a), Concat(init), last);
    }
  }

  lemma ConcatOne(x: string)
    ensures Concat([x]) == x
  {
    assert [x][..0] == [];
  }

  lemma ConcatSplit(p: seq<string>, i: int)
    requires 0 <= i < |p|
    ensures Concat(p) == Concat(p[..i]) + p[i] + Concat(p[i + 1..])
  {
    var front := p[..i + 1];
    assert front + p[i + 1..] == p;
    ConcatAppend(front, p[i + 1..]);
    assert front[..|front| - 1] == p[..i];
    assert Concat(front) == Concat(p[..i]) + p[i];
  }

  /** The pages of a prefix of the records are the prefix of the pages. */
  lemma {:induction false} NumberedPrefix(page: (int, Record) -> string, xs: seq<Record>, i: int)
    requires 0 <= i <= |xs|
    ensures NumberedPages(page, xs)[..i] == NumberedPages(page, xs[..i])
    decreases |xs|
  {
    if i < |xs| {
      var init := xs[..|xs| - 1];
      NumberedPrefix(page, init, i);
      assert init[..i] == xs[..i];
    } else {
      assert xs[..i] == xs;
    }
  }

  /** The page of the `i`-th record (from 0) is numbered `i + 1`. */
  lemma {:induction false} NumberedAt(page: (int, Record) -> string, xs: seq<Record>, i: int)
    requires 0 <= i < |xs|
    ensures NumberedPages(page, xs)[i] == page(i + 1, xs[i])
    decreases |xs|
  {
    var init := xs[..|xs| - 1];
    if i < |xs| - 1 {
      NumberedAt(page, init, i);
      assert init[i] == xs[i];
    }
  }

  /** Adding a record adds its page, numbered one past the others, at the end. */
  lemma NumberedSnoc(page: (int, Record) -> string, xs: seq<Record>, x: Record)
    ensures Concat(NumberedPages(page, xs + [x])) == Concat(NumberedPages(page, xs)) + page(|xs| + 1, x)
  {
    var all := xs + [x];
    assert all[..|all| - 1] == xs;
    var p := page(|xs| + 1, x);
    ConcatAppend(NumberedPages(page, xs), [p]);
    ConcatOne(p);
  }

  /** The `i`-th record's page, numbered `i + 1`, sits between the earlier and the later pages. */
  lemma StockPagesNumbered(stocks: seq<Record>, i: int)
    requires 0 <= i < |stocks|
    ensures Concat(StockPages(stocks))
         == Concat(StockPages(stocks[..i])) + StockPage(i + 1, stocks[i]) + Concat(StockPages(stocks)[i + 1..])
  {
    ConcatSplit(StockPages(stocks), i);
    NumberedPrefix(StockPage, stocks, i);
    NumberedAt(StockPage, stocks, i);
  }

  function FlipbookPages(c: Config, now: string, stocks: seq<Record>): string
  {
    CoverPage(c) + DisclaimerPage(c) + IntroPage(c, now) + Concat(StockPages(stocks))
  }

  function FlipShellOpen(): string
  {
    "<!DOCTYPE html>\r\n\t\t<html>\r\n\t\t<head>\r\n\t\t  \t<title>"
  }

  /**
   * The rest of the head, with the script and stylesheet links reduced to a
   * comment, then the body's wrapper, viewport, container and flipbook
   * elements the pages go into.
   */
  function FlipShellMid(): string
  {
    "</title>\r\n\t\t  \t<meta charset=\"UTF-8\">\r\n"
    + "\t\t\t<!-- jQuery and turn.js scripts, Font Awesome and flipbook stylesheets -->\r\n"
    + "\t\t</head>\r\n\t\t<body>\r\n"
    + "        <div class=\"wrapper\">\r\n\t\t\t<div class=\"flipbook-viewport\">\r\n"
    + "\t\t\t\t<div class=\"container\">\r\n"
    + "\t\t\t\t\t<div class=\"flipbook\" id=\"flipbook\">\r\n\t\t\t\t\t\t"
  }

  /** The previous and next controls, the closing tags, and the page-turning script reduced to a comment. */
  function FlipShellClose(): string
  {
    "\r\n\t\t\t\t\t</div>\r\n"
    + "\t\t\t        <div class=\"flip-control\">\r\n"
    + "\t\t\t            <a href=\"#\" id=\"prev\"><i class=\"fa fa-angle-left\" style=\"font-size:3rem;color:black;font-weight: 600;\"></i></a>\r\n"
    + "\t\t\t            <a href=\"#\" id=\"next\"><i class=\"fa fa-angle-right\" style=\"font-size:3rem;color:black;font-weight: 600;\"></i></a>\r\n"
    + "\t\t\t        </div>\r\n"
    + "\t\t    \t</div>\r\n\t\t\t</div>\r\n\t\t</div>\r\n"
    + "\t\t<script type=\"text/javascript\">\r\n"
    + "\t\t    // loadApp, getSize, resize and the prev/next handlers\r\n"
    + "\t\t</script>\r\n\t</body>\r\n\t</html>"
  }

  /** The file `generateFlipbook` writes. */
  function FlipbookDocument(c: Config, now: string, stocks: seq<Record>): string
  {
    FlipShellOpen() + DocumentTitle(c) + FlipShellMid() + FlipbookPages(c, now, stocks) + FlipShellClose()
  }
}
