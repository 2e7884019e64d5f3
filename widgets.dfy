// The TradingView chart widget that `[Chart]` expands to, and the
// non-greedy regular-expression replacement that takes widgets out of the
// PDF stock blocks.

module Widgets {
  import opened Php
  import opened Tokens

  // ---------------------------------------------------------------------
  // Markers

  /** What the stripping pattern looks for at the start of a widget. */
  function BeginText(): Plain { "<!-- TradingView Widget BEGIN" }

  /** What the stripping pattern looks for at the end of a widget. */
  function EndText(): Plain { "TradingView Widget END -->" }

  function WidgetBegin(): Plain { BeginText() + " -->" }

  function WidgetEnd(): Plain { "<!-- " + EndText() }

  // ---------------------------------------------------------------------
  // The widget text, cut into short pieces. The copyright CSS rules
  // between the style tags and the JSON widget configuration are not
  // modelled: the iframe address carries the encoded ticker only.

  function Div1(): Plain { "\r\n            <div class=\"tradingview" }
  function Div2(): Plain { "-widget-container\" style=\"width: " }
  function Div3(): Plain { "600px; height: 220px;\">\r\n            " }
  function Iframe1(): Plain { "<iframe scrolling=\"no\" allowtrans" }
  function Iframe2(): Plain { "parency=\"true\" frameborder=\"0\" " }
  function Iframe3(): Plain { "src=\"" }
  function Src1(): Plain { "https://www.tradingview-widget.com" }
  function Src2(): Plain { "/embed-widget/mini-symbol-overview" }
  function Src3(): Plain { "/?locale=en#" }
  function Attrs1(): Plain { "\" title=\"mini symbol-overview " }
  function Attrs2(): Plain { "TradingView widget\" lang=\"en\" " }
  function Style1(): Plain { "style=\"user-select: none; box-" }
  function Style2(): Plain { "sizing: border-box; display: block; " }
  function Style3(): Plain { "height: 100%; width: 100%;\">" }
  function Close1(): Plain { "</iframe>\r\n\r\n            <style>" }
  function Close2(): Plain { "\r\n\t</style></div>\r\n            " }

  function FrameOpen(): Plain { Div1() + Div2() + Div3() + Iframe1() + Iframe2() + Iframe3() }
  function SrcBase(): Plain { Src1() + Src2() + Src3() }
  function FrameClose(): Plain { Attrs1() + Attrs2() + Style1() + Style2() + Style3() + Close1() + Close2() }

  /** The iframe address: the widget endpoint and the url-encoded ticker. */
  function IframeSrc(ticker: string): (r: Plain)
    ensures r == SrcBase() + UrlEncode(ticker)
  {
    var enc := UrlEncode(ticker);
    assert '[' !in enc by {
      forall i | 0 <= i < |enc| ensures enc[i] != '[' {
        assert UrlSafe(enc[i]) || enc[i] == '+' || enc[i] == '%';
      }
    }
    SrcBase() + enc
  }

  /** The container and iframe between the two markers. */
  function Frame(ticker: string): Plain
  {
    FrameOpen() + IframeSrc(ticker) + FrameClose()
  }

  /** `generateTradingViewWidget($ticker)`. */
  function Widget(ticker: string): Plain
  {
    WidgetBegin() + Frame(ticker) + WidgetEnd()
  }

  lemma ConcatEnds(b: string, x: string, f: string, y: string, e: string)
    ensures |(b + x) + f + (y + e)| >= |b| + |e|
    ensures ((b + x) + f + (y + e))[..|b|] == b
    ensures ((b + x) + f + (y + e))[|(b + x) + f + (y + e)| - |e|..] == e
  {
  }

  /** The widget begins and ends with the markers the PDF pattern looks for. */
  lemma WidgetShape(ticker: string)
    ensures |Widget(ticker)| >= |BeginText()| + |EndText()|
    ensures Widget(ticker)[..|BeginText()|] == BeginText()
    ensures Widget(ticker)[|Widget(ticker)| - |EndText()|..] == EndText()
  {
    ConcatEnds(BeginText(), " -->", Frame(ticker), "<!-- ", EndText());
  }

  // ---------------------------------------------------------------------
  // Stripping: preg_replace with /<!-- TradingView Widget BEGIN.*?TradingView Widget END -->/s

  /** The replacement text. */
  function Note(): string
  {
    "<p><em>[Interactive chart available" + " in HTML version]</em></p>"
  }

  /**
   * Every match of the pattern `begin.*?end`, left to right, replaced by
   * `note`: a match starts at the leftmost `begin` and ends at the first
   * `end` after it; when no `end` follows, there is no further match.
   */
  function StripWith(s: string, begin: string, end: string, note: string): (r: string)
    requires |end| > 0
    ensures (forall i :: !IsAt(s, begin, i)) ==> r == s
    ensures |note| <= |begin| + |end| ==> |r| <= |s|
    decreases |s|
  {
    match Find(begin, s, 0)
    case None => s
    case Some(p) =>
      match Find(end, s, p + |begin|)
      case None => s
      case Some(q) => s[..p] + note + StripWith(s[q + |end|..], begin, end, note)
  }

  /** The PDF builder's widget removal. */
  function Strip(s: string): string
  {
    StripWith(s, BeginText(), EndText(), Note())
  }

  /** A `begin` at `i` followed, past its own end, by an `end` at `j`. */
  predicate Region(s: string, begin: string, end: string, i: int, j: int)
  {
    IsAt(s, begin, i) && j >= i + |begin| && IsAt(s, end, j)
  }

  /**
   * What the proofs need of the markers and the note: the begin marker
   * opens with "<!" and has no other '<'; the note is longer, opens with
   * '<', closes with '>' and has no '!'.
   */
  predicate Separated(begin: string, note: string)
  {
    |begin| >= 2 && begin[0] == '<' && begin[1] == '!'
    && (forall j :: 0 < j < |begin| ==> begin[j] != '<')
    && |note| > |begin| && note[0] == '<' && note[|note| - 1] == '>' && '!' !in note
  }

  lemma MarkersSeparated()
    ensures Separated(BeginText(), Note())
  {
  }

  lemma CharOfOccurrence(r: string, w: string, i: int, k: int)
    ensures IsAt(r, w, i) && 0 <= k < |w| ==> r[i + k] == w[k]
  {
    if IsAt(r, w, i) && 0 <= k < |w| {
      assert r[i..i + |w|][k] == r[i + k];
    }
  }

  lemma CharOfMiddle(a: string, n: string, b: string, k: int)
    ensures |a| <= k < |a| + |n| ==> (a + n + b)[k] == n[k - |a|] && (a + n + b)[k] in n
  {
  }

  lemma OccurrenceInPrefix(a: string, n: string, b: string, w: string, i: int)
    ensures IsAt(a + n + b, w, i) && i + |w| <= |a| ==> IsAt(a, w, i)
  {
    if IsAt(a + n + b, w, i) && i + |w| <= |a| {
      assert (a + n + b)[i..i + |w|] == a[i..i + |w|];
    }
  }

  lemma OccurrenceInSuffix(a: string, n: string, b: string, w: string, i: int)
    ensures IsAt(a + n + b, w, i) && i >= |a| + |n| ==> IsAt(b, w, i - |a| - |n|)
  {
    var o := |a| + |n|;
    if IsAt(a + n + b, w, i) && i >= o {
      assert (a + n + b)[i..i + |w|] == b[i - o..i - o + |w|];
    }
  }

  /** A begin marker in `a + note + b` lies wholly inside `b`. */
  lemma BeginAfterNote(begin: string, note: string, a: string, b: string, i: int)
    requires Separated(begin, note)
    requires !Occurs(begin, a)
    requires IsAt(a + note + b, begin, i)
    ensures i >= |a| + |note|
  {
    var r := a + note + b;
    if i < |a| + |note| {
      OccurrenceInPrefix(a, note, b, begin, i);
      CharOfOccurrence(r, begin, i, 0);
      CharOfOccurrence(r, begin, i, 1);
      CharOfOccurrence(r, begin, i, |a| - i);
      CharOfMiddle(a, note, b, |a|);
      CharOfMiddle(a, note, b, i);
      CharOfMiddle(a, note, b, i + 1);
      assert false;
    }
  }

  /** A region of `a + note + tail` is a region of `tail`, shifted. */
  lemma RegionShift(begin: string, end: string, note: string, a: string, tail: string, i: int, j: int)
    requires Separated(begin, note)
    requires !Occurs(begin, a)
    ensures Region(a + note + tail, begin, end, i, j)
            ==> Region(tail, begin, end, i - |a| - |note|, j - |a| - |note|)
  {
    if Region(a + note + tail, begin, end, i, j) {
      BeginAfterNote(begin, note, a, tail, i);
      OccurrenceInSuffix(a, note, tail, begin, i);
      OccurrenceInSuffix(a, note, tail, end, j);
    }
  }

  lemma OccurrenceInTake(s: string, w: string, p: int, k: int)
    requires 0 <= p <= |s|
    ensures IsAt(s[..p], w, k) ==> IsAt(s, w, k) && k + |w| <= p
  {
    if IsAt(s[..p], w, k) {
      assert s[..p][k..k + |w|] == s[k..k + |w|];
    }
  }

  /** Text before the first occurrence of a non-empty `w` does not contain `w`. */
  lemma PrefixBeforeFirst(s: string, w: string, p: int)
    requires |w| > 0 && 0 <= p <= |s|
    requires forall k :: 0 <= k < p ==> !IsAt(s, w, k)
    ensures !Occurs(w, s[..p])
  {
    forall k | 0 <= k <= p ensures !IsAt(s[..p], w, k) {
      OccurrenceInTake(s, w, p, k);
    }
  }

  /** Without a `begin` at or after its first one, or an `end` after that, a text has no region. */
  lemma {:induction false} NoRegionWithout(s: string, begin: string, end: string, p: int)
    requires 0 <= p
    requires forall k :: 0 <= k < p ==> !IsAt(s, begin, k)
    requires forall k :: p + |begin| <= k ==> !IsAt(s, end, k)
    ensures forall i, j :: !Region(s, begin, end, i, j)
  {
  }

  /** The text before a replaced region cannot start one that ends in the rest. */
  lemma {:induction false} NoRegionAfterReplace(s: string, begin: string, end: string, note: string, p: int, tail: string)
    requires |end| > 0 && Separated(begin, note) && 0 <= p <= |s|
    requires forall k :: 0 <= k < p ==> !IsAt(s, begin, k)
    requires forall i, j :: !Region(tail, begin, end, i, j)
    ensures forall i, j :: !Region(s[..p] + note + tail, begin, end, i, j)
  {
    PrefixBeforeFirst(s, begin, p);
    forall i, j ensures !Region(s[..p] + note + tail, begin, end, i, j) {
      RegionShift(begin, end, note, s[..p], tail, i, j);
    }
  }

  /** One step of the stripping: the first match replaced, the rest stripped. */
  lemma {:induction false} StripWithStep(s: string, begin: string, end: string, note: string, p: nat, q: nat)
    requires |end| > 0 && p + |begin| <= |s|
    requires Find(begin, s, 0) == Some(p) && Find(end, s, p + |begin|) == Some(q)
    ensures q + |end| <= |s|
    ensures StripWith(s, begin, end, note) == s[..p] + note + StripWith(s[q + |end|..], begin, end, note)
  {
    hide Find;
  }

  /** Without a complete match the stripping changes nothing. */
  lemma {:induction false} StripWithDone(s: string, begin: string, end: string, note: string)
    requires |end| > 0
    requires Find(begin, s, 0).None? || Find(end, s, Find(begin, s, 0).value + |begin|).None?
    ensures StripWith(s, begin, end, note) == s
  {
    hide Find;
  }

  /** After stripping, no begin marker is followed by an end marker. */
  lemma {:induction false} NoRegionSurvivesWith(s: string, begin: string, end: string, note: string)
    requires |end| > 0 && Separated(begin, note)
    ensures forall i, j :: !Region(StripWith(s, begin, end, note), begin, end, i, j)
    decreases |s|
  {
    hide StripWith;
    match Find(begin, s, 0)
    case None =>
      StripWithDone(s, begin, end, note);
      NoRegionWithout(s, begin, end, |s| + 1);
    case Some(p) =>
      match Find(end, s, p + |begin|)
      case None =>
        StripWithDone(s, begin, end, note);
        NoRegionWithout(s, begin, end, p);
      case Some(q) =>
        StripWithStep(s, begin, end, note, p, q);
        var rest := s[q + |end|..];
        NoRegionSurvivesWith(rest, begin, end, note);
        NoRegionAfterReplace(s, begin, end, note, p, StripWith(rest, begin, end, note));
  }

  /** After the PDF stripping, no BEGIN marker is followed by an END marker. */
  lemma NoRegionSurvives(s: string)
    ensures forall i, j :: !Region(Strip(s), BeginText(), EndText(), i, j)
  {
    MarkersSeparated();
    NoRegionSurvivesWith(s, BeginText(), EndText(), Note());
  }

  /** A widget occurrence is a BEGIN..END region. */
  lemma WidgetIsRegion(r: string, ticker: string, i: int)
    ensures IsAt(r, Widget(ticker), i)
            ==> Region(r, BeginText(), EndText(), i, i + |Widget(ticker)| - |EndText()|)
  {
    hide Widget;
    var w := Widget(ticker);
    var b := BeginText();
    var e := EndText();
    if IsAt(r, w, i) {
      WidgetShape(ticker);
      var j := i + |w| - |e|;
      assert r[i..i + |b|] == w[..|b|];
      assert r[j..j + |e|] == w[|w| - |e|..];
    }
  }

  /** No widget, whatever its ticker, survives the stripping. */
  lemma NoWidgetSurvives(s: string, ticker: string)
    ensures !Occurs(Widget(ticker), Strip(s))
  {
    hide Widget, Strip;
    NoRegionSurvives(s);
    var r := Strip(s);
    forall i | 0 <= i <= |r| ensures !IsAt(r, Widget(ticker), i) {
      WidgetIsRegion(r, ticker, i);
    }
  }

  /** Stripping a second time changes nothing. */
  lemma StripIdempotent(s: string)
    ensures Strip(Strip(s)) == Strip(s)
  {
    NoRegionSurvives(s);
    var r := Strip(s);
    match Find(BeginText(), r, 0)
    case None =>
    case Some(p) =>
      match Find(EndText(), r, p + |BeginText()|)
      case None =>
      case Some(q) =>
        assert Region(r, BeginText(), EndText(), p, q);
  }

  /** A text with no BEGIN marker passes through unchanged. */
  lemma StripWithoutWidget(s: string)
    requires !Occurs(BeginText(), s)
    ensures Strip(s) == s
  {
    match Find(BeginText(), s, 0)
    case None =>
    case Some(p) =>
      assert IsAt(s, BeginText(), p);
  }
}
