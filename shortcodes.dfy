// `replaceShortcodes`: the token map built for one template expansion, the
// longest-key-first ordering, and the `str_replace` fold over it.

module Shortcodes {
  import opened Php
  import opened Tokens
  import opened Widgets
  import opened ReportConfig

  // ---------------------------------------------------------------------
  // The replacement map

  /** The three tokens every expansion fills, whatever the record. */
  function BaseReplacements(now: string, c: Config): (m: Assoc<string>)
    ensures Keys(m) == [Key("Current Date"), Key("Report Title"), Key("Author")]
  {
    [(Key("Current Date"), now), (Key("Report Title"), c.title.GetOr("")), (Key("Author"), c.author.GetOr(""))]
  }

  /** `$replacements['[' . $key . ']'] = $value` for every column, in order. */
  function PutColumns(m: Assoc<string>, rec: Record): Assoc<string>
  {
    if rec == [] then m
    else
      var last := rec[|rec| - 1];
      Put(PutColumns(m, rec[..|rec| - 1]), Key(last.0), last.1)
  }

  /** The ticker the chart is drawn for: the `Ticker` column, or ''. */
  function ChartTicker(rec: Record): string
  {
    Lookup(rec, "Ticker").GetOr("")
  }

  /**
   * The token map before sorting: date, title and author; then, with a
   * record, one entry per column and finally `[Chart]`.
   */
  function Replacements(now: string, c: Config, stock: Option<Record>): Assoc<string>
  {
    match stock
    case None => BaseReplacements(now, c)
    case Some(rec) => Put(PutColumns(BaseReplacements(now, c), rec), Key("Chart"), Widget(ChartTicker(rec)))
  }

  /** The foreach over the record's columns: one entry per column, in order. */
  method PutEachColumn(m0: Assoc<string>, rec: Record) returns (m: Assoc<string>)
    requires KeysDistinct(m0)
    ensures m == PutColumns(m0, rec)
    ensures KeysDistinct(m)
  {
    m := m0;
    var i := 0;
    while i < |rec|
      invariant 0 <= i <= |rec|
      invariant m == PutColumns(m0, rec[..i])
      invariant KeysDistinct(m)
    {
      assert rec[..i + 1][..i] == rec[..i];
      PutKeysDistinct(m, Key(rec[i].0), rec[i].1);
      m := Put(m, Key(rec[i].0), rec[i].1);
      i := i + 1;
    }
    assert rec[..|rec|] == rec;
  }

  /** The map `replaceShortcodes` fills, proved to build `Replacements`. */
  method BuildReplacements(now: string, c: Config, stock: Option<Record>) returns (m: Assoc<string>)
    ensures m == Replacements(now, c, stock)
    ensures KeysDistinct(m)
  {
    hide Widget;
    m := [(Key("Current Date"), now), (Key("Report Title"), c.title.GetOr("")), (Key("Author"), c.author.GetOr(""))];
    assert m == BaseReplacements(now, c);
    BaseDistinct(now, c);
    if stock.Some? {
      var rec := stock.value;
      m := PutEachColumn(m, rec);
      var ticker := if Lookup(rec, "Ticker").Some? then Lookup(rec, "Ticker").value else "";
      var chart := Widget(ticker);
      PutKeysDistinct(m, Key("Chart"), chart);
      m := Put(m, Key("Chart"), chart);
    }
  }

  /** `replaceShortcodes($template, $stock, $config)`: build, sort, replace. */
  method Expand(template: string, now: string, c: Config, stock: Option<Record>) returns (r: string)
    ensures r == ReplaceShortcodes(template, now, c, stock)
  {
    var m := BuildReplacements(now, c, stock);
    var order := SortByKeyLength(m);
    r := ApplyPairs(template, order);
  }

  // ---------------------------------------------------------------------
  // What the map holds

  /** With distinct keys, the lookup result is exactly the entry present. */
  lemma LookupIn(m: Assoc<string>, k: string, v: string)
    requires KeysDistinct(m)
    ensures Lookup(m, k) == Some(v) <==> (k, v) in m
  {
    if (k, v) in m {
      var i :| 0 <= i < |m| && m[i] == (k, v);
      var j :| 0 <= j < |m| && m[j] == (k, Lookup(m, k).value);
      assert i == j;
    }
  }

  lemma LookupLast(rec: Record, n: string)
    requires KeysDistinct(rec) && rec != []
    ensures Lookup(rec, n)
         == if rec[|rec| - 1].0 == n then Some(rec[|rec| - 1].1) else Lookup(rec[..|rec| - 1], n)
  {
    var init := rec[..|rec| - 1];
    assert rec == init + [rec[|rec| - 1]];
    if rec[|rec| - 1].0 == n {
      LookupIn(rec, n, rec[|rec| - 1].1);
    } else if Lookup(init, n).Some? {
      LookupIn(rec, n, Lookup(init, n).value);
    }
  }

  /**
   * A column overrides whatever the map held under its token; every other
   * token keeps its old entry.
   */
  lemma {:induction false} PutColumnsLookup(m: Assoc<string>, rec: Record, n: string)
    requires KeysDistinct(rec)
    ensures Lookup(PutColumns(m, rec), Key(n))
         == if Lookup(rec, n).Some? then Lookup(rec, n) else Lookup(m, Key(n))
    decreases |rec|
  {
    if rec != [] {
      var init := rec[..|rec| - 1];
      var last := rec[|rec| - 1];
      PutColumnsLookup(m, init, n);
      PutLookup(PutColumns(m, init), Key(last.0), last.1, Key(n));
      LookupLast(rec, n);
      KeyInjective(last.0, n);
    }
  }

  lemma LookupOfThree<V>(k0: string, v0: V, k1: string, v1: V, k2: string, v2: V, k: string)
    ensures Lookup([(k0, v0), (k1, v1), (k2, v2)], k)
         == if k == k0 then Some(v0) else if k == k1 then Some(v1) else if k == k2 then Some(v2) else None
  {
    var m := [(k0, v0), (k1, v1), (k2, v2)];
    var last: Assoc<V> := [(k2, v2)];
    assert last[1..] == [];
    assert Lookup(last, k) == if k == k2 then Some(v2) else None;
    assert m[1..][1..] == last;
    assert Lookup(m[1..], k) == if k == k1 then Some(v1) else Lookup(last, k);
  }

  /** The three fixed tokens, and nothing else, without a record. */
  lemma BaseLookup(now: string, c: Config, n: string)
    ensures Lookup(BaseReplacements(now, c), Key(n))
         == if n == "Current Date" then Some(now)
            else if n == "Report Title" then Some(c.title.GetOr(""))
            else if n == "Author" then Some(c.author.GetOr(""))
            else None
  {
    KeyInjective(n, "Current Date");
    KeyInjective(n, "Report Title");
    KeyInjective(n, "Author");
    LookupOfThree(Key("Current Date"), now, Key("Report Title"), c.title.GetOr(""),
                  Key("Author"), c.author.GetOr(""), Key(n));
  }

  /** Without a record only date, title and author are filled; `[Chart]` is not. */
  lemma NoRecordLookup(now: string, c: Config, n: string)
    ensures Lookup(Replacements(now, c, None), Key(n))
         == if n == "Current Date" then Some(now)
            else if n == "Report Title" then Some(c.title.GetOr(""))
            else if n == "Author" then Some(c.author.GetOr(""))
            else None
    ensures Lookup(Replacements(now, c, None), Key("Chart")) == None
  {
    BaseLookup(now, c, n);
    BaseLookup(now, c, "Chart");
  }

  /**
   * With a record, `[Chart]` is the widget for the `Ticker` column (or ''),
   * a column named like a fixed token overrides it, and any other token is
   * filled from its column when there is one.
   */
  lemma RecordLookup(now: string, c: Config, rec: Record, n: string)
    requires KeysDistinct(rec)
    ensures Lookup(Replacements(now, c, Some(rec)), Key(n))
         == if n == "Chart" then Some(Widget(ChartTicker(rec)))
            else if Lookup(rec, n).Some? then Lookup(rec, n)
            else Lookup(BaseReplacements(now, c), Key(n))
  {
    var cols := PutColumns(BaseReplacements(now, c), rec);
    PutColumnsLookup(BaseReplacements(now, c), rec, n);
    KeyInjective(n, "Chart");
    assert Replacements(now, c, Some(rec)) == Put(cols, Key("Chart"), Widget(ChartTicker(rec)));
    PutLookup(cols, Key("Chart"), Widget(ChartTicker(rec)), Key(n));
  }

  lemma BaseDistinct(now: string, c: Config)
    ensures KeysDistinct(BaseReplacements(now, c))
  {
    KeyInjective("Current Date", "Report Title");
    KeyInjective("Current Date", "Author");
    KeyInjective("Report Title", "Author");
  }

  lemma ReplacementsDistinct(now: string, c: Config, stock: Option<Record>)
    ensures KeysDistinct(Replacements(now, c, stock))
  {
    BaseDistinct(now, c);
    PutColumnsDistinct(BaseReplacements(now, c), if stock.Some? then stock.value else []);
    if stock.Some? {
      PutKeysDistinct(PutColumns(BaseReplacements(now, c), stock.value), Key("Chart"), Widget(ChartTicker(stock.value)));
    }
  }

  lemma {:induction false} PutColumnsDistinct(m: Assoc<string>, rec: Record)
    requires KeysDistinct(m)
    ensures KeysDistinct(PutColumns(m, rec))
    decreases |rec|
  {
    if rec != [] {
      var last := rec[|rec| - 1];
      PutColumnsDistinct(m, rec[..|rec| - 1]);
      PutKeysDistinct(PutColumns(m, rec[..|rec| - 1]), Key(last.0), last.1);
    }
  }

  // ---------------------------------------------------------------------
  // Longest key first

  /** Key lengths never increase along the list. */
  predicate Descending(m: Assoc<string>)
  {
    forall i, j :: 0 <= i < j < |m| ==> |m[i].0| >= |m[j].0|
  }

  /**
   * What `uksort` by `strlen($b) - strlen($a)` may produce: the same
   * entries, longest key first. Ties may come out in any order.
   */
  predicate ValidOrder(m: Assoc<string>, r: Assoc<string>)
  {
    multiset(r) == multiset(m) && Descending(r)
  }

  function InsertByKeyLength(x: (string, string), s: Assoc<string>): (r: Assoc<string>)
    requires Descending(s)
    ensures multiset(r) == multiset(s) + multiset{x}
    ensures Descending(r)
  {
    if s == [] then [x]
    else if |s[0].0| >= |x.0| then
      var t := InsertByKeyLength(x, s[1..]);
      InsertBounded(x, s, t);
      ConsDescending(s[0], t);
      assert s == [s[0]] + s[1..];
      [s[0]] + t
    else
      ConsDescending(x, s);
      [x] + s
  }

  lemma ConsDescending(h: (string, string), t: Assoc<string>)
    requires Descending(t)
    requires forall i :: 0 <= i < |t| ==> |t[i].0| <= |h.0|
    ensures Descending([h] + t)
  {
    var r := [h] + t;
    forall i, j | 0 <= i < j < |r| ensures |r[i].0| >= |r[j].0| {
      if i > 0 {
        assert r[i] == t[i - 1] && r[j] == t[j - 1];
      } else {
        assert r[j] == t[j - 1];
      }
    }
  }

  lemma InsertBounded(x: (string, string), s: Assoc<string>, t: Assoc<string>)
    requires s != [] && Descending(s) && |s[0].0| >= |x.0|
    requires multiset(t) == multiset(s[1..]) + multiset{x}
    ensures forall i :: 0 <= i < |t| ==> |t[i].0| <= |s[0].0|
  {
    forall i | 0 <= i < |t| ensures |t[i].0| <= |s[0].0| {
      assert t[i] in multiset(t);
      if t[i] != x {
        assert t[i] in multiset(s[1..]);
        var j :| 0 <= j < |s[1..]| && s[1..][j] == t[i];
        assert s[j + 1] == t[i];
      }
    }
  }

  /** One longest-first order: a stable insertion sort by key length. */
  function SortByKeyLength(m: Assoc<string>): (r: Assoc<string>)
    ensures ValidOrder(m, r)
  {
    if m == [] then []
    else
      assert m == m[..|m| - 1] + [m[|m| - 1]];
      InsertByKeyLength(m[|m| - 1], SortByKeyLength(m[..|m| - 1]))
  }

  /** Reordering entries with distinct keys changes no lookup. */
  lemma LookupPermutation(m: Assoc<string>, r: Assoc<string>, k: string)
    requires KeysDistinct(m) && multiset(r) == multiset(m)
    ensures Lookup(r, k) == Lookup(m, k)
  {
    if Lookup(m, k).Some? {
      var v := Lookup(m, k).value;
      LookupIn(m, k, v);
      assert (k, v) in multiset(r);
      var v' := Lookup(r, k).value;
      assert (k, v') in multiset(m);
      LookupIn(m, k, v');
    }
  }

  lemma TokenPairsPermutation(m: Assoc<string>, r: Assoc<string>)
    requires TokenPairs(m) && multiset(r) == multiset(m)
    ensures TokenPairs(r)
  {
    forall i | 0 <= i < |r| ensures IsTokenKey(r[i].0) && '[' !in r[i].1 {
      assert r[i] in multiset(m);
      var j :| 0 <= j < |m| && m[j] == r[i];
    }
  }

  /** Every key of the token map opens with '[', whatever the record's columns. */
  lemma ReplacementsBracketKeys(now: string, c: Config, stock: Option<Record>)
    ensures BracketKeys(Replacements(now, c, stock))
  {
    var base := BaseReplacements(now, c);
    hide Widget, BaseReplacements, PutColumns, Put, ChartTicker, Key, Keys;
    assert BracketKeys(base) by {
      assert Keys(base) == [Key("Current Date"), Key("Report Title"), Key("Author")];
    }
    if stock.Some? {
      PutColumnsBracketKeys(base, stock.value);
      PutKeys(PutColumns(base, stock.value), Key("Chart"), Widget(ChartTicker(stock.value)));
    }
  }

  lemma {:induction false} PutColumnsBracketKeys(m: Assoc<string>, rec: Record)
    requires BracketKeys(m)
    ensures BracketKeys(PutColumns(m, rec))
    decreases |rec|
  {
    if rec != [] {
      var init := rec[..|rec| - 1];
      var last := rec[|rec| - 1];
      PutColumnsBracketKeys(m, init);
      PutKeys(PutColumns(m, init), Key(last.0), last.1);
    }
  }

  lemma BracketKeysPermutation(m: Assoc<string>, r: Assoc<string>)
    requires BracketKeys(m) && multiset(r) == multiset(m)
    ensures BracketKeys(r)
  {
    forall k | k in Keys(r) ensures |k| > 0 && k[0] == '[' {
      var i :| 0 <= i < |r| && Keys(r)[i] == k;
      assert r[i] in multiset(m);
      var j :| 0 <= j < |m| && m[j] == r[i];
      assert Keys(m)[j] == k;
    }
  }

  // ---------------------------------------------------------------------
  // Substitution

  /** `str_replace(array_keys($r), array_values($r), $template)` after the sort. */
  function ReplaceShortcodes(template: string, now: string, c: Config, stock: Option<Record>): (r: string)
    ensures '[' !in template ==> r == template
  {
    var m := Replacements(now, c, stock);
    ReplacementsBracketKeys(now, c, stock);
    BracketKeysPermutation(m, SortByKeyLength(m));
    ApplyPairsPlain(template, SortByKeyLength(m));
    ApplyPairs(template, SortByKeyLength(m))
  }

  /**
   * Inputs under which the fold cannot manufacture tokens: no value holds
   * '[' and no column name holds a bracket.
   */
  predicate PlainInputs(now: string, c: Config, stock: Option<Record>)
  {
    '[' !in now && '[' !in c.title.GetOr("") && '[' !in c.author.GetOr("")
    && (stock.Some? ==>
          forall i :: 0 <= i < |stock.value| ==>
            '[' !in stock.value[i].0 && ']' !in stock.value[i].0 && '[' !in stock.value[i].1)
  }

  lemma NameKey(n: Name)
    ensures IsTokenKey(Key(n))
  {
  }

  lemma {:induction false} PutTokenPairs(m: Assoc<string>, n: Name, v: Plain)
    requires TokenPairs(m)
    ensures TokenPairs(Put(m, Key(n), v))
  {
    NameKey(n);
    if m != [] && m[0].0 != Key(n) {
      PutTokenPairs(m[1..], n, v);
    }
  }

  lemma {:induction false} PutColumnsTokenPairs(m: Assoc<string>, rec: Record)
    requires TokenPairs(m)
    requires forall i :: 0 <= i < |rec| ==> '[' !in rec[i].0 && ']' !in rec[i].0 && '[' !in rec[i].1
    ensures TokenPairs(PutColumns(m, rec))
    decreases |rec|
  {
    if rec != [] {
      var init := rec[..|rec| - 1];
      PutColumnsTokenPairs(m, init);
      var n: Name := rec[|rec| - 1].0;
      var v: Plain := rec[|rec| - 1].1;
      PutTokenPairs(PutColumns(m, init), n, v);
    }
  }

  lemma ThreeTokenPairs(a: Name, x: Plain, b: Name, y: Plain, c: Name, z: Plain)
    ensures TokenPairs([(Key(a), x), (Key(b), y), (Key(c), z)])
  {
    NameKey(a);
    NameKey(b);
    NameKey(c);
  }

  lemma BaseTokenPairs(now: string, c: Config)
    requires '[' !in now && '[' !in c.title.GetOr("") && '[' !in c.author.GetOr("")
    ensures TokenPairs(BaseReplacements(now, c))
  {
    var title: Plain := c.title.GetOr("");
    var author: Plain := c.author.GetOr("");
    ThreeTokenPairs("Current Date", now, "Report Title", title, "Author", author);
  }

  lemma RecordTokenPairs(base: Assoc<string>, rec: Record, w: Plain)
    requires TokenPairs(base)
    requires forall i :: 0 <= i < |rec| ==> '[' !in rec[i].0 && ']' !in rec[i].0 && '[' !in rec[i].1
    ensures TokenPairs(Put(PutColumns(base, rec), Key("Chart"), w))
  {
    PutColumnsTokenPairs(base, rec);
    PutTokenPairs(PutColumns(base, rec), "Chart", w);
  }

  lemma ReplacementsTokenPairs(now: string, c: Config, stock: Option<Record>)
    requires PlainInputs(now, c, stock)
    ensures TokenPairs(Replacements(now, c, stock))
  {
    hide Widget, TokenPairs, BaseReplacements, PutColumns, Put, ChartTicker, Key;
    BaseTokenPairs(now, c);
    if stock.Some? {
      RecordTokenPairs(BaseReplacements(now, c), stock.value, Widget(ChartTicker(stock.value)));
    }
  }

  /**
   * Over plain inputs the fold means token resolution, whichever valid
   * order `uksort` produced: every token with an entry becomes its value
   * and every other token stays verbatim.
   */
  lemma SubstitutionResolves(ps: seq<Piece>, now: string, c: Config, stock: Option<Record>, order: Assoc<string>)
    requires PlainInputs(now, c, stock)
    requires ValidOrder(Replacements(now, c, stock), order)
    ensures ApplyPairs(Render(ps), order) == Resolve(ps, Replacements(now, c, stock))
  {
    var m := Replacements(now, c, stock);
    ReplacementsTokenPairs(now, c, stock);
    ReplacementsDistinct(now, c, stock);
    TokenPairsPermutation(m, order);
    ApplyPairsResolves(ps, order);
    forall k ensures Lookup(order, k) == Lookup(m, k) {
      LookupPermutation(m, order, k);
    }
    ResolveSameLookups(ps, order, m);
  }

  /** The same for the order the model fixes. */
  lemma ReplaceShortcodesResolves(ps: seq<Piece>, now: string, c: Config, stock: Option<Record>)
    requires PlainInputs(now, c, stock)
    ensures ReplaceShortcodes(Render(ps), now, c, stock) == Resolve(ps, Replacements(now, c, stock))
  {
    SubstitutionResolves(ps, now, c, stock, SortByKeyLength(Replacements(now, c, stock)));
  }

  // ---------------------------------------------------------------------
  // The default stock block (the source file has CRLF line ends)

  function Block1(): Plain { "<br><div class=\"stock-container " }
  function Block2(): Plain { "pagebreak\">\r\n    <div style=\"\" " }
  function Block3(): Plain { "class=\"order-md-1\">\r\n        " }
  function Block4(): Plain { "<h2 class=\"mt-1\">" }
  function Block5(): Plain { ")</h2>\r\n        " }
  function Block6(): Plain { "<br>\r\n        <strong>Stock " }
  function Block7(): Plain { "Price: </strong>$" }
  function Block8(): Plain { "<br>\r\n        <strong>Market " }
  function Block9(): Plain { "Cap</strong>: $" }
  function Block10(): Plain { "<br>\r\n        <strong>Consensus " }
  function Block11(): Plain { "Price Target: </strong>$" }
  function Block12(): Plain { "\r\n    </div>\r\n    <div class=\"w-100 " }
  function Block13(): Plain { "mt-2 order-md-3\">" }
  function Block14(): Plain { "</div>\r\n</div>" }

  /** The heading line up to the exchange token. */
  function DefaultHead(): seq<Piece>
  {
    [Lit(Block1()), Lit(Block2()), Lit(Block3()), Lit(Block4()), Tok("Company"), Lit(" (")]
  }

  /** The ticker, the chart and the price lines. */
  function DefaultMiddle(): seq<Piece>
  {
    [Lit(":"), Tok("Ticker"), Lit(Block5()), Tok("Chart"), Lit(Block6()), Lit(Block7()),
     Tok("Price"), Lit(Block8()), Lit(Block9())]
  }

  /** The market cap and the price target. */
  function DefaultFigures(): seq<Piece>
  {
    [Tok("Market Cap"), Lit(Block10()), Lit(Block11()), Tok("Target Price")]
  }

  /** The description column that closes the block. */
  function DefaultEnd(): seq<Piece>
  {
    DefaultFigures() + [Lit(Block12()), Lit(Block13()), Tok("Description"), Lit(Block14())]
  }

  /** Everything after the exchange token. */
  function DefaultTail(): seq<Piece>
  {
    DefaultMiddle() + DefaultEnd()
  }

  /**
   * `getDefaultStockBlockTemplate()` as pieces. The source spells the
   * exchange token `[Exchage]`, which no CSV column or fixed token fills
   * unless a column carries that exact name.
   */
  function DefaultPieces(): seq<Piece>
  {
    DefaultHead() + [Tok("Exchage")] + DefaultTail()
  }

  function DefaultStockBlockTemplate(): string
  {
    Render(DefaultPieces())
  }

  /**
   * A token that neither the record nor the fixed tokens name comes out of
   * the expansion verbatim.
   */
  lemma UnfilledTokenKept(pre: seq<Piece>, n: Name, post: seq<Piece>, now: string, c: Config, rec: Record)
    requires PlainInputs(now, c, Some(rec)) && KeysDistinct(rec)
    requires Lookup(rec, n).None?
    requires n !in {"Chart", "Current Date", "Report Title", "Author"}
    ensures ReplaceShortcodes(Render(pre + [Tok(n)] + post), now, c, Some(rec))
         == Resolve(pre, Replacements(now, c, Some(rec))) + Key(n)
            + Resolve(post, Replacements(now, c, Some(rec)))
  {
    ReplaceShortcodesResolves(pre + [Tok(n)] + post, now, c, Some(rec));
    RecordLookup(now, c, rec, n);
    BaseLookup(now, c, n);
    UnknownTokenKept(pre, n, post, Replacements(now, c, Some(rec)));
  }

  /**
   * Expanding the default block for a record with plain cells and no
   * `Exchage` column leaves `[Exchage]` verbatim.
   */
  lemma DefaultBlockExchange(now: string, c: Config, rec: Record)
    requires PlainInputs(now, c, Some(rec)) && KeysDistinct(rec)
    requires Lookup(rec, "Exchage").None?
    ensures ReplaceShortcodes(DefaultStockBlockTemplate(), now, c, Some(rec))
         == Resolve(DefaultHead(), Replacements(now, c, Some(rec))) + Key("Exchage")
            + Resolve(DefaultTail(), Replacements(now, c, Some(rec)))
  {
    hide DefaultHead, DefaultTail, Widget, ReplaceShortcodes, Render, Resolve, Replacements, PlainInputs, Key, Lookup;
    assert "Exchage" !in {"Chart", "Current Date", "Report Title", "Author"};
    UnfilledTokenKept(DefaultHead(), "Exchage", DefaultTail(), now, c, rec);
  }

  /**
   * Without a record `[Chart]` is not in the map, so a template's chart
   * token survives the expansion.
   */
  lemma NoRecordChartKept(pre: seq<Piece>, post: seq<Piece>, now: string, c: Config)
    requires PlainInputs(now, c, None)
    ensures ReplaceShortcodes(Render(pre + [Tok("Chart")] + post), now, c, None)
         == Resolve(pre, Replacements(now, c, None)) + Key("Chart") + Resolve(post, Replacements(now, c, None))
  {
    hide ReplaceShortcodes, Render, Resolve, Replacements, PlainInputs, Key, Widget;
    ReplaceShortcodesResolves(pre + [Tok("Chart")] + post, now, c, None);
    NoRecordLookup(now, c, "Chart");
    UnknownTokenKept(pre, "Chart", post, Replacements(now, c, None));
  }

  // ---------------------------------------------------------------------
  // Why the plain-input condition matters: the fold rewrites values

  lemma ReplaceWhole(k: string, v: string)
    requires |k| > 0
    ensures ReplaceAll(k, k, v) == v
  {
    ReplaceKeyPrefix(k, "", v);
    assert k + "" == k;
  }

  /**
   * A value holding a later token has it filled by the later pass: the
   * fold is not one simultaneous replacement.
   */
  lemma FoldRewritesValues(d: Name, p: Name, pre: Plain, x: string)
    requires d != p
    ensures ApplyPairs(Key(d), [(Key(d), pre + Key(p)), (Key(p), x)]) == pre + x
  {
    var pairs := [(Key(d), pre + Key(p)), (Key(p), x)];
    ReplaceWhole(Key(d), pre + Key(p));
    ReplacePlainPrefix(pre, Key(p), Key(p), x);
    ReplaceWhole(Key(p), x);
    assert pairs[1..] == [(Key(p), x)] && pairs[1..][1..] == [];
    assert ApplyPairs(pre + Key(p), pairs[1..]) == ApplyPairs(pre + x, []);
  }

  /** With the shorter key first the same pairs give another text. */
  lemma FoldOrderMatters(d: Name, p: Name, pre: Plain, x: string)
    requires d != p
    ensures ApplyPairs(Key(d), [(Key(p), x), (Key(d), pre + Key(p))]) == pre + Key(p)
  {
    var pairs := [(Key(p), x), (Key(d), pre + Key(p))];
    ReplaceOtherToken(p, d, "", x);
    assert Key(d) + "" == Key(d);
    ReplaceAllEmpty(Key(p), x);
    ReplaceWhole(Key(d), pre + Key(p));
    assert pairs[1..] == [(Key(d), pre + Key(p))] && pairs[1..][1..] == [];
    assert ApplyPairs(Key(d), pairs[1..]) == ApplyPairs(pre + Key(p), []);
  }

  lemma ReplaceAllEmpty(k: string, v: string)
    ensures ReplaceAll("", k, v) == ""
  {
  }
}
