// The helpers every API endpoint shares (app/api/common.php): the response
// array, form-field picking, required-field validation, file-name
// sanitising and the image-upload checks.

module Common {
  import opened Php

  // ---------------------------------------------------------------------
  // Responses

  /** A decoded JSON value, as the endpoints build it before `json_encode`. */
  datatype Json =
    | JStr(s: string)
    | JBool(b: bool)
    | JInt(i: int)
    | JList(items: seq<Json>)
    | JObject(fields: Assoc<Json>)

  /** The arguments of `sendResponse`: null message or data is None. */
  datatype Response = Response(success: bool, message: Option<string>, data: Option<Json>)

  function Success(message: Option<string>, data: Option<Json>): Response
  {
    Response(true, message, data)
  }

  function Error(message: string): Response
  {
    Response(false, Some(message), None)
  }

  /** The array `sendResponse` encodes. */
  function SendResponse(r: Response): Assoc<Json>
  {
    [("success", JBool(r.success))]
    + (if r.message.Some? then [("message", JStr(r.message.value))] else [])
    + (if r.data.Some? then [("data", r.data.value)] else [])
  }

  /**
   * `success` always leads; `message` and `data` follow, in that order,
   * exactly when they are not null.
   */
  lemma SendResponseKeys(r: Response)
    ensures Keys(SendResponse(r)) == ["success"] + (if r.message.Some? then ["message"] else [])
                                     + (if r.data.Some? then ["data"] else [])
  {
    var m: Assoc<Json> := if r.message.Some? then [("message", JStr(r.message.value))] else [];
    var d: Assoc<Json> := if r.data.Some? then [("data", r.data.value)] else [];
    var j := SendResponse(r);
    assert j == [("success", JBool(r.success))] + m + d;
    assert Keys(j) == [j[0].0] + Keys(j[1..]);
    assert j[1..] == m + d;
    if r.message.Some? {
      assert Keys(m + d) == [(m + d)[0].0] + Keys((m + d)[1..]);
      assert (m + d)[1..] == d;
    }
  }

  /** Each key of the response carries the value it was given. */
  lemma SendResponseValues(r: Response)
    ensures Lookup(SendResponse(r), "success") == Some(JBool(r.success))
    ensures Lookup(SendResponse(r), "message") == if r.message.Some? then Some(JStr(r.message.value)) else None
    ensures Lookup(SendResponse(r), "data") == r.data
  {
    var j := SendResponse(r);
    var m: Assoc<Json> := if r.message.Some? then [("message", JStr(r.message.value))] else [];
    var d: Assoc<Json> := if r.data.Some? then [("data", r.data.value)] else [];
    assert j == [("success", JBool(r.success))] + m + d;
    assert j[1..] == m + d;
    assert Lookup(j, "message") == Lookup(m + d, "message");
    assert Lookup(j, "data") == Lookup(m + d, "data");
    if r.message.Some? {
      assert (m + d)[1..] == d;
      assert Lookup(m + d, "data") == Lookup(d, "data");
    } else {
      assert m + d == d;
    }
  }

  // ---------------------------------------------------------------------
  // getFormInput

  /** `$CONFIG_FIELDS`: the fields of a saved configuration. */
  const ConfigFields: seq<string> :=
    ["id", "file_name", "report_title", "author_name", "stock_count",
     "data_source", "report_intro_html", "stock_block_html", "disclaimer_html"]

  /** `$GENERATE_FIELDS`: the configuration fields, the kept image names and the report type. */
  const GenerateFields: seq<string> :=
    ConfigFields + ["article_image_existing", "pdf_cover_existing", "report_type"]

  /**
   * The fields of `fields` that POST carries, in the order of their first
   * mention. POST values are strings, never null, so `isset` holds for
   * every present key and the second pass of the source adds nothing.
   */
  function Picked(post: Assoc<string>, fields: seq<string>): Assoc<string>
    decreases |fields|
  {
    if fields == [] then []
    else
      var f := fields[|fields| - 1];
      var m := Picked(post, fields[..|fields| - 1]);
      match Lookup(post, f)
      case Some(v) => Put(m, f, v)
      case None => m
  }

  /** `getFormInput($fields)`; an empty field list returns all of POST. */
  method GetFormInput(post: Assoc<string>, fields: seq<string>) returns (input: Assoc<string>)
    ensures input == if fields == [] then post else Picked(post, fields)
  {
    if fields == [] {
      return post;
    }
    input := [];
    for i := 0 to |fields|
      invariant input == Picked(post, fields[..i])
    {
      assert fields[..i + 1][..i] == fields[..i];
      var f := fields[i];
      match Lookup(post, f)
      case Some(v) =>
        input := Put(input, f, v);
      case None =>
    }
    assert fields[..|fields|] == fields;
  }

  /** The picked input holds exactly the listed fields POST carries, with their values. */
  lemma {:induction false} PickedLookup(post: Assoc<string>, fields: seq<string>, k: string)
    ensures Lookup(Picked(post, fields), k) == if k in fields then Lookup(post, k) else None
    decreases |fields|
  {
    if fields != [] {
      var f := fields[|fields| - 1];
      var init := fields[..|fields| - 1];
      assert fields == init + [f];
      PickedLookup(post, init, k);
      match Lookup(post, f)
      case Some(v) =>
        PutLookup(Picked(post, init), f, v, k);
      case None =>
    }
  }

  // ---------------------------------------------------------------------
  // validateRequired

  /** `!isset($input[$f]) || trim($input[$f]) === ''`. */
  predicate IsMissing(input: Assoc<string>, f: string)
  {
    match Lookup(input, f)
    case None => true
    case Some(v) => Trim(v, WhiteSpace) == ""
  }

  /** The required fields that are missing, in the order they are required. */
  function MissingFields(input: Assoc<string>, required: seq<string>): seq<string>
    decreases |required|
  {
    if required == [] then []
    else
      var f := required[|required| - 1];
      MissingFields(input, required[..|required| - 1]) + (if IsMissing(input, f) then [f] else [])
  }

  /** `validateRequired($input, $requiredFields)`: `valid` and `missing`. */
  method ValidateRequired(input: Assoc<string>, required: seq<string>) returns (valid: bool, missing: seq<string>)
    ensures missing == MissingFields(input, required)
    ensures valid <==> missing == []
  {
    missing := [];
    for i := 0 to |required|
      invariant missing == MissingFields(input, required[..i])
    {
      assert required[..i + 1][..i] == required[..i];
      var f := required[i];
      var v := Lookup(input, f);
      if v.None? || Trim(v.value, WhiteSpace) == "" {
        missing := missing + [f];
      }
    }
    assert required[..|required|] == required;
    valid := |missing| == 0;
  }

  /**
   * A field is reported exactly when it is required and absent or blank,
   * and the report keeps the order of the required list.
   */
  lemma {:induction false} MissingFieldsIff(input: Assoc<string>, required: seq<string>, f: string)
    ensures f in MissingFields(input, required) <==> f in required && IsMissing(input, f)
    decreases |required|
  {
    if required != [] {
      var init := required[..|required| - 1];
      assert required == init + [required[|required| - 1]];
      MissingFieldsIff(input, init, f);
    }
  }

  /** The report for a split list is the two reports in turn: the order is kept. */
  lemma {:induction false} MissingFieldsAppend(input: Assoc<string>, a: seq<string>, b: seq<string>)
    ensures MissingFields(input, a + b) == MissingFields(input, a) + MissingFields(input, b)
    decreases |b|
  {
    if b == [] {
      assert a + b == a;
    } else {
      var init := b[..|b| - 1];
      assert (a + b)[..|a + b| - 1] == a + init;
      MissingFieldsAppend(input, a, init);
    }
  }

  // ---------------------------------------------------------------------
  // sanitizeFilename and buildImageFilename

  predicate LowerAlnum(c: char)
  {
    'a' <= c <= 'z' || '0' <= c <= '9'
  }

  /** The characters a sanitized name may hold. */
  predicate NameChar(c: char)
  {
    LowerAlnum(c) || c == '_'
  }

  /** Underscores at `i` and at `i + 1`. */
  predicate DoubleAt(s: string, i: int)
    requires 0 <= i < |s| - 1
  {
    s[i] == '_' && s[i + 1] == '_'
  }

  /** No two underscores in a row. */
  predicate NoDoubleUnderscore(s: string)
  {
    forall i :: 0 <= i < |s| - 1 ==> !DoubleAt(s, i)
  }

  /** What `sanitizeFilename` promises of its result. */
  predicate CleanName(s: string)
  {
    s != [] && (forall i :: 0 <= i < |s| ==> NameChar(s[i]))
    && s[0] != '_' && s[|s| - 1] != '_' && NoDoubleUnderscore(s)
  }

  /** The rest after the run of characters a `[^a-z0-9]+` match swallows. */
  function SkipRun(s: string): (r: string)
    ensures |r| <= |s| && r == s[|s| - |r|..]
    ensures r == [] || LowerAlnum(r[0])
  {
    if s != [] && !LowerAlnum(s[0]) then
      var r := SkipRun(s[1..]);
      assert s[1..][|s| - 1 - |r|..] == s[|s| - |r|..];
      r
    else s
  }

  /**
   * `preg_replace('/[^a-z0-9]+/', '_', $s)`: every maximal run of
   * characters other than lower-case letters and digits becomes one '_'.
   */
  function CollapseRuns(s: string): string
    decreases |s|
  {
    if s == [] then []
    else if LowerAlnum(s[0]) then [s[0]] + CollapseRuns(s[1..])
    else "_" + CollapseRuns(SkipRun(s[1..]))
  }

  /** Prepending a character keeps a clean text clean when it cannot make a pair. */
  lemma ConsClean(c: char, t: string)
    requires NameChar(c)
    requires forall i :: 0 <= i < |t| ==> NameChar(t[i])
    requires NoDoubleUnderscore(t)
    requires c == '_' ==> t == [] || t[0] != '_'
    ensures forall i :: 0 <= i < |[c] + t| ==> NameChar(([c] + t)[i])
    ensures NoDoubleUnderscore([c] + t)
  {
    var r := [c] + t;
    forall i | 0 <= i < |r| - 1 ensures !DoubleAt(r, i) {
      if i > 0 {
        assert !DoubleAt(t, i - 1);
      }
    }
  }

  /**
   * The collapse holds only `[a-z0-9_]`, has no two '_' in a row, and
   * starts with '_' only where its input starts with a replaced run.
   */
  lemma {:induction false} CollapseRunsClean(s: string)
    ensures forall i :: 0 <= i < |CollapseRuns(s)| ==> NameChar(CollapseRuns(s)[i])
    ensures NoDoubleUnderscore(CollapseRuns(s))
    ensures CollapseRuns(s) != [] && CollapseRuns(s)[0] == '_' ==> s != [] && !LowerAlnum(s[0])
    decreases |s|
  {
    if s != [] {
      if LowerAlnum(s[0]) {
        CollapseRunsClean(s[1..]);
        ConsClean(s[0], CollapseRuns(s[1..]));
      } else {
        var rest := SkipRun(s[1..]);
        CollapseRunsClean(rest);
        ConsClean('_', CollapseRuns(rest));
      }
    }
  }

  /** The tail of a clean text is clean, and a head that is not a letter or digit is a lone '_'. */
  lemma CleanTail(s: string)
    requires s != []
    requires forall i :: 0 <= i < |s| ==> NameChar(s[i])
    requires NoDoubleUnderscore(s)
    ensures forall i :: 0 <= i < |s[1..]| ==> NameChar(s[1..][i])
    ensures NoDoubleUnderscore(s[1..])
    ensures !LowerAlnum(s[0]) ==> s[0] == '_' && (s[1..] == [] || LowerAlnum(s[1..][0]))
  {
    var t := s[1..];
    forall i | 0 <= i < |t| ensures NameChar(t[i]) {
      assert t[i] == s[i + 1];
    }
    forall i | 0 <= i < |t| - 1 ensures !DoubleAt(t, i) {
      assert !DoubleAt(s, i + 1);
    }
    if !LowerAlnum(s[0]) && t != [] {
      assert !DoubleAt(s, 0);
      assert NameChar(t[0]);
    }
  }

  /** A name that is already clean inside is its own collapse. */
  lemma {:induction false} CollapseRunsFixed(s: string)
    requires forall i :: 0 <= i < |s| ==> NameChar(s[i])
    requires NoDoubleUnderscore(s)
    ensures CollapseRuns(s) == s
    decreases |s|
  {
    if s != [] {
      var t := s[1..];
      CleanTail(s);
      hide NameChar, NoDoubleUnderscore, CollapseRuns, SkipRun;
      CollapseRunsFixed(t);
      CollapseRunsStep(s);
      if !LowerAlnum(s[0]) {
        SkipRunStop(t);
      }
      assert s == [s[0]] + t;
    }
  }

  /** The characters of a substring keep the properties of the whole. */
  lemma CleanSlice(s: string, a: int, b: int)
    requires 0 <= a <= b <= |s|
    requires forall i :: 0 <= i < |s| ==> NameChar(s[i])
    requires NoDoubleUnderscore(s)
    ensures forall i :: 0 <= i < b - a ==> NameChar(s[a..b][i])
    ensures NoDoubleUnderscore(s[a..b])
  {
    forall i | 0 <= i < b - a - 1
      ensures !DoubleAt(s[a..b], i)
    {
      assert !DoubleAt(s, a + i);
      assert s[a..b][i] == s[a + i] && s[a..b][i + 1] == s[a + i + 1];
    }
  }

  /** The cleaned name before the empty-name fallback. */
  function Cleaned(name: string): string
  {
    Trim(CollapseRuns(ReplaceAll(ToLower(name), " ", "_")), {'_'})
  }

  /**
   * `sanitizeFilename($filename)` with `time()` reading `now`: lower case,
   * spaces and every run of other characters to one '_', underscores
   * trimmed, and 'unnamed_<now>' when that is empty or "0".
   */
  function Sanitize(name: string, now: nat): (r: string)
    ensures !Empty(r)
  {
    var t := Cleaned(name);
    if Empty(t) then "unnamed_" + NatToString(now) else t
  }

  /** A stretch of a clean text that neither starts nor ends with '_' is a clean name. */
  lemma CleanInner(c: string, a: int, b: int)
    requires 0 <= a < b <= |c|
    requires forall i :: 0 <= i < |c| ==> NameChar(c[i])
    requires NoDoubleUnderscore(c)
    requires c[a] != '_' && c[b - 1] != '_'
    ensures CleanName(c[a..b])
  {
    hide NameChar, NoDoubleUnderscore;
    CleanSlice(c, a, b);
    assert c[a..b][0] == c[a] && c[a..b][b - a - 1] == c[b - 1];
  }

  /** Trimming the underscores off a text of name characters without doubled ones leaves a clean name or nothing. */
  lemma TrimmedClean(c: string)
    requires forall i :: 0 <= i < |c| ==> NameChar(c[i])
    requires NoDoubleUnderscore(c)
    ensures Trim(c, {'_'}) == [] || CleanName(Trim(c, {'_'}))
  {
    hide NameChar, NoDoubleUnderscore, CleanName, Trim, TrimLeft, TrimRight;
    var a, b := TrimSlice(c, {'_'});
    if a < b {
      CleanInner(c, a, b);
    }
  }

  lemma CleanedShape(name: string)
    ensures Cleaned(name) == [] || CleanName(Cleaned(name))
  {
    hide CollapseRuns, ReplaceAll, ToLower, NameChar, NoDoubleUnderscore, DoubleAt, Trim;
    var spaced := ReplaceAll(ToLower(name), " ", "_");
    CollapseRunsClean(spaced);
    TrimmedClean(CollapseRuns(spaced));
  }

  lemma FallbackClean(now: nat)
    ensures CleanName("unnamed_" + NatToString(now))
    ensures !Empty("unnamed_" + NatToString(now))
  {
    var d := NatToString(now);
    var s := "unnamed_" + d;
    assert forall i :: 8 <= i < |s| ==> s[i] == d[i - 8];
    assert s[|s| - 1] == d[|d| - 1];
  }

  /**
   * The sanitized name holds only `[a-z0-9_]`, neither starts nor ends
   * with '_', never has two '_' in a row and is neither "" nor "0".
   */
  lemma SanitizeClean(name: string, now: nat)
    ensures CleanName(Sanitize(name, now))
    ensures !Empty(Sanitize(name, now))
  {
    CleanedShape(name);
    FallbackClean(now);
  }

  /** A clean name other than "0" comes through unchanged. */
  lemma SanitizeFixed(s: string, now: nat)
    requires CleanName(s) && s != "0"
    ensures Sanitize(s, now) == s
  {
    assert ToLower(s) == s;
    AbsentChar(" ", s);
    ReplaceAllAbsent(s, " ", "_");
    CollapseRunsFixed(s);
    TrimNoop(s, {'_'});
  }

  /** Sanitizing twice, with the same clock, is sanitizing once. */
  lemma SanitizeIdempotent(name: string, now: nat)
    ensures Sanitize(Sanitize(name, now), now) == Sanitize(name, now)
  {
    SanitizeClean(name, now);
    SanitizeFixed(Sanitize(name, now), now);
  }

  // The doc-comment examples, computed piece by piece: a text is cut where
  // a letter or digit starts, and each stage works on the pieces apart.

  lemma {:induction false} ToLowerAppend(a: string, b: string)
    ensures ToLower(a + b) == ToLower(a) + ToLower(b)
  {
    hide ToLower, LowerChar;
    var l := ToLower(a + b);
    var r := ToLower(a) + ToLower(b);
    forall i | 0 <= i < |l| ensures l[i] == r[i] {
      if i < |a| {
        assert (a + b)[i] == a[i];
      } else {
        assert (a + b)[i] == b[i - |a|];
      }
    }
  }

  /** A one-character search string works on the pieces of a text apart. */
  lemma {:induction false} ReplaceCharAppend(a: string, b: string, k: string, v: string)
    requires |k| == 1
    ensures ReplaceAll(a + b, k, v) == ReplaceAll(a, k, v) + ReplaceAll(b, k, v)
    decreases |a|
  {
    if a != [] {
      assert (a + b)[1..] == a[1..] + b;
      assert (a + b)[..1] == a[..1];
      ReplaceCharAppend(a[1..], b, k, v);
      if a[..1] == k {
        assert a[1..] == a[|k|..];
      }
    } else {
      assert a + b == b;
    }
  }

  lemma {:induction false} SkipRunAppend(a: string, b: string)
    requires b == [] || LowerAlnum(b[0])
    ensures SkipRun(a + b) == SkipRun(a) + b
    decreases |a|
  {
    if a == [] {
      assert a + b == b;
    } else {
      assert (a + b)[0] == a[0];
      assert (a + b)[1..] == a[1..] + b;
      SkipRunAppend(a[1..], b);
    }
  }

  /** One step of the collapse. */
  lemma CollapseRunsStep(s: string)
    requires s != []
    ensures CollapseRuns(s) == if LowerAlnum(s[0]) then [s[0]] + CollapseRuns(s[1..])
                               else "_" + CollapseRuns(SkipRun(s[1..]))
  {
  }

  /** A text that starts with a letter or digit has no run to skip. */
  lemma SkipRunStop(s: string)
    requires s == [] || LowerAlnum(s[0])
    ensures SkipRun(s) == s
  {
  }

  /** Joining three texts does not depend on the grouping. */
  lemma AppendAssoc(x: string, y: string, z: string)
    ensures x + (y + z) == (x + y) + z
  {
  }

  lemma TailOfAppend(a: string, b: string)
    requires a != []
    ensures a + b != [] && (a + b)[0] == a[0] && (a + b)[1..] == a[1..] + b
  {
  }

  /** A run of other characters is cut where a letter or digit follows. */
  lemma {:induction false} CollapseRunsAppend(a: string, b: string)
    requires b == [] || LowerAlnum(b[0])
    ensures CollapseRuns(a + b) == CollapseRuns(a) + CollapseRuns(b)
    decreases |a|
  {
    if a == [] {
      assert a + b == b;
    } else {
      hide CollapseRuns, SkipRun;
      var t := a[1..];
      TailOfAppend(a, b);
      CollapseRunsStep(a + b);
      CollapseRunsStep(a);
      if LowerAlnum(a[0]) {
        CollapseRunsAppend(t, b);
        AppendAssoc([a[0]], CollapseRuns(t), CollapseRuns(b));
      } else {
        SkipRunAppend(t, b);
        var rest := SkipRun(t);
        CollapseRunsAppend(rest, b);
        AppendAssoc("_", CollapseRuns(rest), CollapseRuns(b));
      }
    }
  }

  /** Letters and digits pass through the collapse one by one. */
  lemma {:induction false} CollapseRunsWord(w: string, b: string)
    requires forall i :: 0 <= i < |w| ==> LowerAlnum(w[i])
    ensures CollapseRuns(w + b) == w + CollapseRuns(b)
    decreases |w|
  {
    if w == [] {
      assert w + b == b;
    } else {
      var s := w + b;
      var t := w[1..];
      assert s[0] == w[0] && LowerAlnum(s[0]);
      assert s[1..] == t + b;
      assert CollapseRuns(s) == [w[0]] + CollapseRuns(t + b);
      forall i | 0 <= i < |t| ensures LowerAlnum(t[i]) {
        assert t[i] == w[i + 1];
      }
      CollapseRunsWord(t, b);
      assert [w[0]] + (t + CollapseRuns(b)) == ([w[0]] + t) + CollapseRuns(b);
      assert w == [w[0]] + t;
    }
  }

  /** A word and the one character that ends it. */
  lemma WordThenMark(w: string, c: char)
    requires forall i :: 0 <= i < |w| ==> LowerAlnum(w[i])
    requires !LowerAlnum(c)
    ensures CollapseRuns(w + [c]) == w + "_"
  {
    CollapseRunsWord(w, [c]);
    assert [c][1..] == [];
    assert SkipRun([]) == [];
  }

  lemma ExampleLowerFront()
    ensures ToLower("File-") == "file-"
  {
    assert ToLower("File-")[0] == 'f';
  }

  lemma ExampleLowerBack()
    ensures ToLower("Name!") == "name!"
  {
    assert ToLower("Name!")[0] == 'n';
  }

  lemma ExampleLowerWord()
    ensures ToLower("File-Name!") == "file-name!"
  {
    hide ToLower;
    assert "File-Name!" == "File-" + "Name!";
    ToLowerAppend("File-", "Name!");
    ExampleLowerFront();
    ExampleLowerBack();
  }

  lemma ExampleLowerMy()
    ensures ToLower("My") == "my" && ToLower(" ") == " "
  {
    assert ToLower("My")[0] == 'm';
  }

  lemma ExampleSpacedWord()
    ensures ReplaceAll("file-name!", " ", "_") == "file-name!"
  {
    AbsentChar(" ", "file-name!");
    ReplaceAllAbsent("file-name!", " ", "_");
  }

  lemma ExampleSpacedSpace()
    ensures ReplaceAll(" ", " ", "_") == "_"
  {
    assert " "[..1] == " " && " "[1..] == "";
  }

  lemma ExampleLower()
    ensures ToLower("My File-Name!") == "my file-name!"
  {
    hide ToLower;
    assert "My File-Name!" == "My" + " " + "File-Name!";
    ToLowerAppend("My" + " ", "File-Name!");
    ToLowerAppend("My", " ");
    ExampleLowerWord();
    ExampleLowerMy();
  }

  lemma ExampleSpaced()
    ensures ReplaceAll("my file-name!", " ", "_") == "my_file-name!"
  {
    hide ReplaceAll;
    assert "my file-name!" == "my" + " " + "file-name!";
    ReplaceCharAppend("my" + " ", "file-name!", " ", "_");
    ReplaceCharAppend("my", " ", " ", "_");
    ExampleSpacedWord();
    ExampleSpacedSpace();
    AbsentChar(" ", "my");
    ReplaceAllAbsent("my", " ", "_");
  }

  lemma ExampleCollapsed()
    ensures CollapseRuns("my_file-name!") == "my_file_name_"
  {
    hide CollapseRuns;
    assert "my_file-name!" == "my_" + "file-" + "name!";
    CollapseRunsAppend("my_" + "file-", "name!");
    CollapseRunsAppend("my_", "file-");
    assert "my_" == "my" + ['_'] && "file-" == "file" + ['-'] && "name!" == "name" + ['!'];
    WordThenMark("my", '_');
    WordThenMark("file", '-');
    WordThenMark("name", '!');
    assert "my" + "_" + ("file" + "_") + ("name" + "_") == "my_file_name_";
  }

  lemma ExampleTrimmed()
    ensures Trim("my_file_name_", {'_'}) == "my_file_name"
  {
    var s := "my_file_name_";
    var t := "my_file_name";
    assert s == t + "_";
    assert TrimLeft(s, {'_'}) == s;
    assert s[..|s| - 1] == t;
    assert TrimRight(t, {'_'}) == t;
  }

  lemma FileNameCleaned()
    ensures Cleaned("My File-Name!") == "my_file_name"
  {
    hide ToLower, ReplaceAll, CollapseRuns, Trim;
    ExampleLower();
    ExampleSpaced();
    ExampleCollapsed();
    ExampleTrimmed();
  }

  /** The doc-comment example: "My File-Name!" becomes "my_file_name". */
  lemma SanitizeExample(now: nat)
    ensures Sanitize("My File-Name!", now) == "my_file_name"
  {
    hide Cleaned;
    FileNameCleaned();
  }

  /** `buildImageFilename($reportName, $type, $extension)`. */
  function BuildImageFilename(reportName: string, kind: string, ext: string, now: nat): string
  {
    Sanitize(reportName, now) + "_" + kind + "." + ext
  }

  /** "My Report" lowered, with its space made an underscore. */
  lemma ReportNameSpaced()
    ensures ReplaceAll(ToLower("My Report"), " ", "_") == "my_report"
  {
    hide ToLower, ReplaceAll;
    assert "My Report" == "My" + " " + "Report";
    ToLowerAppend("My" + " ", "Report");
    ToLowerAppend("My", " ");
    ExampleLowerMy();
    assert ToLower("Report") == "report" by {
      var r := ToLower("Report");
      assert r[0] == 'r';
    }
    ReplaceCharAppend("my" + " ", "report", " ", "_");
    ReplaceCharAppend("my", " ", " ", "_");
    ExampleSpacedSpace();
    AbsentChar(" ", "my");
    ReplaceAllAbsent("my", " ", "_");
    assert ReplaceAll("report", " ", "_") == "report" by {
      AbsentChar(" ", "report");
      ReplaceAllAbsent("report", " ", "_");
    }
    assert "my" + "_" + "report" == "my_report";
  }

  lemma ReportNameCleaned()
    ensures Cleaned("My Report") == "my_report"
  {
    hide ToLower, ReplaceAll, CollapseRuns, Trim;
    ReportNameSpaced();
    var n := "my_report";
    assert CleanName(n) by {
      forall i | 0 <= i < |n| - 1 ensures !DoubleAt(n, i) {
        assert n[i] != '_' || n[i + 1] != '_';
      }
    }
    CollapseRunsFixed(n);
    TrimNoop(n, {'_'});
  }

  /** The doc-comment example: "My Report" and "article" give "my_report_article.jpg". */
  lemma BuildImageFilenameExample(now: nat)
    ensures BuildImageFilename("My Report", "article", "jpg", now) == "my_report_article.jpg"
  {
    hide Cleaned, ToLower, ReplaceAll, CollapseRuns, Trim;
    ReportNameCleaned();
    assert "my_report" + "_" + "article" + "." + "jpg" == "my_report_article.jpg";
  }

  /** The extension handed in is the extension of the built name. */
  lemma BuildImageFilenameExtension(reportName: string, kind: string, ext: string, now: nat)
    requires '.' !in ext && '/' !in ext
    ensures Extension(BuildImageFilename(reportName, kind, ext, now)) == ext
  {
    ExtensionOf(Sanitize(reportName, now) + "_" + kind, ext);
  }

  // ---------------------------------------------------------------------
  // The image-upload checks

  const UploadErrOk: int := 0
  const UploadErrNoFile: int := 4

  /** 2 MiB. */
  const MaxImageSize: int := 2 * 1024 * 1024

  const AllowedImageTypes: seq<string> :=
    ["image/jpeg", "image/jpg", "image/png", "image/gif", "image/webp"]

  /**
   * One `$_FILES` entry together with what the server learns about it:
   * `mime` is what `finfo_file` reports ("" when it fails), `moved` is
   * whether `move_uploaded_file` succeeds.
   */
  datatype ImageFile = ImageFile(error: int, size: int, name: string, mime: string, moved: bool)

  /** The checks an image passes before it is moved. */
  predicate ImageAccepted(f: ImageFile)
  {
    f.error == UploadErrOk && f.size <= MaxImageSize && f.mime in AllowedImageTypes
  }

  /**
   * `handleImageUpload($file, $targetDir, $reportName, $type)`: the
   * stored name, or None when a check fails or the move does not happen.
   */
  function HandleImageUpload(f: ImageFile, reportName: string, kind: string, now: nat): (r: Option<string>)
    ensures r.Some? <==> ImageAccepted(f) && f.moved
  {
    if f.error != UploadErrOk then None
    else if f.size > MaxImageSize then None
    else if f.mime !in AllowedImageTypes then None
    else if f.moved then Some(BuildImageFilename(reportName, kind, Extension(f.name), now))
    else None
  }

  /** An accepted image is stored under the report's name, its kind and its own extension. */
  lemma HandleImageUploadName(f: ImageFile, reportName: string, kind: string, now: nat)
    requires ImageAccepted(f) && f.moved
    ensures HandleImageUpload(f, reportName, kind, now) == Some(BuildImageFilename(reportName, kind, Extension(f.name), now))
    ensures Extension(HandleImageUpload(f, reportName, kind, now).value) == Extension(f.name)
  {
    BuildImageFilenameExtension(reportName, kind, Extension(f.name), now);
  }

  /** The size bound is inclusive: exactly 2 MiB passes, one byte more does not. */
  lemma ImageSizeBound(f: ImageFile)
    requires f.error == UploadErrOk && f.mime == "image/png"
    ensures f.size == 2097152 ==> ImageAccepted(f)
    ensures f.size == 2097153 ==> !ImageAccepted(f)
  {
  }
}
