// `ReportSettingService`: the saved report configurations. The settings
// file holds `{last_id, reports}`; the class keeps the same two fields and
// whether the file is there and decodes. Reading the file is reading the
// fields; a write either succeeds (the fields take the new values) or
// fails (nothing changes), as the caller's `writeOk` says.

module Settings {
  import opened Php

  datatype Images = Images(article: Option<string>, cover: Option<string>)

  datatype Templates = Templates(intro: string, stockBlock: string, disclaimer: string)

  /** One stored report configuration. */
  datatype Report = Report(
    id: int,
    fileName: string,
    title: string,
    author: string,
    numberOfStocks: int,
    dataSource: string,
    images: Images,
    templates: Templates,
    createdAt: string,
    updatedAt: string)

  /**
   * The form fields `saveConfiguration` reads; None is an absent field.
   * `id` is the integer the field denotes, None when it is absent or "".
   */
  datatype SaveInput = SaveInput(
    id: Option<int>,
    fileName: Option<string>,
    reportTitle: Option<string>,
    authorName: Option<string>,
    stockCount: Option<string>,
    dataSource: Option<string>,
    introHtml: Option<string>,
    stockBlockHtml: Option<string>,
    disclaimerHtml: Option<string>)

  /** One `$_FILES` entry: its error code, its client-side name and whether the move succeeds. */
  datatype Upload = Upload(error: int, name: string, moved: bool)

  datatype Uploads = Uploads(article: Option<Upload>, cover: Option<Upload>, manualPdf: Option<Upload>)

  /** The settings file: absent, not valid JSON, or holding the data. */
  datatype FileState = Missing | Corrupt | Present

  /** `{last_id, reports}`. */
  datatype Store = Store(lastId: int, reports: seq<Report>)

  /** The `success`/`message`/`data` array the service returns. */
  datatype Outcome = Outcome(success: bool, message: Option<string>, data: Option<Report>)

  datatype ListOutcome = ListOutcome(success: bool, message: Option<string>, data: seq<Report>)

  // ---------------------------------------------------------------------
  // The record a save builds

  /** `isset($input['id']) && !empty($input['id'])`. */
  predicate IsUpdate(input: SaveInput)
  {
    input.id.Some? && input.id.value != 0
  }

  /**
   * An upload with no error is moved to `<prefix>_<file_name>.<ext>`; the
   * stored name is None when there is no upload, it failed, or the move
   * did not happen.
   */
  function StoredImage(u: Option<Upload>, fileName: string, prefix: string): Option<string>
  {
    if u.Some? && u.value.error == 0 && u.value.moved
    then Some(prefix + "_" + fileName + "." + Extension(u.value.name))
    else None
  }

  /** The report array `saveConfiguration` builds before it looks at the stored ones. */
  function NewReport(lastId: int, input: SaveInput, uploads: Uploads, now: string): Report
  {
    var fileName := input.fileName.GetOr("");
    Report(
      if IsUpdate(input) then input.id.value else lastId + 1,
      fileName,
      input.reportTitle.GetOr(""),
      input.authorName.GetOr(""),
      if input.stockCount.Some? then Intval(input.stockCount.value) else 6,
      input.dataSource.GetOr("data.csv"),
      Images(StoredImage(uploads.article, fileName, "article"), StoredImage(uploads.cover, fileName, "cover")),
      Templates(input.introHtml.GetOr(""), input.stockBlockHtml.GetOr(""), input.disclaimerHtml.GetOr("")),
      now,
      now)
  }

  /** An update keeps the stored images that no new upload replaces, and the creation time. */
  function Merged(built: Report, stored: Report): Report
  {
    built.(images := Images(
             if built.images.article.None? then stored.images.article else built.images.article,
             if built.images.cover.None? then stored.images.cover else built.images.cover),
           createdAt := stored.createdAt)
  }

  /** The index of the first report with this id. */
  function IndexOf(reports: seq<Report>, id: int): (r: Option<nat>)
    ensures r.Some? ==> r.value < |reports| && reports[r.value].id == id
    ensures r.Some? ==> forall j :: 0 <= j < r.value ==> reports[j].id != id
    ensures r.None? ==> forall j :: 0 <= j < |reports| ==> reports[j].id != id
  {
    if reports == [] then None
    else if reports[0].id == id then Some(0)
    else
      match IndexOf(reports[1..], id)
      case None => None
      case Some(i) => Some(i + 1)
  }

  /** The first report with this id. */
  function ById(reports: seq<Report>, id: int): Option<Report>
  {
    match IndexOf(reports, id)
    case None => None
    case Some(i) => Some(reports[i])
  }

  /**
   * What a save does to the data: the new store and the report it
   * returns, or None for 'Report not found'.
   */
  function Saved(data: Store, input: SaveInput, uploads: Uploads, now: string): (r: Option<(Store, Report)>)
    ensures r.None? <==> IsUpdate(input) && IndexOf(data.reports, input.id.value).None?
    ensures r.Some? ==> |r.value.0.reports| == |data.reports| + (if IsUpdate(input) then 0 else 1)
  {
    var built := NewReport(data.lastId, input, uploads, now);
    if IsUpdate(input) then
      match IndexOf(data.reports, input.id.value)
      case None => None
      case Some(i) =>
        var m := Merged(built, data.reports[i]);
        Some((Store(data.lastId, data.reports[i := m]), m))
    else Some((Store(built.id, data.reports + [built]), built))
  }

  /** The message a successful save returns. */
  function SavedMessage(input: SaveInput): string
  {
    if IsUpdate(input) then "Configuration updated successfully" else "Configuration created successfully"
  }

  /** `array_values(array_filter(...))`: the reports with another id, in order. */
  function Without(reports: seq<Report>, id: int): (r: seq<Report>)
    ensures |r| <= |reports|
    ensures forall i :: 0 <= i < |r| ==> r[i].id != id
  {
    if reports == [] then []
    else (if reports[0].id != id then [reports[0]] else []) + Without(reports[1..], id)
  }

  // ---------------------------------------------------------------------
  // The service

  class ReportSettings {
    var file: FileState
    var lastId: int
    var reports: seq<Report>

    constructor(file: FileState, lastId: int, reports: seq<Report>)
      ensures this.file == file && this.lastId == lastId && this.reports == reports
    {
      this.file := file;
      this.lastId := lastId;
      this.reports := reports;
    }

    /** The data a save starts from: a missing or undecodable file reads as empty. */
    function Data(): Store
      reads this
    {
      if file == Present then Store(lastId, reports) else Store(0, [])
    }

    /** `getConfigurations()`. */
    function GetConfigurations(): (r: ListOutcome)
      reads this
      ensures r.success <==> file != Corrupt
      ensures r.message.Some? <==> file == Corrupt
      ensures r.data == Data().reports
    {
      match file
      case Missing => ListOutcome(true, None, [])
      case Corrupt => ListOutcome(false, Some("Invalid JSON format"), [])
      case Present => ListOutcome(true, None, reports)
    }

    /** `getConfigurationById($id)`: the first report with the id. */
    method GetConfigurationById(id: int) returns (r: Outcome)
      ensures file == Missing ==> r == Outcome(false, Some("Settings file not found"), None)
      ensures file == Corrupt ==> r == Outcome(false, Some("Invalid data format"), None)
      ensures file == Present ==>
                r == match ById(reports, id)
                     case Some(rep) => Outcome(true, None, Some(rep))
                     case None => Outcome(false, Some("Configuration not found"), None)
    {
      if file == Missing {
        return Outcome(false, Some("Settings file not found"), None);
      }
      if file == Corrupt {
        return Outcome(false, Some("Invalid data format"), None);
      }
      for i := 0 to |reports|
        invariant forall j :: 0 <= j < i ==> reports[j].id != id
      {
        if reports[i].id == id {
          IndexOfFirst(reports, id, i);
          return Outcome(true, None, Some(reports[i]));
        }
      }
      return Outcome(false, Some("Configuration not found"), None);
    }

    /**
     * `saveConfiguration($input, $files)`. The manual PDF is moved into
     * place but its name is not kept: the stored state and the result do
     * not depend on it.
     */
    method SaveConfiguration(input: SaveInput, uploads: Uploads, now: string, writeOk: bool) returns (r: Outcome)
      modifies this
      ensures Saved(old(Data()), input, uploads, now).None? ==>
                r == Outcome(false, Some("Report not found"), None) && unchanged(this)
      ensures Saved(old(Data()), input, uploads, now).Some? && !writeOk ==>
                r == Outcome(false, Some("Failed to save configuration"), None) && unchanged(this)
      ensures Saved(old(Data()), input, uploads, now).Some? && writeOk ==>
                var (store, rep) := Saved(old(Data()), input, uploads, now).value;
                r == Outcome(true, Some(SavedMessage(input)), Some(rep))
                && file == Present && lastId == store.lastId && reports == store.reports
    {
      hide IndexOf, Intval, Extension;
      var data := Data();
      var isUpdate := input.id.Some? && input.id.value != 0;
      var fileName := input.fileName.GetOr("");

      var articleImage: Option<string> := None;
      if uploads.article.Some? && uploads.article.value.error == 0 {
        articleImage := ImageUpload(uploads.article.value, fileName, "article");
      }
      var coverImage: Option<string> := None;
      if uploads.cover.Some? && uploads.cover.value.error == 0 {
        coverImage := ImageUpload(uploads.cover.value, fileName, "cover");
      }
      var manualPdf: Option<string> := None;
      if uploads.manualPdf.Some? && uploads.manualPdf.value.error == 0 {
        manualPdf := ManualPdfUpload(uploads.manualPdf.value, fileName);
      }

      var report := NewReport(data.lastId, input, uploads, now);
      assert report.images == Images(articleImage, coverImage);
      var newLastId := data.lastId;
      var newReports := data.reports;
      if isUpdate {
        var updated := false;
        var i := 0;
        while i < |newReports| && !updated
          invariant 0 <= i <= |data.reports|
          invariant unchanged(this)
          invariant !updated ==> newReports == data.reports && report == NewReport(data.lastId, input, uploads, now)
          invariant !updated ==> forall j :: 0 <= j < i ==> data.reports[j].id != input.id.value
          invariant updated ==> IndexOf(data.reports, input.id.value) == Some(i)
                                && report == Merged(NewReport(data.lastId, input, uploads, now), data.reports[i])
                                && newReports == data.reports[i := report]
          decreases |newReports| - i, !updated
        {
          var stored := newReports[i];
          if stored.id == input.id.value {
            IndexOfFirst(data.reports, input.id.value, i);
            if report.images.article.None? {
              report := report.(images := report.images.(article := stored.images.article));
            }
            if report.images.cover.None? {
              report := report.(images := report.images.(cover := stored.images.cover));
            }
            report := report.(createdAt := stored.createdAt);
            newReports := newReports[i := report];
            updated := true;
          } else {
            i := i + 1;
          }
        }
        if !updated {
          IndexOfAbsent(data.reports, input.id.value);
          return Outcome(false, Some("Report not found"), None);
        }
      } else {
        newLastId := report.id;
        newReports := newReports + [report];
      }

      if writeOk {
        file := Present;
        lastId := newLastId;
        reports := newReports;
        r := Outcome(true, Some(if isUpdate then "Configuration updated successfully"
                                else "Configuration created successfully"), Some(report));
      } else {
        r := Outcome(false, Some("Failed to save configuration"), None);
      }
    }

    /** `deleteConfiguration($id)`: every report with the id goes; `last_id` stays. */
    method DeleteConfiguration(id: Option<int>, writeOk: bool) returns (r: Outcome)
      modifies this
      ensures lastId == old(lastId) && file == old(file)
      ensures id.None? ==> r == Outcome(false, Some("ID is required"), None) && unchanged(this)
      ensures id.Some? && old(file) == Missing ==>
                r == Outcome(false, Some("Settings file not found"), None) && unchanged(this)
      ensures id.Some? && old(file) == Corrupt ==>
                r == Outcome(false, Some("Invalid data format"), None) && unchanged(this)
      ensures id.Some? && old(file) == Present ==>
                if |Without(old(reports), id.value)| == |old(reports)| then
                  r == Outcome(false, Some("Configuration not found"), None) && reports == old(reports)
                else if writeOk then
                  r == Outcome(true, Some("Configuration deleted successfully"), None)
                  && reports == Without(old(reports), id.value)
                else
                  r == Outcome(false, Some("Failed to write file"), None) && reports == old(reports)
    {
      if id.None? {
        return Outcome(false, Some("ID is required"), None);
      }
      if file == Missing {
        return Outcome(false, Some("Settings file not found"), None);
      }
      if file == Corrupt {
        return Outcome(false, Some("Invalid data format"), None);
      }
      var initialCount := |reports|;
      var kept := Without(reports, id.value);
      WithoutLength(reports, id.value);
      if |kept| < initialCount {
        if writeOk {
          reports := kept;
          return Outcome(true, Some("Configuration deleted successfully"), None);
        }
        return Outcome(false, Some("Failed to write file"), None);
      }
      return Outcome(false, Some("Configuration not found"), None);
    }
  }

  /** The service's `handleImageUpload($file, $fileName, $prefix)`. */
  method ImageUpload(f: Upload, fileName: string, prefix: string) returns (name: Option<string>)
    ensures name == StoredImage(Some(f), fileName, prefix)
  {
    hide Extension;
    if f.error != 0 {
      return None;
    }
    var ext := Extension(f.name);
    var filename := prefix + "_" + fileName + "." + ext;
    if f.moved {
      return Some(filename);
    }
    return None;
  }

  /** `handleManualPdfUpload($file, $fileName)`: the PDF is stored as `<file_name>.pdf`. */
  method ManualPdfUpload(f: Upload, fileName: string) returns (name: Option<string>)
    ensures name.Some? <==> f.error == 0 && f.moved
    ensures name.Some? ==> name.value == fileName + ".pdf"
  {
    if f.error != 0 {
      return None;
    }
    if f.moved {
      return Some(fileName + ".pdf");
    }
    return None;
  }

  // ---------------------------------------------------------------------
  // Properties

  lemma {:induction false} WithoutLength(reports: seq<Report>, id: int)
    ensures |Without(reports, id)| <= |reports|
    ensures |Without(reports, id)| < |reports| <==> IndexOf(reports, id).Some?
  {
    if reports != [] {
      WithoutLength(reports[1..], id);
    }
  }

  /** The lookup looks at the first report, then at the rest. */
  lemma {:induction false} ByIdCons(reports: seq<Report>, id: int)
    requires reports != []
    ensures ById(reports, id) == if reports[0].id == id then Some(reports[0]) else ById(reports[1..], id)
  {
  }

  /** The lookup finds the first report carrying the id. */
  lemma {:induction false} IndexOfFirst(reports: seq<Report>, id: int, i: nat)
    requires i < |reports| && reports[i].id == id
    requires forall j :: 0 <= j < i ==> reports[j].id != id
    ensures IndexOf(reports, id) == Some(i)
  {
    if i > 0 {
      IndexOfFirst(reports[1..], id, i - 1);
    }
  }

  lemma IndexOfAbsent(reports: seq<Report>, id: int)
    requires forall j :: 0 <= j < |reports| ==> reports[j].id != id
    ensures IndexOf(reports, id).None?
  {
  }

  /** Nothing with the id is left, and every other id finds what it found before. */
  lemma {:induction false} WithoutById(reports: seq<Report>, id: int, other: int)
    ensures ById(Without(reports, id), id) == None
    ensures other != id ==> ById(Without(reports, id), other) == ById(reports, other)
  {
    if reports != [] {
      hide ById, IndexOf;
      WithoutById(reports[1..], id, other);
      ByIdCons(reports, other);
      var rest := Without(reports[1..], id);
      if reports[0].id != id {
        var w := [reports[0]] + rest;
        assert Without(reports, id) == w;
        assert w[1..] == rest;
        ByIdCons(w, id);
        ByIdCons(w, other);
      } else {
        assert Without(reports, id) == rest;
      }
    }
  }

  /** The reports a delete keeps are those with another id, in their order. */
  lemma {:induction false} WithoutKeeps(reports: seq<Report>, id: int)
    ensures forall r :: r in Without(reports, id) <==> r in reports && r.id != id
  {
    if reports != [] {
      WithoutKeeps(reports[1..], id);
      assert reports == [reports[0]] + reports[1..];
    }
  }

  /** One report is dropped exactly when it carries the id. */
  lemma WithoutSingle(r: Report, id: int)
    ensures Without([r], id) == if r.id != id then [r] else []
  {
    assert [r][1..] == [];
  }

  /**
   * The filter keeps the order of the list: filtering two stretches of it
   * and joining the results is filtering the whole.
   */
  lemma {:induction false} WithoutAppend(a: seq<Report>, b: seq<Report>, id: int)
    ensures Without(a + b, id) == Without(a, id) + Without(b, id)
    decreases |a|
  {
    if a == [] {
      assert a + b == b;
    } else {
      assert (a + b)[0] == a[0];
      assert (a + b)[1..] == a[1..] + b;
      WithoutAppend(a[1..], b, id);
    }
  }

  /** A create stores the new report at the end under `last_id + 1` and moves `last_id` there. */
  lemma SaveCreates(data: Store, input: SaveInput, uploads: Uploads, now: string)
    requires !IsUpdate(input)
    ensures Saved(data, input, uploads, now).Some?
    ensures var (store, rep) := Saved(data, input, uploads, now).value;
            rep.id == data.lastId + 1 && store.lastId == data.lastId + 1
            && store.reports == data.reports + [rep]
  {
  }

  /**
   * An update replaces the first report with the id at its own index,
   * keeps its creation time and the images no new upload replaces, and
   * leaves the other reports and `last_id` alone.
   */
  lemma SaveUpdates(data: Store, input: SaveInput, uploads: Uploads, now: string, i: nat)
    requires IsUpdate(input) && IndexOf(data.reports, input.id.value) == Some(i)
    ensures Saved(data, input, uploads, now).Some?
    ensures var (store, rep) := Saved(data, input, uploads, now).value;
            var built := NewReport(data.lastId, input, uploads, now);
            store.lastId == data.lastId
            && |store.reports| == |data.reports| && store.reports[i] == rep
            && (forall j :: 0 <= j < |data.reports| && j != i ==> store.reports[j] == data.reports[j])
            && rep.id == data.reports[i].id
            && rep.createdAt == data.reports[i].createdAt && rep.updatedAt == now
            && rep.images.article == (if built.images.article.Some? then built.images.article
                                      else data.reports[i].images.article)
            && rep.images.cover == (if built.images.cover.Some? then built.images.cover
                                    else data.reports[i].images.cover)
  {
  }

  /** Updating an id that is not stored is 'Report not found'. */
  lemma SaveUnknownId(data: Store, input: SaveInput, uploads: Uploads, now: string)
    requires IsUpdate(input)
    ensures Saved(data, input, uploads, now).None?
        <==> forall j :: 0 <= j < |data.reports| ==> data.reports[j].id != input.id.value
  {
    if IndexOf(data.reports, input.id.value).Some? {
      var i := IndexOf(data.reports, input.id.value).value;
      assert data.reports[i].id == input.id.value;
    }
  }

  /**
   * The fields of the saved report: absent fields take their defaults
   * (6 stocks, 'data.csv', empty texts), `stock_count` goes through
   * `intval`, and a new image is named `<prefix>_<file_name>.<ext>`.
   */
  lemma SavedFields(data: Store, input: SaveInput, uploads: Uploads, now: string)
    requires Saved(data, input, uploads, now).Some?
    ensures var rep := Saved(data, input, uploads, now).value.1;
            var fileName := input.fileName.GetOr("");
            rep.fileName == fileName
            && rep.title == input.reportTitle.GetOr("") && rep.author == input.authorName.GetOr("")
            && (input.stockCount.None? ==> rep.numberOfStocks == 6)
            && (input.stockCount.Some? ==> rep.numberOfStocks == Intval(input.stockCount.value))
            && (input.dataSource.None? ==> rep.dataSource == "data.csv")
            && (input.dataSource.Some? ==> rep.dataSource == input.dataSource.value)
            && (input.introHtml.None? ==> rep.templates.intro == "")
            && (input.introHtml.Some? ==> rep.templates.intro == input.introHtml.value)
            && (input.stockBlockHtml.None? ==> rep.templates.stockBlock == "")
            && (input.stockBlockHtml.Some? ==> rep.templates.stockBlock == input.stockBlockHtml.value)
            && (input.disclaimerHtml.None? ==> rep.templates.disclaimer == "")
            && (input.disclaimerHtml.Some? ==> rep.templates.disclaimer == input.disclaimerHtml.value)
            && (forall u :: uploads.article == Some(u) && u.error == 0 && u.moved ==>
                  rep.images.article == Some("article_" + fileName + "." + Extension(u.name)))
            && (forall u :: uploads.cover == Some(u) && u.error == 0 && u.moved ==>
                  rep.images.cover == Some("cover_" + fileName + "." + Extension(u.name)))
  {
    assert "article" + "_" == "article_";
    assert "cover" + "_" == "cover_";
  }

  /** Every id is at most `last_id`, and no id is stored twice. */
  predicate IdsFresh(s: Store)
  {
    (forall i :: 0 <= i < |s.reports| ==> s.reports[i].id <= s.lastId)
    && (forall i, j :: 0 <= i < j < |s.reports| ==> s.reports[i].id != s.reports[j].id)
  }

  /** Saving keeps the ids fresh: a created id is new, an updated one stays. */
  lemma SaveKeepsIdsFresh(data: Store, input: SaveInput, uploads: Uploads, now: string)
    requires IdsFresh(data)
    requires Saved(data, input, uploads, now).Some?
    ensures IdsFresh(Saved(data, input, uploads, now).value.0)
  {
    if IsUpdate(input) {
      var i := IndexOf(data.reports, input.id.value).value;
      SaveUpdates(data, input, uploads, now, i);
    }
  }

  /** With fresh ids, the saved report is what a lookup of its id finds. */
  lemma SavedIsFound(data: Store, input: SaveInput, uploads: Uploads, now: string)
    requires IdsFresh(data)
    requires Saved(data, input, uploads, now).Some?
    ensures var (store, rep) := Saved(data, input, uploads, now).value;
            ById(store.reports, rep.id) == Some(rep)
  {
    var (store, rep) := Saved(data, input, uploads, now).value;
    SaveKeepsIdsFresh(data, input, uploads, now);
    if IsUpdate(input) {
      var i := IndexOf(data.reports, input.id.value).value;
      SaveUpdates(data, input, uploads, now, i);
      IndexOfDistinct(store.reports, i);
    } else {
      assert store.reports[|data.reports|] == rep;
      IndexOfDistinct(store.reports, |data.reports|);
    }
  }

  /** With distinct ids, the lookup of a report's id lands on that report. */
  lemma IndexOfDistinct(reports: seq<Report>, i: nat)
    requires forall j, k :: 0 <= j < k < |reports| ==> reports[j].id != reports[k].id
    requires i < |reports|
    ensures IndexOf(reports, reports[i].id) == Some(i)
  {
  }

  /** Deleting keeps the ids fresh, so a later create never reuses a deleted id. */
  lemma {:induction false} DeleteKeepsIdsFresh(s: Store, id: int)
    requires IdsFresh(s)
    ensures IdsFresh(Store(s.lastId, Without(s.reports, id)))
  {
    WithoutKeeps(s.reports, id);
    var kept := Without(s.reports, id);
    assert forall i :: 0 <= i < |kept| ==> kept[i] in s.reports;
    WithoutDistinct(s.reports, id);
  }

  lemma {:induction false} WithoutDistinct(reports: seq<Report>, id: int)
    requires forall i, j :: 0 <= i < j < |reports| ==> reports[i].id != reports[j].id
    ensures forall i, j :: 0 <= i < j < |Without(reports, id)| ==>
              Without(reports, id)[i].id != Without(reports, id)[j].id
  {
    if reports != [] {
      var rest := reports[1..];
      WithoutDistinct(rest, id);
      WithoutKeeps(rest, id);
      var w := Without(rest, id);
      if reports[0].id != id {
        var all := [reports[0]] + w;
        forall i, j | 0 <= i < j < |all| ensures all[i].id != all[j].id {
          if i == 0 {
            assert all[j] in rest;
            var k :| 0 <= k < |rest| && rest[k] == all[j];
            assert reports[k + 1] == all[j];
          } else {
            assert all[i] == w[i - 1] && all[j] == w[j - 1];
          }
        }
      } else {
        assert Without(reports, id) == w;
      }
    }
  }

  /** A created report's id is above every stored one, deleted ones included. */
  lemma CreatedIdIsNew(data: Store, input: SaveInput, uploads: Uploads, now: string, gone: int)
    requires IdsFresh(data) && !IsUpdate(input)
    requires gone <= data.lastId
    ensures Saved(data, input, uploads, now).value.1.id != gone
    ensures forall j :: 0 <= j < |data.reports| ==> Saved(data, input, uploads, now).value.1.id != data.reports[j].id
  {
  }

  /** The manual PDF upload is handled but leaves no trace in the saved report or the store. */
  lemma ManualPdfNotStored(data: Store, input: SaveInput, uploads: Uploads, now: string, pdf: Option<Upload>)
    ensures Saved(data, input, uploads.(manualPdf := pdf), now) == Saved(data, input, uploads, now)
  {
  }
}
