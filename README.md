# Stock report generator: a Dafny model

This project models the core of a small PHP application that produces
stock reports. A stored report configuration names these parts:

- a CSV data source;
- a title and an author;
- two images;
- three HTML templates: an intro, a block repeated once per stock, and a
  disclaimer.

The application renders a report in up to three forms: an HTML article, a
PDF document and a page-turning "flipbook".

The model covers four parts.

- **The template engine (`ReportGeneratorService`).**
  - CSV parsing: headers are cleaned and rows whose length differs from the
    header count are dropped. The parsed rows are cached per path in a
    field of the service object.
  - Shortcode substitution: a `[Token]`-to-value map is sorted longest key
    first, then folded with replace-all.
  - The three document builders. The PDF builder also strips the chart
    widgets.
  - The four generate operations.
- **The configuration store (`ReportSettingService`).** This is a class
  holding `last_id` and the list of reports, with create, update, delete,
  lookup and list.
- **The request helpers of `common.php`.** These are response shaping,
  field picking, required-field validation, file-name sanitising,
  image-name building and the image-upload checks.
- **Three endpoints.**
  - `generate_reports`: a form request with image uploads, dispatched by
    report type.
  - `generate_from_config`: a batch over stored configurations.
  - `upload_manual_pdf`: a chain of guard checks.

Strings are sequences of characters, one character per byte.
`htmlspecialchars` follows PHP 5.5's defaults: `ENT_COMPAT` and UTF-8,
without `ENT_SUBSTITUTE` or `ENT_IGNORE`. So text that is not valid UTF-8,
such as "Soci\xE9t\xE9" in Latin-1, escapes to "". A character above 0xFF
is not a byte and counts as invalid. PHP's ordered
arrays are association lists (`Php.Assoc`). In those lists `Put` overwrites
a key in place or appends it, and `Lookup` finds the first entry.

Everything from outside arrives as a parameter:

- the clock;
- `time()` and `mt_rand`;
- what the data directory holds;
- whether a write or an upload move succeeds;
- the MIME type `finfo` reports;
- the PDF converter's outcome.

The files, in dependency order:

| file | module | what it holds |
|---|---|---|
| `php.dfy` | `Php` | the PHP built-ins the core relies on: `empty`, `trim`, `strtolower`, `intval`, `str_replace`, `htmlspecialchars`, `urlencode`, `pathinfo` extension, ordered arrays |
| `config.dfy` | `ReportConfig` | the `$config` array the generators read |
| `csv.dfy` | `Csv` | header cleaning, row zipping, the limit slice, the per-path cache |
| `tokens.dfy` | `Tokens` | templates as literal text and `[Name]` tokens; what a replace-all does to them |
| `shortcodes.dfy` | `Shortcodes` | the replacement map, its longest-first order, `replaceShortcodes`, the default stock block |
| `widgets.dfy` | `Widgets` | the chart widget's shape and the widget-stripping regular expression |
| `renderers.dfy` | `Renderers` | the HTML body, the PDF document and the flipbook document |
| `generator.dfy` | `Generator` | the `ReportGenerator` class: cache, parse, build, generate |
| `common.dfy` | `Common` | `common.php` |
| `settings.dfy` | `Settings` | the `ReportSettings` class |
| `generate_reports.dfy` | `GenerateReports` | the `generate_reports` endpoint |
| `generate_from_config.dfy` | `GenerateFromConfig` | the `generate_from_config` endpoint |
| `upload_manual_pdf.dfy` | `ManualPdf` | the `upload_manual_pdf` endpoint |

## Model

| member | source | states |
|---|---|---|
| Csv.StripBom | app/services/ReportGeneratorService.php:292 | a header that starts with the UTF-8 byte-order mark loses exactly those three bytes; any other header is kept |
| Csv.CleanHeader | app/services/ReportGeneratorService.php:291-294 | a cleaned header neither starts nor ends with whitespace and is no longer than the raw one |
| Csv.CleanHeaders | app/services/ReportGeneratorService.php:291-294 | every header is cleaned, position by position |
| Csv.CleanHeaderBom | app/services/ReportGeneratorService.php:291-294 | a header behind a byte-order mark comes out as the trimmed header |
| Csv.MatchingRows | app/services/ReportGeneratorService.php:297-301 | the kept rows are exactly the rows whose length equals the header count |
| Csv.MatchingRowsSingle | app/services/ReportGeneratorService.php:297-301 | one row is kept exactly when its length equals the header count |
| Csv.MatchingRowsAppend | app/services/ReportGeneratorService.php:297-301 | the kept rows of two stretches of the file are the first stretch's kept rows followed by the second's, so file order is kept |
| Csv.ParseRows | app/services/ReportGeneratorService.php:297-301 | the loop adds at most one record per row read |
| Csv.ParseRowsZips | app/services/ReportGeneratorService.php:297-301 | the records are the kept rows in file order, each zipped positionally with the headers |
| Csv.CombineLookup | app/services/ReportGeneratorService.php:299 | with distinct headers, a record maps each header to the cell in the same position |
| Csv.CombineKeys | app/services/ReportGeneratorService.php:299 | with distinct headers, a record's keys are the headers in order |
| Csv.CombineDistinct | app/services/ReportGeneratorService.php:299 | a record never holds a key twice, even when a header repeats |
| Csv.CombineLast | app/services/ReportGeneratorService.php:299 | a header maps to the cell of its last occurrence, so a repeated header takes the later cell, as `array_combine` gives it |
| Csv.ParsedRecordsDistinct | app/services/ReportGeneratorService.php:297-301 | every parsed record has distinct keys |
| Csv.Slice | app/services/ReportGeneratorService.php:308-312 | `array_slice($data, 0, $limit)` is a prefix: all rows without a limit; min(limit, n) rows for a non-negative limit; all but the last -limit rows for a negative one |
| Csv.CachedIgnoresFile | app/services/ReportGeneratorService.php:275-276 | once a path is cached, the result is the cached rows whatever the file now holds, and the cache is unchanged |
| Csv.SecondCallCached | app/services/ReportGeneratorService.php:305-312 | after a successful read, a later call on the same path returns the first read's rows |
| Csv.UnreadableNotCached | app/services/ReportGeneratorService.php:278-288 | a file that does not open or has no header row gives no rows and is not cached |
| Generator.ReportGenerator.ParseCsv | app/services/ReportGeneratorService.php:273-313 | the loop returns the specified rows and leaves the cache as specified, and nothing else in the object changes |
| Tokens.Key | app/services/ReportGeneratorService.php:336 | a token is its name between square brackets |
| Tokens.KeyInjective | app/services/ReportGeneratorService.php:336 | two names give the same token if and only if they are equal |
| Tokens.ReplaceStep | app/services/ReportGeneratorService.php:349 | replacing one token everywhere in a rendered template fills exactly the pieces that are that token |
| Tokens.ApplyPairsResolves | app/services/ReportGeneratorService.php:349 | when no value contains a bracket, the replace-all fold over token pairs fills each token with its first value in the map and leaves unknown tokens as they were |
| Tokens.ApplyPairsPlain | app/services/ReportGeneratorService.php:349 | when every search key opens with '[', the fold leaves text without '[' as it is |
| Tokens.UnknownTokenKept | app/services/ReportGeneratorService.php:349 | a token with no entry stays verbatim in the output |
| Tokens.ResolveSameLookups | app/services/ReportGeneratorService.php:345-349 | two maps that look up alike fill a template alike |
| Shortcodes.BaseReplacements | app/services/ReportGeneratorService.php:325-329 | the map starts with `[Current Date]`, `[Report Title]` and `[Author]`, in that order |
| Shortcodes.BaseLookup | app/services/ReportGeneratorService.php:325-329 | the three fixed tokens map to the clock reading, the title or "" and the author or "" |
| Shortcodes.NoRecordLookup | app/services/ReportGeneratorService.php:325-332 | without a record only the three fixed tokens have values, and `[Chart]` has none |
| Shortcodes.RecordLookup | app/services/ReportGeneratorService.php:332-342 | with a record, `[Chart]` is the widget for the `Ticker` column or for ""; a column overrides a fixed token of the same name; other tokens keep their fixed values |
| Shortcodes.PutColumnsLookup | app/services/ReportGeneratorService.php:334-337 | after the column loop, a column's token maps to its cell and every other token keeps its earlier value |
| Shortcodes.PutEachColumn | app/services/ReportGeneratorService.php:334-337 | the loop adds every column as `[column]` and keeps the keys distinct |
| Shortcodes.BuildReplacements | app/services/ReportGeneratorService.php:325-342 | the built map is the specified one and has distinct keys |
| Shortcodes.ReplacementsDistinct | app/services/ReportGeneratorService.php:325-342 | no key occurs twice in the replacement map |
| Shortcodes.InsertByKeyLength | app/services/ReportGeneratorService.php:345-347 | inserting keeps the pairs as a multiset and keeps them longest key first |
| Shortcodes.SortByKeyLength | app/services/ReportGeneratorService.php:345-347 | the sorted map is a permutation of the map, ordered longest key first |
| Shortcodes.LookupPermutation | app/services/ReportGeneratorService.php:345-347 | with distinct keys, reordering the pairs changes no lookup |
| Shortcodes.SubstitutionResolves | app/services/ReportGeneratorService.php:345-349 | for every longest-first order, whichever way equal-length keys fall, the fold fills each token from the map and keeps unknown ones |
| Shortcodes.ReplacementsBracketKeys | app/services/ReportGeneratorService.php:325-342 | every key of the map opens with '[', whatever the record's columns are called |
| Shortcodes.ReplaceShortcodes | app/services/ReportGeneratorService.php:323-352 | a template without '[' comes back unchanged, whatever the clock, the config and the record hold |
| Shortcodes.ReplaceShortcodesResolves | app/services/ReportGeneratorService.php:323-352 | `replaceShortcodes` on a template fills every token the map knows and keeps the rest verbatim |
| Shortcodes.Expand | app/services/ReportGeneratorService.php:323-352 | the method builds the map, sorts it and folds it into the specified result |
| Shortcodes.UnfilledTokenKept | app/services/ReportGeneratorService.php:332-349 | a token that is not a column and not one of the four built-in tokens stays verbatim in a stock block |
| Shortcodes.DefaultBlockExchange | app/services/ReportGeneratorService.php:361-370 | the default block's misspelt `[Exchage]` token is left verbatim unless the CSV has an `Exchage` column |
| Shortcodes.NoRecordChartKept | app/services/ReportGeneratorService.php:332-342 | `[Chart]` in an intro stays verbatim |
| Shortcodes.FoldRewritesValues | app/services/ReportGeneratorService.php:349 | a value substituted earlier that contains a later token is itself rewritten |
| Shortcodes.FoldOrderMatters | app/services/ReportGeneratorService.php:349 | in the opposite order the same pairs leave that token in the output |
| Widgets.IframeSrc | app/services/ReportGeneratorService.php:399-400 | the iframe address is the widget endpoint followed by the url-encoded ticker, which stands in for the encoded widget configuration |
| Widgets.WidgetShape | app/services/ReportGeneratorService.php:402-442 | the widget text starts with the stripping pattern's opening marker and ends with its closing marker |
| Widgets.WidgetIsRegion | app/services/ReportGeneratorService.php:402-442 | every occurrence of a widget is a region the stripping pattern matches |
| Widgets.StripWith | app/services/ReportGeneratorService.php:497 | text with no opening marker is unchanged; with a note no longer than the two markers, stripping never lengthens the text |
| Widgets.NoRegionSurvives | app/services/ReportGeneratorService.php:497 | after stripping, no text runs from an opening marker to a closing marker |
| Widgets.NoWidgetSurvives | app/services/ReportGeneratorService.php:497 | after stripping, no widget for any ticker remains |
| Widgets.StripIdempotent | app/services/ReportGeneratorService.php:497 | stripping twice is stripping once |
| Widgets.StripWithoutWidget | app/services/ReportGeneratorService.php:497 | text without an opening marker is left as it is |
| Renderers.IntroPart | app/services/ReportGeneratorService.php:79-86 | the intro contributes text if and only if it is non-empty |
| Renderers.HtmlBody | app/services/ReportGeneratorService.php:66-111 | the file `generateHtml` writes: the head, one block per record, the disclaimer part and the closing tag. It has no contract of its own; the three lemmas below state its layout |
| Renderers.HtmlBlockOrder | app/services/ReportGeneratorService.php:95-102 | the stock blocks come one per record, in record order |
| Renderers.HtmlDisclaimerLast | app/services/ReportGeneratorService.php:104-111 | a non-empty disclaimer is appended verbatim, between newlines, just before the closing tag |
| Renderers.HtmlNoDisclaimer | app/services/ReportGeneratorService.php:66-111 | without a disclaimer the body is the head, the blocks and the closing tag |
| Renderers.DocumentTitle | app/services/ReportGeneratorService.php:456 | the title defaults to "Stock Report"; a given title is escaped and holds no `<`, `>` or `"`; a title that is not valid UTF-8 gives an empty title |
| Renderers.PdfBlockHasNoWidget | app/services/ReportGeneratorService.php:490-499 | no PDF stock block holds a chart widget |
| Renderers.PdfBlockOrder | app/services/ReportGeneratorService.php:490-499 | the PDF stock blocks come one per record, in record order |
| Renderers.CoverPage | app/services/ReportGeneratorService.php:589-600 | there is a cover page unless both images are empty |
| Renderers.CoverPrefersPdfCover | app/services/ReportGeneratorService.php:590-594 | with a PDF cover image the article image plays no part in the cover |
| Renderers.Field | app/services/ReportGeneratorService.php:629-632 | a missing column reads as ""; a present one is escaped, and reads as "" when it is not valid UTF-8 |
| Renderers.NumberedAt | app/services/ReportGeneratorService.php:627-657 | the page for the i-th record carries the number i + 1 |
| Renderers.StockPagesNumbered | app/services/ReportGeneratorService.php:627-657 | the flipbook's stock pages are the records' pages numbered 1 to n, in record order |
| Renderers.FlipbookDocument | app/services/ReportGeneratorService.php:582-767 | the file `generateFlipbook` writes: the page shell around the cover, intro, stock and disclaimer pages. It has no contract of its own; `Renderers.StockPagesNumbered` and `Generator.ReportGenerator.BuildFlipbookHtml` state its pages |
| Generator.AppendEach | app/services/ReportGeneratorService.php:95-102 | the foreach loop appends one piece per record, in order |
| Generator.AppendNumbered | app/services/ReportGeneratorService.php:627-658 | the loop with its counter appends the pages numbered from 1 |
| Generator.ReportGenerator.BuildHtml | app/services/ReportGeneratorService.php:66-111 | the method builds the specified HTML body |
| Generator.ReportGenerator.BuildPdfHtml | app/services/ReportGeneratorService.php:454-573 | the method builds the specified PDF document |
| Generator.ReportGenerator.BuildFlipbookHtml | app/services/ReportGeneratorService.php:582-767 | the method builds the specified flipbook document |
| Generator.HtmlResult | app/services/ReportGeneratorService.php:48-128 | success if and only if the data file exists and the write succeeds; a missing data file gives "Data source file not found: <name>"; the file is `<file_name>.html` |
| Generator.PdfResult | app/services/ReportGeneratorService.php:136-173 | success if and only if the data file exists and the converter created the file; the same missing-file message; the file is `<file_name>.pdf` |
| Generator.FlipbookResult | app/services/ReportGeneratorService.php:181-222 | success if and only if the data file exists and the write succeeds; the same missing-file message; the file is `<file_name>/index.html` |
| Generator.ReportGenerator.GenerateHtml | app/services/ReportGeneratorService.php:48-128 | the result is the specified one; the cache gains the data file's rows; the body is written only when the data file exists and the write succeeds |
| Generator.ReportGenerator.GeneratePdf | app/services/ReportGeneratorService.php:136-173 | the same for the PDF document and the converter's outcome |
| Generator.ReportGenerator.GenerateFlipbook | app/services/ReportGeneratorService.php:181-222 | the same for the flipbook document |
| Generator.Collect | app/services/ReportGeneratorService.php:232-263 | each target lands in exactly one of `generated` or `failed`, keyed by its name; `success` is false exactly when HTML fails; no other key appears |
| Generator.FiledLookup | app/services/ReportGeneratorService.php:240-261 | filing one result adds its file or its message under the target and changes nothing else |
| Generator.ReportGenerator.GenerateAll | app/services/ReportGeneratorService.php:230-264 | the result collects the three generators' results; the three documents are written in order from the same records |
| Generator.SameRecordsLater | app/services/ReportGeneratorService.php:239-258 | the second and third generator read the rows the first one cached |
| Common.SendResponseKeys | app/api/common.php:50-65 | the response has `success`, then `message` only when one is given, then `data` only when there is data |
| Common.SendResponseValues | app/api/common.php:50-65 | the three keys carry the given values |
| Common.GetFormInput | app/api/common.php:113-144 | with no field list the whole POST comes back; otherwise the listed fields |
| Common.PickedLookup | app/api/common.php:117-133 | a listed field present in POST comes back unchanged; any other key is absent |
| Common.ValidateRequired | app/api/common.php:153-167 | `missing` lists the missing required fields; the input is valid if and only if that list is empty |
| Common.MissingFieldsIff | app/api/common.php:157-161 | a field is reported if and only if it is required and is absent or trims to "" |
| Common.MissingFieldsAppend | app/api/common.php:157-161 | missing fields are reported in the order of the required list |
| Common.CollapseRunsClean | app/api/common.php:197 | after the regular expression, only `[a-z0-9_]` is left and no two underscores are adjacent |
| Common.CleanedShape | app/api/common.php:191-200 | before the fallback, a name is empty or holds only `[a-z0-9_]`, with no leading, trailing or doubled underscore |
| Common.FallbackClean | app/api/common.php:203-205 | the `unnamed_<time>` fallback has the same clean shape and is not empty |
| Common.Sanitize | app/api/common.php:188-208 | a sanitised name is never empty in PHP's sense |
| Common.SanitizeClean | app/api/common.php:188-208 | every sanitised name has the clean shape and is non-empty in PHP's sense |
| Common.SanitizeFixed | app/api/common.php:188-208 | a name that already has the clean shape and is not "0" is kept as it is |
| Common.SanitizeIdempotent | app/api/common.php:188-208 | sanitising twice at the same time gives the same name |
| Common.SanitizeExample | app/api/common.php:183-188 | "My File-Name!" becomes "my_file_name" |
| Common.BuildImageFilenameExample | app/api/common.php:212-224 | "My Report" with "article" and "jpg" becomes "my_report_article.jpg" |
| Common.BuildImageFilenameExtension | app/api/common.php:219-224 | the built name's extension is the given one |
| Common.HandleImageUpload | app/api/common.php:236-272 | a name comes back if and only if the upload has no error, is at most 2 MiB, has an allowed MIME type and is moved |
| Common.HandleImageUploadName | app/api/common.php:259-268 | an accepted upload is named by `buildImageFilename` and keeps the uploaded file's extension |
| Common.ImageSizeBound | app/api/common.php:244-247 | exactly 2 MiB is accepted; one byte more is rejected |
| Settings.IndexOf | app/services/ReportSettingService.php:199-200 | the position of the first report with the id, or None when no report has it |
| Settings.ReportSettings.GetConfigurations | app/services/ReportSettingService.php:67-91 | success unless the file does not decode; a message exactly then; the data is the stored reports, none for a missing or undecodable file |
| Settings.ReportSettings.GetConfigurationById | app/services/ReportSettingService.php:99-131 | the first report with the id; otherwise "Settings file not found", "Invalid data format" or "Configuration not found" |
| Settings.ReportSettings.SaveConfiguration | app/services/ReportSettingService.php:140-234 | the loop finds the first matching report; an unknown id gives "Report not found" and changes nothing; a failed write gives "Failed to save configuration" and changes nothing; otherwise the store becomes the specified one |
| Settings.Saved | app/services/ReportSettingService.php:176-221 | there is no result exactly for an update whose id no stored report has; an update keeps the number of reports and a create adds one |
| Settings.SaveCreates | app/services/ReportSettingService.php:176-221 | a create gets id `last_id + 1`, sets `last_id` to it and is appended at the end |
| Settings.SaveUpdates | app/services/ReportSettingService.php:196-213 | an update replaces the first matching report at its index. It keeps the id, `created_at` and any image no new upload replaces, and stamps `updated_at`. Other reports and `last_id` stay as they were |
| Settings.SaveUnknownId | app/services/ReportSettingService.php:196-216 | an update fails if and only if no stored report has the id |
| Settings.SavedFields | app/services/ReportSettingService.php:176-194 | the saved fields: a posted data source or template is stored as given, an absent one takes its default ("data.csv", ""); `intval(stock_count)` or 6; images are `<prefix>_<file_name>.<ext>` |
| Settings.ManualPdfNotStored | app/services/ReportSettingService.php:169-194 | the manual PDF upload changes neither the saved report nor the store |
| Settings.ImageUpload | app/services/ReportSettingService.php:289-303 | an upload without error that is moved is stored as `<prefix>_<file_name>.<ext>` |
| Settings.ManualPdfUpload | app/services/ReportSettingService.php:312-325 | an upload without error that is moved is stored as `<file_name>.pdf` |
| Settings.SaveKeepsIdsFresh | app/services/ReportSettingService.php:196-221 | if `last_id` bounds every id and ids are distinct, a save keeps that so |
| Settings.SavedIsFound | app/services/ReportSettingService.php:196-221 | with such a store, the saved report is what a lookup by its id returns |
| Settings.CreatedIdIsNew | app/services/ReportSettingService.php:177 | a created id differs from every stored id and from every id handed out before, deleted ones included |
| Settings.ReportSettings.DeleteConfiguration | app/services/ReportSettingService.php:242-279 | "ID is required", "Settings file not found" and "Invalid data format" change nothing. Otherwise every report with the id is removed. A no-op removal gives "Configuration not found". A failed write gives "Failed to write file". `last_id` never changes |
| Settings.Without | app/services/ReportSettingService.php:261-266 | no report left carries the id, and the list never grows |
| Settings.WithoutSingle | app/services/ReportSettingService.php:262-264 | one report is dropped exactly when it carries the id |
| Settings.WithoutAppend | app/services/ReportSettingService.php:262-266 | filtering two stretches and joining them is filtering the whole, so the reports left keep their order |
| Settings.WithoutLength | app/services/ReportSettingService.php:261-266 | the filter removes something if and only if a report has the id |
| Settings.WithoutKeeps | app/services/ReportSettingService.php:262-264 | the reports left are exactly those with another id |
| Settings.WithoutById | app/services/ReportSettingService.php:262-264 | after a delete the id is not found; other ids are found as before |
| Settings.DeleteKeepsIdsFresh | app/services/ReportSettingService.php:242-279 | a delete keeps ids distinct and bounded by `last_id` |
| GenerateReports.Served | app/api/generate_reports.php:4-27 | the endpoint answers at all exactly when none of its own top-level functions has the name of one in `common.php`, compared without regard to case |
| GenerateReports.AsWrittenNeverResponds | app/api/generate_reports.php:27 | as written, the endpoint's `handleImageUpload` clashes with `common.php`'s, so no request is answered |
| GenerateReports.RenamedHelperResponds | app/api/generate_reports.php:27-71 | with the helper under a name `common.php` does not use, every request is answered as `ReportsResponse` specifies |
| GenerateReports.ReportsResponse | app/api/generate_reports.php:73-149 | a successful response means both `file_name` and `stock_count` were posted and do not trim to "" |
| GenerateReports.RequiredPicked | app/api/generate_reports.php:74-78 | the required fields are among the picked ones |
| GenerateReports.MissingFromPost | app/api/generate_reports.php:75-81 | `file_name` or `stock_count` is reported missing if and only if it is absent from POST or trims to "" |
| GenerateReports.UploadedImage | app/api/generate_reports.php:27-71 | a name comes back if and only if the upload is present, has no error, is at most 2 MiB, has an image MIME type and is moved |
| GenerateReports.UploadedImageName | app/api/generate_reports.php:59-61 | an accepted upload is named `<prefix>_...` and keeps the uploaded file's extension |
| GenerateReports.ChosenImage | app/api/generate_reports.php:97-103 | a new upload wins; otherwise the existing name is used exactly when it is non-empty |
| GenerateReports.ConfigFromPost | app/api/generate_reports.php:84-123 | the config's fields: the trimmed, unsanitised file name, "Stock Report" as the default title, `intval(stock_count)`, "data.csv" and the chosen images |
| GenerateReports.CompleteRequest | app/api/generate_reports.php:73-149 | with the required fields present, the response is the dispatch of `report_type`, which defaults to "html", on the form's config |
| GenerateReports.UnknownType | app/api/generate_reports.php:146-148 | any other report type gives "Unknown report type: <type>" |
| GenerateReports.SingleDocument | app/api/generate_reports.php:133-171 | one document succeeds as its generator does, with `{file, type}` as data; a failure sends the generator's message |
| GenerateReports.AllDocuments | app/api/generate_reports.php:143-169 | "all" succeeds exactly when HTML does and sends no message. Its data is the generated files plus `failed` |
| GenerateReports.JsonStringsLookup | app/api/generate_reports.php:165-166 | the generated map carries its entries into the response data |
| GenerateReports.Dispatch | app/api/generate_reports.php:133-149 | the switch calls the generator the type names and returns the specified response |
| GenerateReports.GenerateReportsEndpoint | app/api/generate_reports.php:73-172 | the endpoint returns the specified response |
| GenerateFromConfig.Attempt | app/api/generate_from_config.php:57-76 | each attempt adds exactly one entry, to a generated list or to `failed` |
| GenerateFromConfig.MissingDataSource | app/api/generate_from_config.php:57-76 | a missing data file gives three failure lines `<title> (HTML: ...)`, `(PDF: ...)`, `(Flipbook: ...)`, in that order |
| GenerateFromConfig.Tallied | app/api/generate_from_config.php:34-77 | each type's list holds at most one title per id, and each id adds between one and three entries in all |
| GenerateFromConfig.TalliedAppend | app/api/generate_from_config.php:34-77 | the tally of a list of ids is the tallies of its parts in order, so failures follow id order |
| GenerateFromConfig.TallySize | app/api/generate_from_config.php:34-77 | each found id adds three entries and each unresolved id one; at most one HTML title per found id |
| GenerateFromConfig.TallyWithoutFile | app/api/generate_from_config.php:36-41 | without a readable store every id fails as "Config ID <id> (not found)" and the loop goes on |
| GenerateFromConfig.StoredConfigClean | app/api/generate_from_config.php:46-54 | the generator gets a sanitised file name |
| GenerateFromConfig.CompletionMessageIff | app/api/generate_from_config.php:79-83 | the message gains " Some reports failed to generate." if and only if something failed |
| GenerateFromConfig.BatchAlwaysSucceeds | app/api/generate_from_config.php:14-21 | the response succeeds if and only if `ids` is present and non-empty; a single id becomes a one-element list |
| GenerateFromConfig.GenerateThree | app/api/generate_from_config.php:57-76 | the three generators are called in order with the same config |
| GenerateFromConfig.Visit | app/api/generate_from_config.php:35-76 | one id's visit adds the specified step to the tally |
| GenerateFromConfig.GenerateFromConfigEndpoint | app/api/generate_from_config.php:13-85 | the loop over the ids returns the specified response |
| ManualPdf.UploadManualPdf | app/api/upload_manual_pdf.php:14-52 | success if and only if all checks pass; then the upload is stored as `<name>.pdf`; an empty name and an ill-formed name fail first, with their messages. The name check is the intended whole-name match (`ManualPdf.NameAllowed`), not the pattern as written, which also lets "report\n" through (see Findings) |
| ManualPdf.UploadErrorOrder | app/api/upload_manual_pdf.php:27-51 | for a good name the checks fail in order: missing upload, MIME type, size, move |
| ManualPdf.ZeroNameRejected | app/api/upload_manual_pdf.php:17-19 | the name "0" has the right characters but `empty` rejects it first |
| ManualPdf.AllowedNameStaysInDirectory | app/api/upload_manual_pdf.php:22-45 | an accepted name holds no `/`, newline or dot, so the destination is a `.pdf` file directly in the reports directory |
| ManualPdf.TrailingNewlinePasses | app/api/upload_manual_pdf.php:22 | the pattern as written accepts "report\n", which has a character outside the class |
| Php.TrimEmptyIff | app/api/common.php:158 | a value trims to "" if and only if it is all whitespace |
| Php.IntvalNatural | app/services/ReportSettingService.php:181 | `intval` reads back the decimal text of a natural number |
| Php.IntvalNegative | app/services/ReportSettingService.php:181 | `intval` reads back a minus sign and digits as the negative number |
| Php.HtmlSpecialChars | app/services/ReportGeneratorService.php:629-632 | text that is not valid UTF-8 gives ""; valid text is escaped, holding no `<`, `>` or `"`, with '[' kept exactly when the input has one, and is unchanged when it has no special characters |
| Php.AsciiPrefixStep | app/services/ReportGeneratorService.php:629-632 | bytes below 0x80 at the front do not decide whether text is valid UTF-8 |
| Php.Latin1Dropped | app/services/ReportGeneratorService.php:629-632 | "Soci\xE9t\xE9" in Latin-1 is not valid UTF-8 and escapes to "" |
| Php.Utf8Valid | app/services/ReportGeneratorService.php:629-632 | "Société" in UTF-8 is valid |
| Php.Utf8Kept | app/services/ReportGeneratorService.php:629-632 | "Société" in UTF-8 is kept as it is |
| Php.ExtensionOf | app/services/ReportSettingService.php:295 | the extension of `<stem>.<ext>` is `ext` when `ext` has no dot or slash |

## Left out

- PDF conversion and image embedding, `convertHtmlToPdfWithMpdf` and
  `getImageAsBase64`, rely on the mPDF library, file reads and base64
  encoding. The converter's outcome (created, not created, or one of two
  exceptions with its message) and the embedded image are inputs.
- `json_encode` is not modelled. The widget configuration is reduced to
  the url-encoded ticker, and the widget's copyright CSS is left out. The
  PDF style rules, the flipbook's script and stylesheet links and its
  page-turning script are each replaced by a comment. The markup around
  them is the source's own: the head and body, the flipbook's wrapper,
  viewport, container and control elements, and the markers the stripping
  pattern looks for.
- `fgetcsv` quoting and field splitting are not modelled. The data file
  arrives as rows already split into fields.
- The file system, the clock, `time()`, `mt_rand`, `finfo` MIME sniffing
  and `move_uploaded_file` are parameters. One environment holds for a
  whole request, so a batch sees the same files from its first id to its
  last.
- HTTP status codes, headers and `exit` are not modelled, and neither are
  `logDebug` and `getJsonInput`. The thin endpoints
  `post_configuration.php`, `delete_configuration.php` and
  `get_configurations.php` only forward to the service.
- Ids are integers. PHP's loose `==` between numeric strings and integers,
  and ids that are not numbers, are not modelled. `IsUpdate` reads a
  present, non-zero id as an update.
- Responses are JSON values before encoding. Whether an empty PHP array
  prints as `[]` or `{}` is not modelled.
- `Php.Intval` reads an unbounded integer. The saturation at the platform's
  integer limits is not modelled.
- The settings file is missing, undecodable, or holding `last_id` and
  `reports`. A file that decodes but lacks `reports` is not modelled; the
  service itself never writes one.
- `getFormInput`'s second loop adds fields that are present with a null
  value. Form fields are never null, so the model has the first loop only.
- `generate_reports.php` declares its own `handleImageUpload` (lines 27-71)
  and also loads `common.php`, which declares one at line 236. As written,
  PHP stops with the fatal error "Cannot redeclare handleImageUpload()"
  before the endpoint reads the request, so it never sends JSON (see
  Findings). The rest of the endpoint's model gives the endpoint's own
  helper under a name of its own. That helper names the file
  `<prefix>_<time>_<rand>.<ext>`.
- `generate_from_config` gives defaults for a stored report's missing
  fields (lines 48-53): the "Stock Report" title, an empty author, 6 stocks,
  "data.csv", no images and no templates. None of these applies, because
  the service always stores every one of those fields. The model passes the
  stored values.
- Shortcodes.ReplaceShortcodesResolves: proved for column names and values
  without brackets. With brackets, a substituted value can be rewritten by
  a later pair; `Shortcodes.FoldRewritesValues` and
  `Shortcodes.FoldOrderMatters` show that case. It is also proved only for
  templates written as pieces (`Tokens.Render`): bracket-free literal text
  and complete `[Name]` tokens, so every '[' opens a complete token.
  Templates such as "[[Price]]", "Up [5% [Price]" or an inline JavaScript
  array literal fall outside it. For those only `Shortcodes.ReplaceShortcodes`'s
  own contract applies, which covers templates without any '['.
- Shortcodes.SubstitutionResolves: the same two limits, on values and on the
  template's shape.
- Tokens.ApplyPairsResolves: stated for templates written as pieces, with
  bracket-free values; a '[' that opens no complete token is outside it.
- Shortcodes.SortByKeyLength: a stable insertion sort stands in for PHP
  5.5's unstable `uksort`. The substitution lemmas are stated for every
  longest-first order, so they do not depend on this choice.
- The manual PDF name `saveConfiguration` computes is not stored; the model
  keeps the upload call and discards its result, as the source does.

## Findings

| source | as written | input that shows it | evidently intended | confidence | as-written member | corrected member |
|---|---|---|---|---|---|---|
| app/api/upload_manual_pdf.php:22 | `preg_match('/^[a-zA-Z0-9_-]+$/', $fileName)` without the `D` modifier, so `$` also matches before a final newline | the file name "report\n" passes the check and reaches the destination path `report\n.pdf` | only names made wholly of letters, digits, `_` and `-` pass | not executed | ManualPdf.TrailingNewlinePasses | ManualPdf.AllowedNameStaysInDirectory |
| app/api/generate_reports.php:27 | `handleImageUpload` is declared at the top level while line 4 loads `common.php`, which declares `handleImageUpload` at line 236 | any request: PHP binds the function at line 27 when it compiles the script, then loading `common.php` stops with "Cannot redeclare handleImageUpload()", and no JSON is sent | the endpoint's own helper under a name `common.php` does not use, so the script loads and answers as `GenerateReports.ReportsResponse` specifies | not executed | GenerateReports.AsWrittenNeverResponds | GenerateReports.RenamedHelperResponds |
