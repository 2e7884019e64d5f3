// The configuration array the report generators read.

module ReportConfig {
  import opened Php

  /** One parsed CSV row: column header to cell, in header order. */
  type Record = Assoc<string>

  /**
   * `$config` as the generators see it. Keys that a caller may leave
   * unset, or set to null, are options; `number_of_stocks`, `data_source`
   * and `file_name` are always set by both callers.
   */
  datatype Config = Config(
    fileName: string,
    title: Option<string>,
    author: Option<string>,
    numberOfStocks: int,
    dataSource: string,
    articleImage: Option<string>,
    pdfCoverImage: Option<string>,
    intro: Option<string>,
    stockBlock: Option<string>,
    disclaimer: Option<string>)
}
