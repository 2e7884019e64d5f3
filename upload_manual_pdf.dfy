// The `upload_manual_pdf` endpoint: a ready-made PDF is stored in the
// reports directory as `<file_name>.pdf`. The request is the `file_name`
// field and the `pdf_file` upload; the move's success comes in with the
// upload.

module ManualPdf {
  import opened Php
  import opened Common

  /** 10 MiB. */
  const MaxPdfSize: int := 10 * 1024 * 1024

  /** The `pdf_file` upload: error code, the MIME type the client declared, size, and whether the move succeeds. */
  datatype PdfFile = PdfFile(error: int, mime: string, size: int, moved: bool)

  /** A character of `[a-zA-Z0-9_-]`. */
  predicate PdfNameChar(c: char)
  {
    ('a' <= c <= 'z') || ('A' <= c <= 'Z') || ('0' <= c <= '9') || c == '_' || c == '-'
  }

  /** A whole name of `[a-zA-Z0-9_-]+`: the names the check is meant to accept. */
  predicate NameAllowed(s: string)
  {
    |s| > 0 && forall i :: 0 <= i < |s| ==> PdfNameChar(s[i])
  }

  /**
   * `preg_match('/^[a-zA-Z0-9_-]+$/', $s)` as PCRE reads the pattern:
   * without the D modifier `$` also matches just before a final newline.
   */
  predicate NameMatchesAsWritten(s: string)
  {
    NameAllowed(s) || (|s| > 1 && s[|s| - 1] == '\n' && NameAllowed(s[..|s| - 1]))
  }

  /** A name with a trailing newline passes the pattern and reaches the file system. */
  lemma TrailingNewlinePasses()
    ensures NameMatchesAsWritten("report\n")
    ensures !NameAllowed("report\n")
    ensures '\n' in "report\n" + ".pdf"
  {
    var s := "report\n";
    assert s[..|s| - 1] == "report";
    assert s[6] == '\n';
    assert ("report\n" + ".pdf")[6] == '\n';
  }

  /**
   * A name the check lets through stores the upload as a plain `.pdf` file
   * directly in the reports directory: no separator, no newline, no other
   * dot, and the extension is `pdf`.
   */
  lemma {:induction false} AllowedNameStaysInDirectory(s: string)
    requires NameAllowed(s)
    ensures '/' !in s && '\n' !in s && '.' !in s
    ensures Extension(s + ".pdf") == "pdf"
  {
    hide Extension;
    forall i | 0 <= i < |s| ensures s[i] != '/' && s[i] != '\n' && s[i] != '.' {
      assert PdfNameChar(s[i]);
    }
    assert "pdf"[0] == 'p' && "pdf"[1] == 'd' && "pdf"[2] == 'f';
    ExtensionOf(s, "pdf");
    assert s + "." + "pdf" == s + ".pdf";
  }

  /**
   * The endpoint's guard chain, with the name check meaning what it is meant
   * to: name present, name shape, upload present and without error, MIME
   * type, size, then the move.
   */
  function UploadManualPdf(fileName: Option<string>, pdf: Option<PdfFile>): (r: Response)
    ensures r.success <==>
              !EmptyOpt(fileName) && NameAllowed(fileName.value)
              && pdf.Some? && pdf.value.error == UploadErrOk && pdf.value.mime == "application/pdf"
              && pdf.value.size <= MaxPdfSize && pdf.value.moved
    ensures r.success ==>
              r.message == Some("PDF uploaded successfully as: " + fileName.value + ".pdf")
              && r.data == Some(JObject([("file", JStr(fileName.value + ".pdf"))]))
    ensures !r.success ==> r.message.Some? && r.data.None?
    ensures EmptyOpt(fileName) ==> r == Error("File name is required")
    ensures !EmptyOpt(fileName) && !NameAllowed(fileName.value) ==>
              r == Error("Invalid file name. Use only letters, numbers, underscores, and hyphens")
  {
    var name := fileName.GetOr("");
    if Empty(name) then Error("File name is required")
    else if !NameAllowed(name) then Error("Invalid file name. Use only letters, numbers, underscores, and hyphens")
    else if pdf.None? || pdf.value.error != UploadErrOk then Error("PDF file is required")
    else if pdf.value.mime != "application/pdf" then Error("Only PDF files are allowed")
    else if pdf.value.size > MaxPdfSize then Error("File size must be less than 10MB")
    else if pdf.value.moved then
      Success(Some("PDF uploaded successfully as: " + name + ".pdf"), Some(JObject([("file", JStr(name + ".pdf"))])))
    else Error("Failed to upload PDF")
  }

  /** The upload checks report their failures in order: a missing upload before its type, its type before its size. */
  lemma UploadErrorOrder(fileName: string, pdf: Option<PdfFile>)
    requires !Empty(fileName) && NameAllowed(fileName)
    ensures pdf.None? || pdf.value.error != UploadErrOk ==>
              UploadManualPdf(Some(fileName), pdf) == Error("PDF file is required")
    ensures pdf.Some? && pdf.value.error == UploadErrOk && pdf.value.mime != "application/pdf" ==>
              UploadManualPdf(Some(fileName), pdf) == Error("Only PDF files are allowed")
    ensures pdf.Some? && pdf.value.error == UploadErrOk && pdf.value.mime == "application/pdf"
            && pdf.value.size > MaxPdfSize ==>
              UploadManualPdf(Some(fileName), pdf) == Error("File size must be less than 10MB")
    ensures pdf.Some? && pdf.value.error == UploadErrOk && pdf.value.mime == "application/pdf"
            && pdf.value.size <= MaxPdfSize && !pdf.value.moved ==>
              UploadManualPdf(Some(fileName), pdf) == Error("Failed to upload PDF")
  {
  }

  /** "0" is a name of the right shape, but `empty` rejects it first. */
  lemma ZeroNameRejected(pdf: Option<PdfFile>)
    ensures NameAllowed("0")
    ensures UploadManualPdf(Some("0"), pdf) == Error("File name is required")
  {
    assert "0"[0] == '0';
  }
}
