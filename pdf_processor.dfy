/**
 * Upload validation (validatePDF in src/utils/pdfProcessor.ts): a file is
 * accepted when its name or its MIME type says PDF, it is not empty, and it is
 * no larger than 50 MiB. The checks run in that order and the first one that
 * fails decides the error.
 */
module PdfProcessor {
  import opened Types
  import opened Strings

  /** MAX_FILE_SIZE: 50 MiB. */
  const MaxFileSize: nat := 50 * 1024 * 1024

  /**
   * What validatePDF reads of a File: its name, its MIME type and its size in
   * bytes. A file object without a size is `None`.
   */
  datatype PdfFile = PdfFile(name: string, mimeType: string, size: Option<nat>)

  /** The reasons for a rejection, one per guarded return. */
  datatype ValidationError =
    | InvalidFileObject
    | NotPdf(detectedType: string)
    | EmptyFile
    | TooLarge(size: nat)

  /** `{ valid, error? }`: valid exactly when there is no error. */
  datatype Validation = Valid | Invalid(error: ValidationError)

  /** The MIME types that count as PDF, including the unset one some browsers report. */
  predicate PdfMimeType(mimeType: string)
  {
    mimeType == "application/pdf" || mimeType == "" || mimeType == "application/octet-stream"
  }

  /** isPDFExtension: the lower-cased, trimmed name ends in `.pdf`. */
  predicate PdfExtension(name: string)
  {
    EndsWith(Trim(Lower(name)), ".pdf")
  }

  /** The type check: the extension or the MIME type says PDF. */
  predicate LooksLikePdf(f: PdfFile)
  {
    PdfExtension(f.name) || PdfMimeType(f.mimeType)
  }

  /**
   * validatePDF. A file is valid exactly when it has a size, looks like a PDF,
   * is not empty and is at most MaxFileSize bytes; every rejection names the
   * first check, in the order type, empty, size, that failed.
   */
  function ValidatePdf(f: PdfFile): (r: Validation)
    ensures r == Valid <==> f.size.Some? && LooksLikePdf(f) && 0 < f.size.value <= MaxFileSize
    ensures r == Invalid(InvalidFileObject) <==> f.size.None?
    ensures r.Invalid? && r.error.NotPdf? <==> f.size.Some? && !LooksLikePdf(f)
    ensures r.Invalid? && r.error.NotPdf? ==> r.error.detectedType == OrUnknown(f.mimeType)
    ensures r == Invalid(EmptyFile) <==> f.size == Some(0) && LooksLikePdf(f)
    ensures r.Invalid? && r.error.TooLarge? <==> f.size.Some? && LooksLikePdf(f) && f.size.value > MaxFileSize
    ensures r.Invalid? && r.error.TooLarge? ==> r.error.size == f.size.value
  {
    if f.size.None? then Invalid(InvalidFileObject)
    else if !PdfExtension(f.name) && !PdfMimeType(f.mimeType) then Invalid(NotPdf(OrUnknown(f.mimeType)))
    else if f.size.value == 0 then Invalid(EmptyFile)
    else if f.size.value > MaxFileSize then Invalid(TooLarge(f.size.value))
    else Valid
  }

  /** The size limit is inclusive: exactly 50 MiB passes, one byte more does not. */
  lemma SizeLimitInclusive(name: string, mimeType: string)
    requires PdfMimeType(mimeType)
    ensures ValidatePdf(PdfFile(name, mimeType, Some(52428800))) == Valid
    ensures ValidatePdf(PdfFile(name, mimeType, Some(52428801))) == Invalid(TooLarge(52428801))
  {
  }

  /**
   * The extension test ignores the case of ASCII letters: a name and its
   * lower-cased form are judged the same.
   */
  lemma {:induction false} ExtensionIgnoresCase(name: string)
    ensures PdfExtension(name) <==> PdfExtension(Lower(name))
  {
    LowerIdempotent(name);
  }

  /** A name ending in `.PDF` passes the type check whatever the MIME type claims. */
  lemma UpperCaseExtensionAccepted(stem: string, mimeType: string, size: nat)
    requires 0 < size <= MaxFileSize
    requires |stem| > 0 && !IsWhitespace(stem[0])
    ensures ValidatePdf(PdfFile(stem + ".PDF", mimeType, Some(size))) == Valid
  {
    var name := stem + ".PDF";
    var l := Lower(name);
    assert l[|l| - 4..] == ".pdf";
    assert !IsWhitespace(l[0]);
    NoEdgeWhitespaceFixed(l);
  }
}
