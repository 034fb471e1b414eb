/**
 * Attachment policy: the MIME allow-list and size limit that every upload
 * is checked against, the unit choice of the human-readable size label,
 * the extension extractor and the first-match icon classifier.
 *
 * The long MIME strings are written as concatenations of short pieces;
 * the value is the same string, and the pieces let the verifier look at
 * individual characters.
 */
module FileUtils {
  import opened Text

  const ImageJpeg := "image/jpeg"
  const ImagePng := "image/png"
  const ImageGif := "image/gif"
  const ImageWebp := "image/webp"
  const ImageSvg := "image/svg+xml"
  const Pdf := "application/pdf"
  const MsWord := "application/" + "ms" + "word"
  const Docx := OfficeOpenXml("wordprocessing" + "ml." + "document")
  const MsExcel := "application/" + "vnd.ms-" + "excel"
  const Xlsx := OfficeOpenXml("spreadsheet" + "ml." + "sheet")
  const MsPowerpoint := "application/" + "vnd.ms-" + "powerpoint"
  const Pptx := OfficeOpenXml("presentation" + "ml." + "presentation")
  const TextPlain := "text/plain"
  const TextCsv := "text/csv"
  const TextHtml := "text/html"
  const Zip := "application/" + "zip"
  const Rar := "application/" + "x-rar-" + "compressed"

  /**
   * The Office Open XML types: `application/vnd.openxmlformats-officedocument.`
   * followed by the kind of document. The grouping isolates the one `x`.
   */
  function OfficeOpenXml(kind: string): string {
    "application/" + "vnd.open" + "x" + ("mlformats-" + "office" + "document" + "." + kind)
  }

  /** The seventeen MIME types an attachment may have, in the source's order. */
  const AllowedFileTypes: seq<string> := [
    ImageJpeg, ImagePng, ImageGif, ImageWebp, ImageSvg,
    Pdf, MsWord, Docx, MsExcel, Xlsx, MsPowerpoint, Pptx,
    TextPlain, TextCsv, TextHtml,
    Zip, Rar
  ]

  /** 10 MiB. */
  const MaxFileSize: int := 10 * 1024 * 1024

  predicate IsAllowedFileType(fileType: string) {
    fileType in AllowedFileTypes
  }

  /** Only an upper bound: zero and negative sizes pass. */
  predicate IsAllowedFileSize(fileSize: int) {
    fileSize <= MaxFileSize
  }

  /** The list is exactly these seventeen strings. */
  lemma AllowedFileTypesExact(t: string)
    ensures |AllowedFileTypes| == 17
    ensures IsAllowedFileType(t) <==>
      (t == ImageJpeg || t == ImagePng || t == ImageGif || t == ImageWebp || t == ImageSvg
      || t == Pdf || t == MsWord || t == Docx || t == MsExcel || t == Xlsx
      || t == MsPowerpoint || t == Pptx || t == TextPlain || t == TextCsv || t == TextHtml
      || t == Zip || t == Rar)
  {
  }

  /** An executable's MIME type is not on the list. */
  lemma ExecutableRejected()
    ensures !IsAllowedFileType("application/" + "x-ms" + "download")
  {
    var t := "application/" + "x-ms" + "download";
    assert |t| == 24 && t[12] == 'x' && MsExcel[12] == 'v';
    AllowedFileTypesExact(t);
  }

  /** The size limit is inclusive at exactly 10 MiB and has no lower bound. */
  lemma FileSizeBoundary(n: int)
    ensures IsAllowedFileSize(n) <==> n <= 10485760
    ensures IsAllowedFileSize(10485760) && !IsAllowedFileSize(10485761)
    ensures n < 0 ==> IsAllowedFileSize(n)
  {
  }

  // ---------------------------------------------------------------------
  // Size label

  const SizeUnits: seq<string> := ["Bytes", "KB", "MB", "GB", "TB"]

  function Pow1024(i: nat): (r: nat)
    ensures r >= 1
  {
    if i == 0 then 1 else 1024 * Pow1024(i - 1)
  }

  /**
   * `Math.floor(Math.log(bytes) / Math.log(1024))`, idealised as the exact
   * integer logarithm: the unique `i` with `1024^i <= bytes < 1024^(i+1)`.
   */
  function FloorLog1024(bytes: nat): (i: nat)
    requires bytes >= 1
    ensures Pow1024(i) <= bytes < Pow1024(i + 1)
  {
    if bytes < 1024 then 0
    else
      var i := FloorLog1024(bytes / 1024);
      assert 1024 * Pow1024(i) <= 1024 * (bytes / 1024) <= bytes;
      assert bytes < 1024 * (bytes / 1024 + 1) <= 1024 * Pow1024(i + 1);
      i + 1
  }

  /** `sizes[i]`, which reads as `undefined` past the end of the table. */
  function UnitName(i: nat): string {
    if i < |SizeUnits| then SizeUnits[i] else "undefined"
  }

  /**
   * What `formatFileSize` prints: the literal `0 Bytes`; or an amount
   * (before the two-decimal rounding) followed by a unit; or, for a
   * negative size, `NaN undefined`.
   */
  datatype SizeLabel = Literal(text: string) | Scaled(amount: real, unit: string) | NaNUndefined

  function FormatFileSize(bytes: int): (r: SizeLabel)
    ensures bytes == 0 ==> r == Literal("0 Bytes")
    ensures bytes < 0 ==> r == NaNUndefined
    ensures bytes > 0 ==> r.Scaled? && 1.0 <= r.amount < 1024.0
    ensures bytes > 0 ==> exists i: nat :: (Pow1024(i) <= bytes < Pow1024(i + 1)
      && r.unit == UnitName(i) && r.amount == bytes as real / Pow1024(i) as real)
  {
    if bytes == 0 then Literal("0 Bytes")
    else if bytes < 0 then NaNUndefined
    else
      var i := FloorLog1024(bytes);
      RatioBounds(bytes, Pow1024(i));
      Scaled(bytes as real / Pow1024(i) as real, UnitName(i))
  }

  lemma RatioBounds(b: nat, p: nat)
    requires 1 <= p <= b < 1024 * p
    ensures 1.0 <= b as real / p as real < 1024.0
  {
    var q := b as real / p as real;
    assert q * p as real == b as real;
    SignOfFactor(q - 1.0, p as real);
    SignOfFactor(1024.0 - q, p as real);
  }

  lemma SignOfFactor(x: real, y: real)
    requires y > 0.0
    ensures x * y >= 0.0 ==> x >= 0.0
    ensures x * y > 0.0 ==> x > 0.0
  {
  }

  /** Below 1024^5 the unit comes from the table; from 1024^5 on it is `undefined`. */
  lemma UnitTableBounds(bytes: int)
    requires bytes > 0
    ensures bytes < Pow1024(5) ==> FormatFileSize(bytes).unit in SizeUnits
    ensures bytes >= Pow1024(5) ==> FormatFileSize(bytes).unit == "undefined"
  {
    var i := FloorLog1024(bytes);
    UnitIndexUnique(bytes, i);
    if bytes < Pow1024(5) {
      if i >= 5 { PowMonotone(5, i); }
    } else {
      if i < 5 { PowMonotone(i + 1, 5); }
    }
  }

  /** The exponent of the size label is the only one that brackets the size. */
  lemma UnitIndexUnique(bytes: nat, i: nat)
    requires bytes >= 1 && Pow1024(i) <= bytes < Pow1024(i + 1)
    ensures FormatFileSize(bytes) == Scaled(bytes as real / Pow1024(i) as real, UnitName(i))
  {
    var k := FloorLog1024(bytes);
    if k < i { PowMonotone(k + 1, i); }
    if i < k { PowMonotone(i + 1, k); }
  }

  lemma {:induction false} PowMonotone(a: nat, b: nat)
    requires a <= b
    ensures Pow1024(a) <= Pow1024(b)
    decreases b - a
  {
    if a < b {
      PowMonotone(a + 1, b);
    }
  }

  /** 1536 bytes read as 1.5 KB, and 10 MiB as 10 MB. */
  lemma FormatFileSizeExamples()
    ensures FormatFileSize(1536) == Scaled(1.5, "KB")
    ensures FormatFileSize(10485760) == Scaled(10.0, "MB")
  {
    UnitIndexUnique(1536, 1);
    UnitIndexUnique(10485760, 2);
  }

  // ---------------------------------------------------------------------
  // Extension

  /**
   * `fileName.split('.').pop()?.toLowerCase() || ''`: the lower-cased text
   * after the last dot, or the whole name lower-cased when there is no dot.
   */
  function FileExtension(fileName: string): (r: string)
    ensures '.' !in r
    ensures |r| <= |fileName| && r == Lower(fileName[|fileName| - |r|..])
    ensures |r| < |fileName| ==> fileName[|fileName| - |r| - 1] == '.'
    ensures '.' !in fileName ==> r == Lower(fileName)
    ensures fileName == "" ==> r == ""
  {
    var raw := LastSegment(fileName, '.');
    LowerKeepsDot(raw);
    Lower(raw)
  }

  lemma LowerKeepsDot(s: string)
    ensures '.' in Lower(s) <==> '.' in s
  {
    if '.' in Lower(s) {
      var i :| 0 <= i < |s| && Lower(s)[i] == '.';
      assert s[i] == '.';
    }
    if '.' in s {
      var i :| 0 <= i < |s| && s[i] == '.';
      assert Lower(s)[i] == '.';
    }
  }

  /** Examples: the last dot decides, a name without a dot is its own extension. */
  lemma FileExtensionOfPdfScan()
    ensures FileExtension("scan.PDF") == "pdf"
  {
    assert LastSegment("scan.PDF", '.') == "PDF";
  }

  lemma FileExtensionWithoutDot()
    ensures FileExtension("README") == "readme"
  {
    assert '.' !in "README";
    var r := FileExtension("README");
    assert r == Lower("README");
    forall i | 0 <= i < 6
      ensures r[i] == "readme"[i]
    {
      assert r[i] == LowerChar("README"[i]);
    }
  }

  lemma FileExtensionTrailingDot()
    ensures FileExtension("archive.") == ""
  {
  }

  // ---------------------------------------------------------------------
  // Icon classifier

  datatype FileIcon = ImageIcon | PdfIcon | SpreadsheetIcon | DocumentIcon
                    | PresentationIcon | ArchiveIcon | TextIcon | GenericFileIcon

  /** The string `getFileIconType` returns for each icon. */
  function IconName(icon: FileIcon): string {
    match icon
    case ImageIcon => "image"
    case PdfIcon => "pdf"
    case SpreadsheetIcon => "spreadsheet"
    case DocumentIcon => "document"
    case PresentationIcon => "presentation"
    case ArchiveIcon => "archive"
    case TextIcon => "text"
    case GenericFileIcon => "file"
  }

  predicate SpreadsheetLike(t: string) { Contains(t, "spreadsheet") || Contains(t, "excel") }
  predicate DocumentLike(t: string) { Contains(t, "document") || Contains(t, "word") }
  predicate PresentationLike(t: string) { Contains(t, "presentation") || Contains(t, "powerpoint") }
  predicate ArchiveLike(t: string) { Contains(t, "zip") || Contains(t, "compressed") }

  /** `getFileIconType`: the first test in the chain that the MIME type passes decides. */
  function FileIconType(fileType: string): (r: FileIcon)
    ensures r == ImageIcon <==> StartsWith(fileType, "image/")
    ensures r == PdfIcon ==> fileType == Pdf
    ensures r == SpreadsheetIcon ==> SpreadsheetLike(fileType)
    ensures r == DocumentIcon ==> DocumentLike(fileType) && !SpreadsheetLike(fileType)
    ensures r == PresentationIcon ==> PresentationLike(fileType) && !DocumentLike(fileType) && !SpreadsheetLike(fileType)
    ensures r == ArchiveIcon ==> (ArchiveLike(fileType) && !PresentationLike(fileType)
      && !DocumentLike(fileType) && !SpreadsheetLike(fileType))
    ensures r == TextIcon ==> (StartsWith(fileType, "text/")
      && !SpreadsheetLike(fileType) && !DocumentLike(fileType)
      && !PresentationLike(fileType) && !ArchiveLike(fileType))
    ensures r == GenericFileIcon <==>
      (!StartsWith(fileType, "image/") && fileType != Pdf && !SpreadsheetLike(fileType)
      && !DocumentLike(fileType) && !PresentationLike(fileType) && !ArchiveLike(fileType)
      && !StartsWith(fileType, "text/"))
  {
    if StartsWith(fileType, "image/") then ImageIcon
    else if fileType == Pdf then PdfIcon
    else if SpreadsheetLike(fileType) then SpreadsheetIcon
    else if DocumentLike(fileType) then DocumentIcon
    else if PresentationLike(fileType) then PresentationIcon
    else if ArchiveLike(fileType) then ArchiveIcon
    else if StartsWith(fileType, "text/") then TextIcon
    else GenericFileIcon
  }

  /** An `application/...` type other than the PDF one: it passes neither of the first two tests. */
  predicate OtherApplicationType(t: string) {
    |t| > 0 && t[0] == 'a' && t != Pdf
  }

  // Each outcome of the chain, stated once for any MIME type; the lemmas
  // about the concrete types below only establish which tests they pass.

  lemma ClassifiedAsPdf(t: string)
    requires t == Pdf
    ensures FileIconType(t) == PdfIcon
  {
    assert t[..6][0] == 'a';
  }

  lemma ClassifiedAsSpreadsheet(t: string)
    requires OtherApplicationType(t) && SpreadsheetLike(t)
    ensures FileIconType(t) == SpreadsheetIcon
  {
    assert |t| >= 6 ==> t[..6][0] == 'a';
  }

  lemma ClassifiedAsDocument(t: string)
    requires OtherApplicationType(t) && !SpreadsheetLike(t) && DocumentLike(t)
    ensures FileIconType(t) == DocumentIcon
  {
    assert |t| >= 6 ==> t[..6][0] == 'a';
  }

  lemma ClassifiedAsPresentation(t: string)
    requires OtherApplicationType(t) && !SpreadsheetLike(t) && !DocumentLike(t) && PresentationLike(t)
    ensures FileIconType(t) == PresentationIcon
  {
    assert |t| >= 6 ==> t[..6][0] == 'a';
  }

  lemma ClassifiedAsArchive(t: string)
    requires OtherApplicationType(t) && !SpreadsheetLike(t) && !DocumentLike(t) && !PresentationLike(t)
    requires ArchiveLike(t)
    ensures FileIconType(t) == ArchiveIcon
  {
    assert |t| >= 6 ==> t[..6][0] == 'a';
  }

  lemma ClassifiedAsText(t: string)
    requires StartsWith(t, "text/") && !SpreadsheetLike(t) && !DocumentLike(t) && !PresentationLike(t) && !ArchiveLike(t)
    ensures FileIconType(t) == TextIcon
  {
    assert t[0] == t[..5][0];
    assert |t| >= 6 ==> t[..6][0] == t[0];
  }

  // A keyword test fails when each of its keywords has a letter outside
  // the alphabet of the type.

  lemma NotSpreadsheetWithin(t: string, a: set<char>, j: nat, k: nat)
    requires Within(t, a) && j < 11 && "spreadsheet"[j] !in a && k < 5 && "excel"[k] !in a
    ensures !SpreadsheetLike(t)
  {
    NotContainsOutside(t, a, "spreadsheet", j);
    NotContainsOutside(t, a, "excel", k);
  }

  lemma NotDocumentWithin(t: string, a: set<char>, j: nat, k: nat)
    requires Within(t, a) && j < 8 && "document"[j] !in a && k < 4 && "word"[k] !in a
    ensures !DocumentLike(t)
  {
    NotContainsOutside(t, a, "document", j);
    NotContainsOutside(t, a, "word", k);
  }

  lemma NotPresentationWithin(t: string, a: set<char>, j: nat, k: nat)
    requires Within(t, a) && j < 12 && "presentation"[j] !in a && k < 10 && "powerpoint"[k] !in a
    ensures !PresentationLike(t)
  {
    NotContainsOutside(t, a, "presentation", j);
    NotContainsOutside(t, a, "powerpoint", k);
  }

  lemma NotArchiveWithin(t: string, a: set<char>, j: nat, k: nat)
    requires Within(t, a) && j < 3 && "zip"[j] !in a && k < 10 && "compressed"[k] !in a
    ensures !ArchiveLike(t)
  {
    NotContainsOutside(t, a, "zip", j);
    NotContainsOutside(t, a, "compressed", k);
  }

  /** Every Office Open XML type mentions "document", in "officedocument". */
  lemma OfficeOpenXmlMentionsDocument(kind: string)
    ensures Contains(OfficeOpenXml(kind), "document")
  {
    var head := "application/" + "vnd.open" + "x" + "mlformats-" + "office";
    assert OfficeOpenXml(kind) == head + "document" + ("." + kind);
    ContainsMiddle(head, "document", "." + kind);
  }

  /** The one `x` of an Office Open XML type whose kind has none follows an `n`: no "excel". */
  lemma OfficeOpenXmlNotExcel(kind: string)
    requires 'x' !in kind
    ensures !Contains(OfficeOpenXml(kind), "excel")
  {
    var head := "application/" + "vnd.open";
    var rest := "mlformats-" + "office" + "document" + "." + kind;
    assert !MatchesAt(head + ['x'] + rest, "excel", 19) by {
      assert (head + ['x'] + rest)[19..24][0] == 'n';
    }
    NotContainsAround(head, 'x', rest, "excel", 1);
  }

  /** A keyword at the start of the kind occurs in the whole type. */
  lemma OfficeOpenXmlMentions(kind: string, p: string, tail: string)
    requires kind == p + tail
    ensures Contains(OfficeOpenXml(kind), p)
  {
    var head := "application/" + "vnd.open" + "x" + "mlformats-" + "office" + "document" + ".";
    assert OfficeOpenXml(kind) == head + p + tail;
    ContainsMiddle(head, p, tail);
  }

  /** An Office Open XML type is document-like, and not spreadsheet-like unless its kind says so. */
  lemma OfficeOpenXmlKeywords(kind: string)
    requires 'x' !in kind && 'h' !in kind
    ensures OtherApplicationType(OfficeOpenXml(kind))
    ensures DocumentLike(OfficeOpenXml(kind)) && !SpreadsheetLike(OfficeOpenXml(kind))
  {
    assert |OfficeOpenXml(kind)| > |Pdf|;
    OfficeOpenXmlMentionsDocument(kind);
    OfficeOpenXmlNotExcel(kind);
    NotContainsByAbsentChar(OfficeOpenXml(kind), "spreadsheet", 7);
  }

  /**
   * The `.pptx` type contains "officedocument", and the document test runs
   * before the presentation test, so a PowerPoint 2007+ file gets the
   * document icon although its type also names a presentation.
   */
  lemma PptxIsDocument()
    ensures FileIconType(Pptx) == DocumentIcon
    ensures PresentationLike(Pptx)
  {
    var kind := "presentation" + "ml." + "presentation";
    OfficeOpenXmlKeywords(kind);
    OfficeOpenXmlMentions(kind, "presentation", "ml." + "presentation");
    ClassifiedAsDocument(Pptx);
  }

  /** The `.xlsx` type contains "officedocument" too, but the spreadsheet test comes first. */
  lemma XlsxIsSpreadsheet()
    ensures FileIconType(Xlsx) == SpreadsheetIcon
    ensures DocumentLike(Xlsx)
  {
    var kind := "spreadsheet" + "ml." + "sheet";
    assert |Xlsx| > |Pdf|;
    OfficeOpenXmlMentionsDocument(kind);
    OfficeOpenXmlMentions(kind, "spreadsheet", "ml." + "sheet");
    ClassifiedAsSpreadsheet(Xlsx);
  }

  lemma DocxIsDocument()
    ensures FileIconType(Docx) == DocumentIcon
  {
    OfficeOpenXmlKeywords("wordprocessing" + "ml." + "document");
    ClassifiedAsDocument(Docx);
  }

  lemma MsWordIsDocument()
    ensures FileIconType(MsWord) == DocumentIcon
  {
    var a := {'a', 'p', 'l', 'i', 'c', 't', 'o', 'n', '/', 'm', 's', 'w', 'r', 'd'};
    assert Within(MsWord, a);
    NotSpreadsheetWithin(MsWord, a, 7, 1);
    ContainsSuffix("application/" + "ms", "word");
    assert MsWord[12] == 'm' && Pdf[12] == 'p';
    ClassifiedAsDocument(MsWord);
  }

  lemma MsExcelIsSpreadsheet()
    ensures FileIconType(MsExcel) == SpreadsheetIcon
  {
    ContainsSuffix("application/" + "vnd.ms-", "excel");
    assert |MsExcel| != |Pdf|;
    ClassifiedAsSpreadsheet(MsExcel);
  }

  lemma MsPowerpointIsPresentation()
    ensures FileIconType(MsPowerpoint) == PresentationIcon
  {
    var a := {'a', 'p', 'l', 'i', 'c', 't', 'o', 'n', '/', 'v', 'd', '.', 'm', 's', '-', 'w', 'e', 'r'};
    assert Within(MsPowerpoint, a);
    NotSpreadsheetWithin(MsPowerpoint, a, 7, 1);
    NotContainsOutside(MsPowerpoint, a, "document", 3);
    MsPowerpointNotWord();
    ContainsSuffix("application/" + "vnd.ms-", "powerpoint");
    assert |MsPowerpoint| != |Pdf|;
    ClassifiedAsPresentation(MsPowerpoint);
  }

  /** The only `w` in the PowerPoint type is followed by `e`, so "word" does not occur. */
  lemma MsPowerpointNotWord()
    ensures !Contains(MsPowerpoint, "word")
  {
    var a := "application/" + "vnd.ms-" + "po";
    var b := "erpoint";
    assert MsPowerpoint == a + ['w'] + b;
    assert !MatchesAt(a + ['w'] + b, "word", |a|) by {
      assert (a + ['w'] + b)[|a|..|a| + 4][1] == 'e';
    }
    NotContainsAround(a, 'w', b, "word", 0);
  }

  /** Each text type misses a letter of every keyword, so the `text/` test decides. */
  lemma TextTypesAreText(t: string)
    requires t == TextPlain || t == TextCsv || t == TextHtml
    ensures FileIconType(t) == TextIcon
  {
    if t == TextPlain {
      TextPlainIsText();
    } else if t == TextCsv {
      TextCsvIsText();
    } else {
      TextHtmlIsText();
    }
  }

  lemma TextPlainIsText()
    ensures FileIconType(TextPlain) == TextIcon
  {
    var a := {'t', 'e', 'x', '/', 'p', 'l', 'a', 'i', 'n'};
    assert Within(TextPlain, a);
    NotSpreadsheetWithin(TextPlain, a, 7, 2);
    NotDocumentWithin(TextPlain, a, 0, 0);
    NotPresentationWithin(TextPlain, a, 1, 1);
    NotArchiveWithin(TextPlain, a, 0, 0);
    ClassifiedAsText(TextPlain);
  }

  lemma TextCsvIsText()
    ensures FileIconType(TextCsv) == TextIcon
  {
    var a := {'t', 'e', 'x', '/', 'c', 's', 'v'};
    assert Within(TextCsv, a);
    NotSpreadsheetWithin(TextCsv, a, 1, 4);
    NotDocumentWithin(TextCsv, a, 0, 0);
    NotPresentationWithin(TextCsv, a, 0, 0);
    NotArchiveWithin(TextCsv, a, 0, 1);
    ClassifiedAsText(TextCsv);
  }

  lemma TextHtmlIsText()
    ensures FileIconType(TextHtml) == TextIcon
  {
    var a := {'t', 'e', 'x', '/', 'h', 'm', 'l'};
    assert Within(TextHtml, a);
    NotSpreadsheetWithin(TextHtml, a, 0, 2);
    NotDocumentWithin(TextHtml, a, 0, 0);
    NotPresentationWithin(TextHtml, a, 0, 0);
    NotArchiveWithin(TextHtml, a, 0, 0);
    ClassifiedAsText(TextHtml);
  }

  lemma ZipIsArchive()
    ensures FileIconType(Zip) == ArchiveIcon
  {
    var a := {'a', 'p', 'l', 'i', 'c', 't', 'o', 'n', '/', 'z'};
    assert Within(Zip, a);
    NotSpreadsheetWithin(Zip, a, 7, 1);
    NotDocumentWithin(Zip, a, 3, 0);
    NotPresentationWithin(Zip, a, 2, 2);
    ContainsSuffix("application/", "zip");
    assert Zip[12] == 'z' && Pdf[12] == 'p';
    ClassifiedAsArchive(Zip);
  }

  lemma RarIsArchive()
    ensures FileIconType(Rar) == ArchiveIcon
  {
    var a := {'a', 'p', 'l', 'i', 'c', 't', 'o', 'n', '/', 'x', '-', 'r', 'm', 'e', 's', 'd'};
    assert Within(Rar, a);
    NotContainsOutside(Rar, a, "spreadsheet", 7);
    RarNotExcel();
    NotDocumentWithin(Rar, a, 3, 0);
    RarNotPresentation();
    NotContainsOutside(Rar, a, "powerpoint", 2);
    ContainsSuffix("application/" + "x-rar-", "compressed");
    assert |Rar| != |Pdf|;
    ClassifiedAsArchive(Rar);
  }

  /** The only `x` in the RAR type is preceded by `/`, so "excel" does not occur. */
  lemma RarNotExcel()
    ensures !Contains(Rar, "excel")
  {
    var a := "application/";
    var b := "-rar-" + "compressed";
    assert Rar == a + ['x'] + b;
    assert !MatchesAt(a + ['x'] + b, "excel", 11) by {
      assert (a + ['x'] + b)[11..16][0] == '/';
    }
    NotContainsAround(a, 'x', b, "excel", 1);
  }

  /** The only `n` in the RAR type ends "applicatio-n", where "presentation" cannot start. */
  lemma RarNotPresentation()
    ensures !Contains(Rar, "presentation")
  {
    var a := "applicatio";
    var b := "/" + "x-rar-" + "compressed";
    assert Rar == a + ['n'] + b;
    assert !MatchesAt(a + ['n'] + b, "presentation", 5) by {
      assert (a + ['n'] + b)[5..17][0] == 'c';
    }
    NotContainsAround(a, 'n', b, "presentation", 5);
  }

  /** The icon each allowed type gets, position by position in the allow-list. */
  const AllowedTypeIcons: seq<FileIcon> := [
    ImageIcon, ImageIcon, ImageIcon, ImageIcon, ImageIcon,
    PdfIcon, DocumentIcon, DocumentIcon, SpreadsheetIcon, SpreadsheetIcon, PresentationIcon, DocumentIcon,
    TextIcon, TextIcon, TextIcon,
    ArchiveIcon, ArchiveIcon
  ]

  lemma AllowedTypeIcon(i: nat)
    requires i < |AllowedFileTypes|
    ensures FileIconType(AllowedFileTypes[i]) == AllowedTypeIcons[i]
  {
    if i < 5 {
      ImageTypeIcon(i);
    } else if i < 12 {
      OfficeTypeIcon(i);
    } else {
      OtherTypeIcon(i);
    }
  }

  lemma ImageTypeIcon(i: nat)
    requires i < 5
    ensures FileIconType(AllowedFileTypes[i]) == ImageIcon
  {
    assert StartsWith(AllowedFileTypes[i], "image/");
  }

  lemma OfficeTypeIcon(i: nat)
    requires 5 <= i < 12
    ensures FileIconType(AllowedFileTypes[i]) == AllowedTypeIcons[i]
  {
    if i == 5 { ClassifiedAsPdf(Pdf); }
    else if i == 6 { MsWordIsDocument(); }
    else if i == 7 { DocxIsDocument(); }
    else if i == 8 { MsExcelIsSpreadsheet(); }
    else if i == 9 { XlsxIsSpreadsheet(); }
    else if i == 10 { MsPowerpointIsPresentation(); }
    else { PptxIsDocument(); }
  }

  lemma OtherTypeIcon(i: nat)
    requires 12 <= i < 17
    ensures FileIconType(AllowedFileTypes[i]) == AllowedTypeIcons[i]
  {
    if i < 15 { TextTypesAreText(AllowedFileTypes[i]); }
    else if i == 15 { ZipIsArchive(); }
    else { RarIsArchive(); }
  }

  /** No allowed type falls through to the generic file icon. */
  lemma AllowedTypesHaveSpecificIcons(t: string)
    requires IsAllowedFileType(t)
    ensures FileIconType(t) != GenericFileIcon
  {
    var i :| 0 <= i < |AllowedFileTypes| && AllowedFileTypes[i] == t;
    AllowedTypeIcon(i);
  }
}
