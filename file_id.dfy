/** Classification of an input file by its extension. */
module FileId {
  import opened Wrappers
  import opened Paths
  import opened Models

  const GraphicExt: set<string> := {".jpg", ".jpeg", ".png", ".bmp", ".gif"}
  const ArchiveExt: set<string> := {".zip", ".7z"}
  const PdfExt: set<string> := {".pdf"}
  const OfficeExt: set<string> := {".doc", ".docx", ".xls", ".xlsx", ".ppt", ".pptx"}
  const TextExt: set<string> := {".txt"}

  /** What `FileIdentifier.identify` reports: `(ext, mime, is_graphic, is_archive, is_text)`. */
  datatype Identification = Identification(
    ext: string,
    mime: string,
    isGraphic: bool,
    isArchive: bool,
    isText: bool)

  /**
   * `FileIdentifier.identify`. `mimeGuess` is what `mimetypes.guess_type`
   * returns for the path; a failed guess becomes the empty string.
   */
  function Identify(path: string, mimeGuess: Option<string>): (r: Identification)
    ensures r.ext == NewEvidence(path).Ext()
    ensures r.mime == (if mimeGuess.Some? then mimeGuess.value else "")
    ensures r.isGraphic <==> r.ext in GraphicExt
    ensures r.isArchive <==> r.ext in ArchiveExt
    ensures r.isText <==> r.ext == ".txt"
  {
    var ext := LowerExt(path);
    Identification(
      ext,
      match mimeGuess case Some(m) => m case None => "",
      ext in GraphicExt,
      ext in ArchiveExt,
      ext in TextExt)
  }

  /** The category sets are disjoint, so at most one flag is ever raised. */
  lemma AtMostOneFlag(path: string, mimeGuess: Option<string>)
    ensures var r := Identify(path, mimeGuess);
      && !(r.isGraphic && r.isArchive)
      && !(r.isGraphic && r.isText)
      && !(r.isArchive && r.isText)
  {
  }

  datatype OfficeClass = Office2013 | Office2007

  /** `FileIdentifier.classify_office`. */
  function ClassifyOffice(ext: string): (r: Option<OfficeClass>)
    ensures r.Some? <==> ext in OfficeExt
    ensures r == Some(Office2013) <==> ext in {".docx", ".xlsx", ".pptx"}
    ensures r == Some(Office2007) <==> ext in {".doc", ".xls", ".ppt"}
  {
    if ext in OfficeExt then
      if ext in {".docx", ".xlsx", ".pptx"} then Some(Office2013) else Some(Office2007)
    else None
  }

  /** `FileIdentifier.is_pdf`. */
  function IsPdf(ext: string): (r: bool)
    ensures r <==> ext == ".pdf"
  {
    ext in PdfExt
  }

  /** No extension is both a PDF and an Office document, nor a PDF and a graphic or archive. */
  lemma PdfIsNotOffice(ext: string)
    ensures IsPdf(ext) ==> ClassifyOffice(ext).None? && ext !in GraphicExt && ext !in ArchiveExt
  {
  }
}
