/**
 * Ingesting a fetched web page or an uploaded file: the text is obtained
 * through foreign code (HTTP and HTML extraction, UTF-8 decoding, PDF and
 * Word readers), which appears here as parameters, and is then indexed as a
 * single message written by the invoking user at the time of the command.
 */
module Extraction {
  import opened Wrappers
  import opened Text
  import opened Records
  import opened Store
  import opened Ingest
  import Chunking

  /** How `_extract_text_from_bytes` reads a file, by its lower-cased name. */
  datatype FileKind = PlainText | Pdf | Docx | Unsupported

  function KindOf(filename: string): (k: FileKind)
    ensures k == PlainText <==> EndsWith(Lower(filename), ".txt") || EndsWith(Lower(filename), ".md")
    ensures k == Pdf <==> k != PlainText && EndsWith(Lower(filename), ".pdf")
    ensures k == Docx <==> k != PlainText && k != Pdf && EndsWith(Lower(filename), ".docx")
  {
    var name := Lower(filename);
    if EndsWith(name, ".txt") || EndsWith(name, ".md") then PlainText
    else if EndsWith(name, ".pdf") then Pdf
    else if EndsWith(name, ".docx") then Docx
    else Unsupported
  }

  /** The extension is read without regard to case. */
  lemma KindIgnoresCase(filename: string)
    ensures KindOf(Lower(filename)) == KindOf(filename)
  {
    LowerIdempotent(filename);
  }

  type Bytes = seq<bv8>

  /** The foreign readers: `data.decode("utf-8", errors="ignore")`, the text
      of each PDF page and of each Word paragraph; a reader that raises
      answers `None`. */
  datatype Readers = Readers(
    utf8: Bytes -> string,
    pdfPages: Bytes -> Option<seq<string>>,
    docxParagraphs: Bytes -> Option<seq<string>>)

  /** `_extract_text_from_bytes`: the decoded text of a `.txt`/`.md` file, the
      page or paragraph texts joined by newlines for `.pdf`/`.docx`, and
      nothing for any other name or when a reader fails. */
  function ExtractText(data: Bytes, filename: string, rd: Readers): (r: Option<string>)
    ensures KindOf(filename) == Unsupported ==> r == None
    ensures KindOf(filename) == PlainText ==> r == Some(rd.utf8(data))
    ensures KindOf(filename) == Pdf ==> (r.None? <==> rd.pdfPages(data).None?)
    ensures KindOf(filename) == Docx ==> (r.None? <==> rd.docxParagraphs(data).None?)
  {
    match KindOf(filename)
    case PlainText => Some(rd.utf8(data))
    case Pdf =>
      (match rd.pdfPages(data)
       case None => None
       case Some(pages) => Some(JoinWith("\n", pages)))
    case Docx =>
      (match rd.docxParagraphs(data)
       case None => None
       case Some(paras) => Some(JoinWith("\n", paras)))
    case Unsupported => None
  }

  /** `_fetch_url_text`: the extracted page text (empty when extraction finds
      none) cut to its first 20000 characters; `None` when the fetch fails. */
  function UrlText(extracted: Option<string>): (r: Option<string>)
    ensures r.None? <==> extracted.None?
    ensures r.Some? ==> |r.value| <= 20000 && |r.value| <= |extracted.value| && r.value == extracted.value[..|r.value|]
    ensures r.Some? && |extracted.value| <= 20000 ==> r.value == extracted.value
  {
    match extracted
    case None => None
    case Some(s) => Some(s[..Chunking.Min(20000, |s|)])
  }

  /** The message `ingest_url` and `ingest_bytes` index the text as: the
      context's author, guild and channel, id 0 and the command's time. */
  function AsMessage(origin: Message, text: string): Message {
    origin.(id := 0, content := text)
  }

  /** Shared tail of `ingest_url` and `ingest_bytes`: no text, or empty text,
      indexes nothing; otherwise the text is ingested as one message. */
  method IngestText(store: VectorStore, text: Option<string>, origin: Message, source: string,
                    fingerprint: string -> string, encode: string -> Vector,
                    builtAt: string, mergedAt: string) returns (count: nat)
    modifies store
    ensures text.None? || text.value == "" ==> count == 0 && store.points == old(store.points)
    ensures text.Some? && text.value != "" ==>
      var ps := BatchPayloads([AsMessage(origin, text.value)], source, ContentHash(fingerprint), builtAt);
      && (ps == [] ==> count == 0 && store.points == old(store.points))
      && (ps != [] ==> count == |Hashes(ps)| && store.points == old(store.points) + PointsOf(ps, encode, mergedAt))
  {
    if text.None? || text.value == "" {
      return 0;
    }
    count := IngestMessages(store, [AsMessage(origin, text.value)], source, fingerprint, encode, builtAt, mergedAt);
  }

  /** `ingest_url(url)`, given what the fetch and extraction produced. */
  method IngestUrl(store: VectorStore, url: string, extracted: Option<string>, origin: Message,
                   fingerprint: string -> string, encode: string -> Vector,
                   builtAt: string, mergedAt: string) returns (count: nat)
    modifies store
    ensures extracted.None? || extracted.value == "" ==> count == 0 && store.points == old(store.points)
    ensures var t := UrlText(extracted);
      t.Some? && t.value != "" ==>
      var ps := BatchPayloads([AsMessage(origin, t.value)], url, ContentHash(fingerprint), builtAt);
      && (ps == [] ==> count == 0 && store.points == old(store.points))
      && (ps != [] ==> count == |Hashes(ps)| && store.points == old(store.points) + PointsOf(ps, encode, mergedAt))
    ensures forall id :: id in store.points && id !in old(store.points) ==> store.points[id].payload.source == url
  {
    var text := UrlText(extracted);
    count := IngestText(store, text, origin, url, fingerprint, encode, builtAt, mergedAt);
    if text.Some? && text.value != "" {
      NewPointsFromSource(text.value, origin, url, fingerprint, encode, builtAt, mergedAt);
    }
  }

  /** `ingest_bytes(data, filename)`. */
  method IngestBytes(store: VectorStore, data: Bytes, filename: string, rd: Readers, origin: Message,
                     fingerprint: string -> string, encode: string -> Vector,
                     builtAt: string, mergedAt: string) returns (count: nat)
    modifies store
    ensures KindOf(filename) == Unsupported ==> count == 0 && store.points == old(store.points)
    ensures var t := ExtractText(data, filename, rd);
      && (t.None? || t.value == "" ==> count == 0 && store.points == old(store.points))
      && (t.Some? && t.value != "" ==>
          var ps := BatchPayloads([AsMessage(origin, t.value)], filename, ContentHash(fingerprint), builtAt);
          && (ps == [] ==> count == 0 && store.points == old(store.points))
          && (ps != [] ==> count == |Hashes(ps)| && store.points == old(store.points) + PointsOf(ps, encode, mergedAt)))
    ensures forall id :: id in store.points && id !in old(store.points) ==> store.points[id].payload.source == filename
  {
    var text := ExtractText(data, filename, rd);
    count := IngestText(store, text, origin, filename, fingerprint, encode, builtAt, mergedAt);
    if text.Some? && text.value != "" {
      NewPointsFromSource(text.value, origin, filename, fingerprint, encode, builtAt, mergedAt);
    }
  }

  /** Every point ingesting a text creates names the text's origin as its
      source. */
  lemma NewPointsFromSource(text: string, origin: Message, source: string,
                            fingerprint: string -> string, encode: string -> Vector,
                            builtAt: string, mergedAt: string)
    ensures var ps := BatchPayloads([AsMessage(origin, text)], source, ContentHash(fingerprint), builtAt);
            forall h :: h in PointsOf(ps, encode, mergedAt) ==>
              PointsOf(ps, encode, mergedAt)[h].payload.source == source &&
              PointsOf(ps, encode, mergedAt)[h].payload.sources == {source}
  {
    SingleSource([AsMessage(origin, text)], source, ContentHash(fingerprint), encode, builtAt, mergedAt);
  }
}
