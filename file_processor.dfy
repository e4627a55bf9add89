/** The file content extractor: classifies an upload by the suffix of its
    lower-cased name, turns it into text or raw bytes, and reports its size.
    The PDF and DOCX libraries are replaced by what they hand back (pages,
    paragraphs, or an exception message), UTF-8 decoding by a function
    parameter that yields no text for malformed input. */
module FileProcessor {
  import opened Wrappers
  import opened Strings
  import Config

  newtype byte = x: int | 0 <= x < 256

  // ------------------------------------------------------------ the stream

  datatype Whence = FromStart | FromEnd

  /** An uploaded file: a name and a byte content read through a cursor. */
  class Stream {
    const name: string
    var content: seq<byte>
    var pos: nat

    constructor (name: string, content: seq<byte>)
      ensures this.name == name && this.content == content && pos == 0
    {
      this.name := name;
      this.content := content;
      pos := 0;
    }

    /** What a `read()` from the current position returns. */
    function Remaining(): seq<byte>
      reads this
    {
      if pos < |content| then content[pos..] else []
    }

    /** `seek(offset, whence)` for whence 0 (from the start) and 2 (from the end). */
    method Seek(offset: nat, whence: Whence)
      modifies this`pos
      ensures pos == match whence
        case FromStart => offset
        case FromEnd => |content| + offset
    {
      match whence
      case FromStart => pos := offset;
      case FromEnd => pos := |content| + offset;
    }

    method Tell() returns (p: nat)
      ensures p == pos
    {
      p := pos;
    }

    /** `read()` with no size: the rest of the content; the cursor moves to the
        end unless it is already past it. */
    method Read() returns (data: seq<byte>)
      modifies this`pos
      ensures data == old(Remaining())
      ensures pos == if old(pos) < |content| then |content| else old(pos)
    {
      data := Remaining();
      if pos < |content| {
        pos := |content|;
      }
    }
  }

  // -------------------------------------------------------------- dispatch

  datatype Kind = TextKind | PdfKind | DocxKind | ImageKind | Unsupported

  /** The kind tag as `process_file` spells it. */
  function KindName(k: Kind): string {
    match k
    case TextKind => "text"
    case PdfKind => "pdf"
    case DocxKind => "docx"
    case ImageKind => "image"
    case Unsupported => "unsupported"
  }

  /** The tag returned with the content tells the five branches apart. */
  lemma KindNamesDistinct(k1: Kind, k2: Kind)
    requires k1 != k2
    ensures KindName(k1) != KindName(k2)
  {
  }

  /** `any(name.endswith(ext) for ext in exts)`. */
  predicate EndsWithAny(name: string, exts: seq<string>) {
    exists k :: 0 <= k < |exts| && EndsWith(name, exts[k])
  }

  /** The if/elif chain of `process_file`: the first test that holds decides. */
  function Dispatch(name: string): Kind {
    var lowered := Lower(name);
    if EndsWithAny(lowered, Config.SupportedTextFormats) then TextKind
    else if EndsWith(lowered, ".pdf") then PdfKind
    else if EndsWith(lowered, ".docx") then DocxKind
    else if EndsWithAny(lowered, Config.SupportedImageFormats) then ImageKind
    else Unsupported
  }

  /** A suffix of the recognised form: a dot followed by text without dots. */
  predicate DotSuffix(e: string) {
    |e| > 0 && e[0] == '.' && '.' !in e[1..]
  }

  predicate AllDotSuffixes(exts: seq<string>) {
    forall k :: 0 <= k < |exts| ==> DotSuffix(exts[k])
  }

  lemma ConfiguredSuffixes()
    ensures AllDotSuffixes(Config.SupportedTextFormats)
    ensures AllDotSuffixes(Config.SupportedImageFormats)
    ensures AllDotSuffixes([".pdf"]) && AllDotSuffixes([".docx"])
  {
  }

  /** No name ends with two different suffixes of the recognised form. */
  lemma DotSuffixesExclusive(name: string, e1: string, e2: string)
    requires DotSuffix(e1) && DotSuffix(e2)
    requires EndsWith(name, e1) && EndsWith(name, e2)
    ensures e1 == e2
  {
  }

  /** A name that ends with a suffix of one list ends with none of a list
      sharing no suffix with it. */
  lemma NoCrossMatch(name: string, xs: seq<string>, ys: seq<string>)
    requires AllDotSuffixes(xs) && AllDotSuffixes(ys)
    requires Disjoint(xs, ys)
    requires EndsWithAny(name, xs)
    ensures !EndsWithAny(name, ys)
  {
    var i :| 0 <= i < |xs| && EndsWith(name, xs[i]);
    forall j | 0 <= j < |ys|
      ensures !EndsWith(name, ys[j])
    {
      if EndsWith(name, ys[j]) {
        DotSuffixesExclusive(name, xs[i], ys[j]);
      }
    }
  }

  predicate Disjoint(xs: seq<string>, ys: seq<string>) {
    forall i, j :: 0 <= i < |xs| && 0 <= j < |ys| ==> xs[i] != ys[j]
  }

  lemma ConfiguredListsDisjoint()
    ensures Disjoint(Config.SupportedTextFormats, [".pdf"])
    ensures Disjoint(Config.SupportedTextFormats, [".docx"])
    ensures Disjoint(Config.SupportedTextFormats, Config.SupportedImageFormats)
    ensures Disjoint([".pdf"], Config.SupportedImageFormats)
    ensures Disjoint([".docx"], Config.SupportedImageFormats)
  {
  }

  lemma SingleSuffix(name: string, e: string)
    ensures EndsWithAny(name, [e]) <==> EndsWith(name, e)
  {
    if EndsWith(name, e) {
      assert EndsWith(name, [e][0]);
    }
  }

  /** The recognised suffixes are pairwise distinct and of the dotted form, so
      at most one branch of the chain can hold: each kind is chosen exactly
      when the lower-cased name ends with one of its own suffixes, whatever
      the order of the tests. */
  lemma DispatchCharacterised(name: string)
    ensures Dispatch(name) == TextKind <==> EndsWithAny(Lower(name), Config.SupportedTextFormats)
    ensures Dispatch(name) == PdfKind <==> EndsWith(Lower(name), ".pdf")
    ensures Dispatch(name) == DocxKind <==> EndsWith(Lower(name), ".docx")
    ensures Dispatch(name) == ImageKind <==> EndsWithAny(Lower(name), Config.SupportedImageFormats)
    ensures Dispatch(name) == Unsupported <==>
      !EndsWithAny(Lower(name), Config.SupportedTextFormats) &&
      !EndsWith(Lower(name), ".pdf") && !EndsWith(Lower(name), ".docx") &&
      !EndsWithAny(Lower(name), Config.SupportedImageFormats)
  {
    var n := Lower(name);
    var text, image := Config.SupportedTextFormats, Config.SupportedImageFormats;
    ConfiguredSuffixes();
    ConfiguredListsDisjoint();
    SingleSuffix(n, ".pdf");
    SingleSuffix(n, ".docx");
    if EndsWithAny(n, text) {
      NoCrossMatch(n, text, [".pdf"]);
      NoCrossMatch(n, text, [".docx"]);
      NoCrossMatch(n, text, image);
    } else if EndsWith(n, ".pdf") {
      NoCrossMatch(n, [".pdf"], image);
      if EndsWith(n, ".docx") {
        DotSuffixesExclusive(n, ".pdf", ".docx");
      }
    } else if EndsWith(n, ".docx") {
      NoCrossMatch(n, [".docx"], image);
    }
  }

  // ------------------------------------------------------------ extension

  /** `name.split('.')[-1].lower()`: the lower-cased text after the last dot,
      or the whole name lower-cased when it has no dot. */
  function Extension(name: string): (ext: string)
    ensures '.' !in ext
  {
    var pieces := Split(name, '.');
    var last := pieces[|pieces| - 1];
    assert forall i :: 0 <= i < |last| ==> last[i] != '.';
    Lower(last)
  }

  lemma ExtensionWithoutDot(name: string)
    requires '.' !in name
    ensures Extension(name) == Lower(name)
  {
  }

  lemma ExtensionAfterLastDot(name: string)
    requires '.' in name
    ensures Extension(name) == Lower(name[LastIndex(name, '.') + 1..])
  {
    SplitLast(name, '.');
  }

  /** A name ending in a dot has an empty extension. */
  lemma ExtensionOfTrailingDot(name: string)
    requires name != [] && name[|name| - 1] == '.'
    ensures Extension(name) == ""
  {
    ExtensionAfterLastDot(name);
  }

  /** The lower-cased name ends with `"." + e` exactly when the name has a dot
      and its extension is `e`. */
  lemma SuffixIffExtension(name: string, e: string)
    requires '.' !in e
    ensures EndsWith(Lower(name), "." + e) <==> '.' in name && Extension(name) == e
  {
    var low := Lower(name);
    LowerDots(name);
    SuffixIffAfterLastDot(low, e);
    if '.' in name {
      ExtensionIsLoweredTail(name);
    }
  }

  lemma ExtensionIsLoweredTail(name: string)
    requires '.' in name
    ensures '.' in Lower(name)
    ensures Extension(name) == Lower(name)[LastIndex(Lower(name), '.') + 1..]
  {
    var i := LastIndex(name, '.');
    LowerDots(name);
    ExtensionAfterLastDot(name);
    LowerSlice(name, i + 1, |name|);
  }

  lemma EndsWithAnyIffExtension(name: string, exts: seq<string>)
    requires '.' in name && AllDotSuffixes(exts)
    ensures EndsWithAny(Lower(name), exts) <==> "." + Extension(name) in exts
  {
    if EndsWithAny(Lower(name), exts) {
      var k :| 0 <= k < |exts| && EndsWith(Lower(name), exts[k]);
      assert exts[k] == "." + exts[k][1..];
      SuffixIffExtension(name, exts[k][1..]);
    }
    if "." + Extension(name) in exts {
      var k :| 0 <= k < |exts| && exts[k] == "." + Extension(name);
      SuffixIffExtension(name, Extension(name));
    }
  }

  /** The kind an extension names, read off the configured lists. */
  function KindOfExtension(ext: string): Kind {
    if "." + ext in Config.SupportedTextFormats then TextKind
    else if ext == "pdf" then PdfKind
    else if ext == "docx" then DocxKind
    else if "." + ext in Config.SupportedImageFormats then ImageKind
    else Unsupported
  }

  /** For a name with a dot, suffix matching in `process_file` agrees with the
      extension that `get_file_info` reports. (Without a dot it does not: the
      name "pdf" has extension "pdf" but is unsupported.) */
  lemma DispatchByExtension(name: string)
    requires '.' in name
    ensures Dispatch(name) == KindOfExtension(Extension(name))
  {
    var low, e := Lower(name), Extension(name);
    ConfiguredSuffixes();
    EndsWithAnyIffExtension(name, Config.SupportedTextFormats);
    EndsWithAnyIffExtension(name, Config.SupportedImageFormats);
    SuffixIffExtension(name, "pdf");
    SuffixIffExtension(name, "docx");
    assert "." + "pdf" == ".pdf" && "." + "docx" == ".docx";
    assert EndsWith(low, ".pdf") <==> e == "pdf";
    assert EndsWith(low, ".docx") <==> e == "docx";
  }

  // ------------------------------------------------------------------ pdf

  const PdfErrorPrefix: string := "Error extracting PDF: "
  const DocxErrorPrefix: string := "Error extracting DOCX: "
  const Separator: string := "\n\n"

  /** What the PDF library gives: it cannot open the stream, or a list of pages
      each of which yields text (possibly none) or raises. */
  datatype PdfPage = Extracted(text: Option<string>) | PageRaised(msg: string)
  datatype PdfSource = PdfUnreadable(msg: string) | PdfPages(pages: seq<PdfPage>)

  /** `page.extract_text() or ""`. */
  function PageText(page: PdfPage): string {
    match page
    case Extracted(Some(t)) => t
    case _ => ""
  }

  function PageTexts(pages: seq<PdfPage>): (texts: seq<string>)
    ensures |texts| == |pages|
    ensures forall k :: 0 <= k < |pages| ==> texts[k] == PageText(pages[k])
    decreases |pages|
  {
    if pages == [] then []
    else PageTexts(pages[..|pages| - 1]) + [PageText(pages[|pages| - 1])]
  }

  /** The message of the first page that raises, if any. */
  function FirstPageError(pages: seq<PdfPage>): Option<string>
    decreases |pages|
  {
    if pages == [] then None
    else match FirstPageError(pages[..|pages| - 1])
      case Some(m) => Some(m)
      case None =>
        match pages[|pages| - 1]
        case PageRaised(m) => Some(m)
        case Extracted(_) => None
  }

  /** No exception leaves `_extract_pdf`: a failure becomes the content. */
  function PdfText(source: PdfSource): string {
    match source
    case PdfUnreadable(m) => PdfErrorPrefix + m
    case PdfPages(pages) =>
      match FirstPageError(pages)
      case Some(m) => PdfErrorPrefix + m
      case None => Join(PageTexts(pages), Separator)
  }

  lemma {:induction false} FirstPageErrorSpec(pages: seq<PdfPage>)
    ensures FirstPageError(pages).None? <==> forall k :: 0 <= k < |pages| ==> pages[k].Extracted?
    ensures FirstPageError(pages).Some? ==>
      exists k :: 0 <= k < |pages| && pages[k] == PageRaised(FirstPageError(pages).value) &&
        (forall j :: 0 <= j < k ==> pages[j].Extracted?)
    decreases |pages|
  {
    if pages != [] {
      var init := pages[..|pages| - 1];
      FirstPageErrorSpec(init);
      if FirstPageError(init).Some? {
        var k :| 0 <= k < |init| && init[k] == PageRaised(FirstPageError(init).value)
          && forall j :: 0 <= j < k ==> init[j].Extracted?;
        assert pages[k] == init[k];
      }
    }
  }

  /** `_extract_pdf` as written: pages are visited in order and their texts
      collected; the first page that raises ends the loop with an error
      string. */
  method ExtractPdf(source: PdfSource) returns (content: string)
    ensures content == PdfText(source)
  {
    match source
    case PdfUnreadable(m) =>
      content := PdfErrorPrefix + m;
    case PdfPages(pages) =>
      var parts: seq<string> := [];
      var i := 0;
      while i < |pages|
        invariant 0 <= i <= |pages|
        invariant FirstPageError(pages[..i]).None?
        invariant parts == PageTexts(pages[..i])
      {
        assert pages[..i + 1][..i] == pages[..i];
        match pages[i]
        case PageRaised(m) =>
          assert FirstPageError(pages[..i + 1]) == Some(m);
          FirstErrorExtends(pages, i + 1);
          return PdfErrorPrefix + m;
        case Extracted(t) =>
          parts := parts + [PageText(pages[i])];
        i := i + 1;
      }
      assert pages[..i] == pages;
      content := Join(parts, Separator);
  }

  /** A page error found in a prefix is the first error of the whole list. */
  lemma {:induction false} FirstErrorExtends(pages: seq<PdfPage>, n: nat)
    requires n <= |pages| && FirstPageError(pages[..n]).Some?
    ensures FirstPageError(pages) == FirstPageError(pages[..n])
    decreases |pages| - n
  {
    if n < |pages| {
      assert pages[..n + 1][..n] == pages[..n];
      FirstErrorExtends(pages, n + 1);
    } else {
      assert pages[..n] == pages;
    }
  }

  /** When no page raises, the content is the page texts in page order, a page
      without text counting as "", glued with a blank line. */
  lemma PdfPagesJoined(pages: seq<PdfPage>)
    requires forall k :: 0 <= k < |pages| ==> pages[k].Extracted?
    ensures PdfText(PdfPages(pages)) == Join(PageTexts(pages), Separator)
    ensures |pages| > 0 ==> PageText(pages[0]) <= PdfText(PdfPages(pages))
  {
    FirstPageErrorSpec(pages);
    if |pages| > 0 {
      JoinEnds(PageTexts(pages), Separator);
    }
  }

  /** When the reader or some page raises, the content is the error message of
      the first failure behind the fixed prefix. */
  lemma PdfFailureIsContent(pages: seq<PdfPage>, k: nat)
    requires k < |pages| && pages[k].PageRaised?
    requires forall j :: 0 <= j < k ==> pages[j].Extracted?
    ensures PdfText(PdfPages(pages)) == PdfErrorPrefix + pages[k].msg
  {
    FirstPageErrorSpec(pages);
    var e := FirstPageError(pages);
    assert e.Some?;
    var k' :| 0 <= k' < |pages| && pages[k'] == PageRaised(e.value) && forall j :: 0 <= j < k' ==> pages[j].Extracted?;
    assert k' == k;
  }

  /** A stream the library cannot open gives the PDF error text. */
  lemma PdfUnreadableIsContent(m: string)
    ensures PdfText(PdfUnreadable(m)) == PdfErrorPrefix + m
  {
  }

  // ----------------------------------------------------------------- docx

  /** What the DOCX library gives: it cannot open the stream, or the texts of
      the paragraphs in document order. */
  datatype DocxSource = DocxUnreadable(msg: string) | DocxParagraphs(paragraphs: seq<string>)

  /** `[p for p in paragraphs if p.strip()]`. */
  function NonBlank(paragraphs: seq<string>): seq<string>
    decreases |paragraphs|
  {
    if paragraphs == [] then []
    else
      var last := paragraphs[|paragraphs| - 1];
      NonBlank(paragraphs[..|paragraphs| - 1]) + (if Strip(last) != "" then [last] else [])
  }

  function ExtractDocx(source: DocxSource): string {
    match source
    case DocxUnreadable(m) => DocxErrorPrefix + m
    case DocxParagraphs(ps) => Join(NonBlank(ps), Separator)
  }

  /** Filtering distributes over concatenation, so the kept paragraphs appear
      in document order. */
  lemma {:induction false} NonBlankConcat(a: seq<string>, b: seq<string>)
    ensures NonBlank(a + b) == NonBlank(a) + NonBlank(b)
    decreases |b|
  {
    if b == [] {
      assert a + b == a;
    } else {
      var init := b[..|b| - 1];
      assert (a + b)[..|a + b| - 1] == a + init;
      NonBlankConcat(a, init);
    }
  }

  /** A paragraph is kept exactly when it has a non-whitespace character. */
  lemma {:induction false} NonBlankMembers(ps: seq<string>)
    ensures forall p :: p in NonBlank(ps) <==> p in ps && !IsBlank(p)
    decreases |ps|
  {
    if ps != [] {
      var init, last := ps[..|ps| - 1], ps[|ps| - 1];
      NonBlankMembers(init);
      StripEmptyIffBlank(last);
      assert ps == init + [last];
      forall p ensures p in ps <==> p in init || p == last {
      }
    }
  }

  /** Nothing is dropped from a document without blank paragraphs. */
  lemma {:induction false} NonBlankKeepsAll(ps: seq<string>)
    requires forall k :: 0 <= k < |ps| ==> !IsBlank(ps[k])
    ensures NonBlank(ps) == ps
    decreases |ps|
  {
    if ps != [] {
      var init := ps[..|ps| - 1];
      assert forall k :: 0 <= k < |init| ==> init[k] == ps[k];
      NonBlankKeepsAll(init);
      StripEmptyIffBlank(ps[|ps| - 1]);
      assert ps == init + [ps[|ps| - 1]];
    }
  }

  /** A document the library cannot open gives the DOCX error text. */
  lemma DocxFailureIsContent(m: string)
    ensures ExtractDocx(DocxUnreadable(m)) == DocxErrorPrefix + m
  {
  }

  /** Without blank paragraphs, the content is all paragraphs joined by a
      blank line. */
  lemma DocxParagraphsJoined(ps: seq<string>)
    requires forall k :: 0 <= k < |ps| ==> !IsBlank(ps[k])
    ensures ExtractDocx(DocxParagraphs(ps)) == Join(ps, Separator)
  {
    NonBlankKeepsAll(ps);
  }

  /** A blank paragraph anywhere in the document leaves the content as if it
      were not there. */
  lemma DocxSkipsBlank(before: seq<string>, blank: string, after: seq<string>)
    requires IsBlank(blank)
    ensures ExtractDocx(DocxParagraphs(before + [blank] + after)) ==
      ExtractDocx(DocxParagraphs(before + after))
  {
    StripEmptyIffBlank(blank);
    assert NonBlank([blank]) == [] by {
      assert [blank][..0] == [];
    }
    NonBlankConcat(before, [blank]);
    NonBlankConcat(before + [blank], after);
    NonBlankConcat(before, after);
    assert NonBlank(before + [blank] + after) == NonBlank(before + after);
  }

  // ---------------------------------------------------------- process_file

  datatype Content = Text(text: string) | Bytes(bytes: seq<byte>)
  datatype Extraction = Extraction(content: Content, kind: Kind)

  /** The exception `process_file` lets through: text bytes that are not UTF-8. */
  datatype ProcessError = UnicodeDecodeError

  /** `process_file` given what `read()` returns (`data`), the UTF-8 decoder,
      and what the PDF and DOCX libraries would give for this upload. */
  function ProcessFile(name: string, data: seq<byte>, decode: seq<byte> -> Option<string>,
                       pdf: PdfSource, docx: DocxSource): (r: Result<Extraction, ProcessError>)
    ensures var low := Lower(name);
      EndsWithAny(low, Config.SupportedTextFormats) ==>
        r == match decode(data)
          case Some(t) => Success(Extraction(Text(t), TextKind))
          case None => Failure(UnicodeDecodeError)
    ensures EndsWith(Lower(name), ".pdf") ==> r == Success(Extraction(Text(PdfText(pdf)), PdfKind))
    ensures EndsWith(Lower(name), ".docx") ==> r == Success(Extraction(Text(ExtractDocx(docx)), DocxKind))
    ensures EndsWithAny(Lower(name), Config.SupportedImageFormats) ==> r == Success(Extraction(Bytes(data), ImageKind))
    ensures Dispatch(name) == Unsupported <==> r == Success(Extraction(Text(""), Unsupported))
    ensures r.Failure? ==> EndsWithAny(Lower(name), Config.SupportedTextFormats)
  {
    DispatchCharacterised(name);
    match Dispatch(name)
    case TextKind =>
      (match decode(data)
       case Some(t) => Success(Extraction(Text(t), TextKind))
       case None => Failure(UnicodeDecodeError))
    case PdfKind => Success(Extraction(Text(PdfText(pdf)), PdfKind))
    case DocxKind => Success(Extraction(Text(ExtractDocx(docx)), DocxKind))
    case ImageKind => Success(Extraction(Bytes(data), ImageKind))
    case Unsupported => Success(Extraction(Text(""), Unsupported))
  }

  /** `process_file` on the stream itself: only the text and image branches
      read it, from the current position to the end. */
  method ProcessUpload(file: Stream, decode: seq<byte> -> Option<string>, pdf: PdfSource, docx: DocxSource)
    returns (r: Result<Extraction, ProcessError>)
    modifies file`pos
    ensures r == ProcessFile(file.name, old(file.Remaining()), decode, pdf, docx)
    ensures Dispatch(file.name) in {TextKind, ImageKind} ==>
      file.pos == if old(file.pos) < |file.content| then |file.content| else old(file.pos)
    ensures Dispatch(file.name) == Unsupported ==> file.pos == old(file.pos)
  {
    var kind := Dispatch(file.name);
    var data: seq<byte> := [];
    if kind == TextKind || kind == ImageKind {
      data := file.Read();
    }
    r := ProcessFile(file.name, data, decode, pdf, docx);
  }

  // ---------------------------------------------------------------- sizes

  /** `(max_mb or Config.MAX_FILE_SIZE_MB) * 1024 * 1024`: both a missing
      limit and a limit of 0 fall back to the default. */
  function SizeLimit(maxMb: Option<int>): (limit: int)
    ensures maxMb == None || maxMb == Some(0) ==> limit == 10 * 1048576
    ensures maxMb.Some? && maxMb.value != 0 ==> limit == maxMb.value * 1048576
  {
    var mb := if maxMb == None || maxMb == Some(0) then Config.MaxFileSizeMb else maxMb.value;
    mb * 1024 * 1024
  }

  /** `validate_file_size`: measures the stream by seeking to its end, rewinds
      it, and compares. */
  method ValidateFileSize(file: Stream, maxMb: Option<int>) returns (ok: bool)
    modifies file`pos
    ensures ok <==> |file.content| <= SizeLimit(maxMb)
    ensures file.pos == 0 && file.content == old(file.content)
  {
    var maxSize := SizeLimit(maxMb);
    file.Seek(0, FromEnd);
    var size := file.Tell();
    file.Seek(0, FromStart);
    ok := size <= maxSize;
  }

  datatype Unit = B | KB | MB | GB | TB

  function UnitName(u: Unit): string {
    match u
    case B => "B"
    case KB => "KB"
    case MB => "MB"
    case GB => "GB"
    case TB => "TB"
  }

  /** The power of 1024 a unit stands for. */
  function Exponent(u: Unit): nat {
    match u
    case B => 0
    case KB => 1
    case MB => 2
    case GB => 3
    case TB => 4
  }

  /** The units the loop of `_format_size` tries, in order; TB comes after. */
  const LoopUnits: seq<Unit> := [B, KB, MB, GB]

  function Pow1024(k: nat): (p: nat)
    ensures p >= 1
  {
    if k == 0 then 1 else 1024 * Pow1024(k - 1)
  }

  lemma {:induction false} Pow1024Monotonic(i: nat, j: nat)
    requires i <= j
    ensures Pow1024(i) <= Pow1024(j)
    decreases j
  {
    if i < j {
      Pow1024Monotonic(i, j - 1);
    }
  }

  /** A size shown as a magnitude in a unit (the text rendering `.2f` is not
      part of this model). */
  datatype Readable = Readable(magnitude: real, unit: Unit)

  /** The unit is the largest one (up to TB) that does not exceed the size, or
      B, and the magnitude is the size in that unit. */
  predicate Describes(r: Readable, n: nat) {
    var k := Exponent(r.unit);
    (k < 4 ==> n < Pow1024(k + 1)) &&
    (k > 0 ==> Pow1024(k) <= n) &&
    r.magnitude == n as real / Pow1024(k) as real
  }

  /** Exactly one reading describes a size. */
  lemma DescribesUnique(n: nat, r1: Readable, r2: Readable)
    requires Describes(r1, n) && Describes(r2, n)
    ensures r1 == r2
  {
    var k1, k2 := Exponent(r1.unit), Exponent(r2.unit);
    if k1 < k2 {
      Pow1024Monotonic(k1 + 1, k2);
    } else if k2 < k1 {
      Pow1024Monotonic(k2 + 1, k1);
    }
    assert k1 == k2;
  }

  lemma TwoKibibytes()
    ensures Describes(Readable(2.0, KB), 2048)
  {
  }

  lemma ScaleStrict(a: real, b: real, p: real)
    requires p > 0.0 && a < b
    ensures a * p < b * p
  {
  }

  lemma ScaleMonotone(a: real, b: real, p: real)
    requires p > 0.0 && a <= b
    ensures a * p <= b * p
  {
  }

  lemma ScaleBack(x: real, y: real, p: real)
    requires p > 0.0 && x * p == y
    ensures x == y / p
  {
  }

  /** `_format_size`: divide by 1024 until the value is below 1024 or the unit
      list runs out (exact division stands for the float division). */
  method FormatSize(n: nat) returns (r: Readable)
    ensures Describes(r, n)
  {
    var size: real := n as real;
    var i := 0;
    while i < |LoopUnits|
      invariant 0 <= i <= |LoopUnits|
      invariant size * Pow1024(i) as real == n as real
      invariant i > 0 ==> Pow1024(i) <= n
    {
      assert Exponent(LoopUnits[i]) == i;
      var p := Pow1024(i) as real;
      assert Pow1024(i + 1) as real == 1024.0 * p;
      if size < 1024.0 {
        ScaleStrict(size, 1024.0, p);
        ScaleBack(size, n as real, p);
        return Readable(size, LoopUnits[i]);
      }
      ScaleMonotone(1024.0, size, p);
      assert (size / 1024.0) * (1024.0 * p) == size * p;
      size := size / 1024.0;
      i := i + 1;
    }
    ScaleBack(size, n as real, Pow1024(4) as real);
    r := Readable(size, TB);
  }

  datatype FileInfo = FileInfo(name: string, sizeBytes: nat, sizeReadable: Readable, extension: string)

  /** `get_file_info`: measures and rewinds the stream like
      `validate_file_size`, then reports name, size and extension. */
  method GetFileInfo(file: Stream) returns (info: FileInfo)
    modifies file`pos
    ensures file.pos == 0 && file.content == old(file.content)
    ensures info.name == file.name && info.sizeBytes == |file.content|
    ensures Describes(info.sizeReadable, |file.content|)
    ensures info.extension == Extension(file.name)
  {
    file.Seek(0, FromEnd);
    var size := file.Tell();
    file.Seek(0, FromStart);
    var readable := FormatSize(size);
    info := FileInfo(file.name, size, readable, Extension(file.name));
  }
}
