# Content summarizer core, modelled in Dafny

The application takes uploaded files, YouTube links and source code, turns
them into text, and asks an AI provider (OpenAI or Anthropic) to summarize it.
This project models the part of it that decides what happens to the input
and builds what is sent out:

- **File processing** (`file_processor.dfy`, module `FileProcessor`). This
  covers the upload object with its read cursor, and dispatch on the
  lower-cased file name into text, PDF, DOCX, image or unsupported. It also
  covers the PDF page join and its error text, the DOCX paragraph filter and
  join, the upload size check, the file information record, and the loop
  that picks a size unit.
- **Video handling** (`video_handler.dfy`, module `VideoHandler`). This
  covers the two video-id patterns as a leftmost-match search, and the
  manual-then-generated transcript choice with every way it can fail. It
  also covers the result record (text joined by spaces, `m:ss` duration,
  word count, segment count) and the thumbnail URL.
- **Summarizer requests** (`ai_summarizer.dfy`, module `Summarizer`). This
  covers the prompt templates by style with their fallback, the code
  prompt, and the provider switch fixed when the summarizer is built. It
  also covers the two image request shapes.
- **Configuration constants** (`config.dfy`, module `Config`), the Python
  string operations the core relies on (`strings.dfy`, module `Strings`)
  and `Option`/`Result` (`wrappers.dfy`, module `Wrappers`).

Outside services are parameters of the model:

- the UTF-8 decoder is a function `seq<byte> -> Option<string>`;
- base64 is a function `seq<byte> -> string`;
- the PDF and DOCX readers are values that list the pages or paragraphs they
  would produce, or the error they would raise;
- the transcript service is a function from a video id to the outcome of
  each of its calls;
- the process environment is a `map<string, string>`.

Python's characters are modelled as Dafny `char`. `str.isspace` is modelled
on its ASCII members (9-13, 28-31, 32), and `str.lower` on `A`-`Z`.

Three behaviours of the code that are easy to miss are modelled as written:

- The PDF text joins every page with a blank line, including pages that
  produce no text. Those pages contribute an empty piece, so two separators
  can end up side by side.
- The file information of a name without a `.` gives the whole lower-cased
  name as its extension.
- Any `AI_PROVIDER` value other than `openai` selects Anthropic, not only
  `anthropic`.

## Model

| member | source | states |
|---|---|---|
| FileProcessor.Stream.constructor | file-3rt.py:11 | A new upload holds its name and bytes, with the cursor at the start. |
| FileProcessor.Stream.Seek | file-3rt.py:66-68 | Moves the cursor to the offset counted from the start or from the end; nothing else changes. |
| FileProcessor.Stream.Tell | file-3rt.py:67 | Returns the cursor position. |
| FileProcessor.Stream.Read | file-3rt.py:20 | Returns exactly the bytes after the cursor and leaves the cursor at the end. |
| FileProcessor.KindNamesDistinct | file-3rt.py:21-38 | The five kind tags `text`, `pdf`, `docx`, `image`, `unsupported` are all different. |
| FileProcessor.ConfiguredSuffixes | file-nf8.py:14-16 | Every configured format is a `.` followed by a dot-free suffix. |
| FileProcessor.ConfiguredListsDisjoint | file-nf8.py:14-16 | The text, PDF, DOCX and image suffix lists share no entry. |
| FileProcessor.DotSuffixesExclusive | file-3rt.py:19-34 | A name ends with at most one `.`-suffix that has no further dot. |
| FileProcessor.NoCrossMatch | file-3rt.py:19-34 | A name matching one format list matches no disjoint list. |
| FileProcessor.SingleSuffix | file-3rt.py:24 | Matching a one-entry list is the same as `endswith` of that entry. |
| FileProcessor.DispatchCharacterised | file-3rt.py:16-38 | Each of the five kinds is chosen if and only if the lower-cased name has a suffix from its list. Unsupported is chosen exactly when no list matches. |
| FileProcessor.Extension | file-3rt.py:82 | The extension never contains a `.`. |
| FileProcessor.ExtensionWithoutDot | file-3rt.py:82 | A name without a `.` has the whole lower-cased name as extension. |
| FileProcessor.ExtensionAfterLastDot | file-3rt.py:82 | Otherwise the extension is the lower-cased text after the last `.`. |
| FileProcessor.ExtensionOfTrailingDot | file-3rt.py:82 | A name ending in `.` has the empty extension. |
| FileProcessor.SuffixIffExtension | file-3rt.py:16-34 | The lower-cased name ends with `.e` (for dot-free `e`) exactly when the name has a dot and its extension is `e`. |
| FileProcessor.EndsWithAnyIffExtension | file-3rt.py:19-34 | For a dotted name, matching a list of dot-suffixes is the same as `.`+extension being in the list. |
| FileProcessor.DispatchByExtension | file-3rt.py:16-38 | For a dotted name, dispatch depends only on its extension. |
| FileProcessor.PageTexts | file-3rt.py:46-47 | One piece per page; a page with no text gives the empty piece. |
| FileProcessor.FirstPageErrorSpec | file-3rt.py:43-50 | No error is reported exactly when every page extracts. Otherwise the reported error is that of the first page that raises. |
| FileProcessor.ExtractPdf | file-3rt.py:41-50 | The loop over pages returns the page texts joined by a blank line or, at the first page that raises, the PDF error text. |
| FileProcessor.FirstErrorExtends | file-3rt.py:46-50 | Once a prefix of the pages has raised, later pages do not change the outcome. |
| FileProcessor.PdfPagesJoined | file-3rt.py:48 | With no error, the PDF text is the join of all page texts and begins with the first page's text. |
| FileProcessor.PdfUnreadableIsContent | file-3rt.py:43-50 | A PDF the library cannot open gives `Error extracting PDF: ` + message. |
| FileProcessor.PdfFailureIsContent | file-3rt.py:46-50 | A page that raises, after pages that all extracted, makes the content `Error extracting PDF: ` + message. |
| FileProcessor.NonBlankConcat | file-3rt.py:57 | The paragraph filter distributes over concatenation. |
| FileProcessor.NonBlankMembers | file-3rt.py:57 | A paragraph is kept if and only if it is present and not blank after stripping. |
| FileProcessor.NonBlankKeepsAll | file-3rt.py:57 | With no blank paragraph, the filter keeps every paragraph in order. |
| FileProcessor.DocxFailureIsContent | file-3rt.py:55-60 | A DOCX the library cannot open gives `Error extracting DOCX: ` + message. |
| FileProcessor.DocxParagraphsJoined | file-3rt.py:56-58 | With no blank paragraph, the content is every paragraph, in order, joined by a blank line. |
| FileProcessor.DocxSkipsBlank | file-3rt.py:57-58 | A blank paragraph anywhere in the document leaves the content as if it were absent. |
| FileProcessor.ProcessFile | file-3rt.py:11-38 | Text suffixes decode the bytes, or fail only when decoding fails. PDF and DOCX give their extracted text. Images give the raw bytes. Anything else gives `("", unsupported)`. |
| FileProcessor.ProcessUpload | file-3rt.py:11-38 | Same result as `ProcessFile` on the bytes after the cursor. Text and image uploads leave the cursor at the end; an unsupported upload leaves it where it was. |
| FileProcessor.SizeLimit | file-3rt.py:65 | No limit or a zero limit means 10 MiB; any other value `v` means `v` MiB. |
| FileProcessor.ValidateFileSize | file-3rt.py:63-69 | Accepts exactly when the file size is at most the limit; the cursor ends at 0 and the bytes are unchanged. |
| FileProcessor.Pow1024Monotonic | file-3rt.py:88-91 | Powers of 1024 grow with the exponent. |
| FileProcessor.DescribesUnique | file-3rt.py:86-92 | At most one unit and magnitude describe a size. |
| FileProcessor.TwoKibibytes | file-3rt.py:86-92 | 2048 bytes read as 2.0 KB. |
| FileProcessor.FormatSize | file-3rt.py:86-92 | The unit is the largest of KB..TB not above the size, or B when none is (TB when the size is 1024^4 or more). The magnitude is the size divided by that unit. |
| FileProcessor.GetFileInfo | file-3rt.py:72-83 | Name, size in bytes, readable size and extension of the upload; cursor back at 0. |
| VideoHandler.IdRun | file-gk7.py:12-13 | The captured id is the longest run of characters other than `&`, newline, `?`, `#`. |
| VideoHandler.FirstAlt | file-gk7.py:12 | At one position, the first alternative of the pattern that matches, in pattern order. |
| VideoHandler.Search | file-gk7.py:17 | `re.search`: none exactly when no position matches. Otherwise the leftmost matching position, with its first matching alternative and greedy id. |
| VideoHandler.LeftmostHitUnique | file-gk7.py:17-19 | The leftmost match is unique. |
| VideoHandler.ExtractVideoId | file-gk7.py:9-20 | An id is a non-empty run of allowed characters. None comes back exactly when neither pattern matches. The watch/short-link/embed pattern wins over the shorts pattern. |
| VideoHandler.GeneratedOnlyAfterNotFound | file-gk7.py:41-44 | The generated transcript is used only when the manual lookup raised "not found", and then its fetched entries are the result. |
| VideoHandler.GeneratedNotConsulted | file-gk7.py:41-44 | Unless the manual lookup raised "not found", the generated transcript has no effect. |
| VideoHandler.ManualPreferred | file-gk7.py:41-46 | A manual transcript that fetches is always chosen. |
| VideoHandler.GeneratedAfterNotFound | file-gk7.py:41-45 | When the manual lookup raises "not found" and the generated track fetches its entries, those entries are the result. |
| VideoHandler.RaisedOutcome | file-gk7.py:37-45 | Whichever call raises first decides the outcome by its exception alone. The calls are the listing, the manual lookup (any exception but "not found"), the generated lookup after it, and the chosen track's fetch. "Disabled" gives disabled, "not found" gives not-found, and any other exception gives an error with its message. |
| VideoHandler.Texts | file-gk7.py:49 | One text per entry, in order. |
| VideoHandler.MinutesSeconds | file-gk7.py:53-55 | Seconds are in `0..59` and minutes·60 + seconds equals the floor of the duration. |
| VideoHandler.ClockRoundTrip | file-gk7.py:63 | Reading back an `m:ss` rendering gives the minutes and seconds it was made from. Below 100 seconds it has exactly two seconds digits and minutes without a leading zero. |
| VideoHandler.DurationRoundTrip | file-gk7.py:52-57 | For a non-empty transcript ending at a non-negative time, the duration text reads back as minutes and seconds, the seconds below 60, adding up to the floor of the last start plus its duration. The text has the `M:SS` shape. |
| VideoHandler.EmptyDuration | file-gk7.py:56-57 | An empty transcript has duration `0:00`, which has the `M:SS` shape. |
| VideoHandler.WordsOfJoin | file-gk7.py:49-64 | The word count of the space-joined text is the sum of the word counts of the entries. |
| VideoHandler.WordCountOfSummary | file-gk7.py:59-66 | The reported word count is that sum; it equals the segment count when every entry is one word. |
| VideoHandler.TokensCount | file-gk7.py:64-65 | Single-word entries give one word each. |
| VideoHandler.Summary | file-gk7.py:49-66 | The success record carries the video id and one segment per entry. Its transcript is the entries' texts joined by single spaces. Its duration is the `M:SS` text of the last entry's end. Its word count is the sum of the entries' word counts. Its text begins with the first entry's text and ends with the last's. |
| VideoHandler.FromLookup | file-gk7.py:59-85 | Success exactly when a manual or generated transcript was fetched, and then the record is the summary of those entries. Every failure has an empty transcript, and its error text reads back as the cause. |
| VideoHandler.RaisedMessage | file-gk7.py:68-85 | For a valid URL, a service call ending in "disabled" reports `Transcripts are disabled for this video`. One ending in "not found" reports `No English transcript found for this video`. Any other exception reports `Error fetching transcript: ` followed by its message. Each comes with an empty transcript. |
| VideoHandler.GetTranscript | file-gk7.py:23-85 | An invalid URL gives `Invalid YouTube URL` with an empty transcript. For a valid URL, success happens exactly when the service yields a manual or generated transcript for the extracted id. The success record is the summary of those entries. A failure's error reads back as the service's failure cause. |
| VideoHandler.FailuresDistinct | file-gk7.py:68-85 | Each failure cause's message reads back as that cause (disabled, not found, other error with its text). None of them is the invalid-URL message. |
| VideoHandler.InvalidUrlIgnoresService | file-gk7.py:28-35 | An invalid URL never reaches the transcript service. |
| VideoHandler.ThumbnailRoundTrip | file-gk7.py:88-90 | The id can be read back from its thumbnail URL. |
| VideoHandler.ShortLinkExample | file-gk7.py:12 | `https://youtu.be/abc123` yields `abc123`. |
| VideoHandler.NotAUrlExample | file-gk7.py:28-35 | `not a url` yields no id and the invalid-URL failure. |
| VideoHandler.ThreeSecondsClock | file-gk7.py:53-63 | 3 seconds render as `0:03`. |
| VideoHandler.TwoTokens | file-gk7.py:49-64 | Two whitespace-free words joined by a space split back into those two words. |
| VideoHandler.HiThereWords | file-gk7.py:49-64 | Entries `hi` and `there` join to `hi there`, which has 2 words. |
| VideoHandler.TwoEntrySummaryExample | file-gk7.py:46-66 | Two entries ending at 3 s give `hi there`, `0:03`, 2 words and 2 segments. |
| Summarizer.Template | file-6pg.py:19-26 | A known style selects its own template; any other style gets the concise one. |
| Summarizer.TextPrompt | file-6pg.py:26 | The prompt is the template, then a blank line, then the text. |
| Summarizer.PromptText | file-6pg.py:26 | Reading a text back from a prompt for a style is possible only when rebuilding gives that prompt. |
| Summarizer.TextPromptRoundTrip | file-6pg.py:26 | The text can always be read back from its prompt. |
| Summarizer.UnknownStyleIsConcise | file-6pg.py:26 | An unknown style gives exactly the concise prompt, with no error. |
| Summarizer.TemplateLengths | file-6pg.py:20-23 | The four templates have lengths 73, 61, 70 and 53. |
| Summarizer.TemplatesDistinct | file-6pg.py:19-24 | Different styles have different templates. |
| Summarizer.StylesGiveDistinctPrompts | file-6pg.py:19-26 | The same text in two known styles gives two different prompts. |
| Summarizer.CodePromptHead | file-6pg.py:77-80 | The code prompt begins with `Analyze and summarize this <language> code:`. Next come a newline, eight spaces and a newline. Then a fence opens with the language, followed by the code. |
| Summarizer.DefaultCodePrompt | file-6pg.py:75-77 | With the default language the prompt opens with `Analyze and summarize this python code:`. |
| Summarizer.UpToFirstAfter | file-6pg.py:77-78 | Cutting at the first newline recovers the intro line. |
| Summarizer.CodePromptSplits | file-6pg.py:77-80 | A single-line language and the code can be read back from the code prompt. |
| Summarizer.CodePromptInjective | file-6pg.py:77-80 | Different languages or different code give different code prompts. |
| Summarizer.ConfiguredProvider | file-nf8.py:11 | With no `AI_PROVIDER` set, the provider is `openai`. When it is set, its value is the provider as given. |
| Summarizer.ClientFor | file-6pg.py:12-15 | `openai` selects the OpenAI client with its key; every other value selects Anthropic with its key. |
| Summarizer.UnsetProviderIsOpenAI | file-nf8.py:11 | Without the variable, the summarizer talks to OpenAI. |
| Summarizer.SetProviderSelects | file-nf8.py:11 | A set `AI_PROVIDER` of `openai` gives the OpenAI client. Any other set value gives the Anthropic client. |
| Summarizer.BuildImageRequest | file-6pg.py:34-73 | One user message with two parts. OpenAI gets the chat-completions API with `gpt-4o`; every other provider gets the messages API with `claude-sonnet-4-20250514`. Both use 1000 tokens. |
| Summarizer.ImageIndex | file-6pg.py:40-68 | The image part found is a non-text part of the content. |
| Summarizer.ImageRequestCarries | file-6pg.py:32-73 | For either provider, the request carries exactly the prompt and the base64 image. OpenAI's second part is an `image_url` part holding `data:image/jpeg;base64,` + data. Anthropic's first part is an image with a base64 `image/jpeg` source holding the data. |
| Summarizer.DefaultImageRequest | file-6pg.py:30-73 | With the default prompt, either provider is asked to `Describe and summarize this image`. |
| Summarizer.AISummarizer.constructor | file-6pg.py:9-15 | The provider and client are fixed at construction and agree with each other. |
| Summarizer.AISummarizer.AnalyzeImageRequest | file-6pg.py:30-73 | The image request for this summarizer's provider carries the prompt and the encoding of the image. |
| Strings.LowerSpec | file-3rt.py:16 | Lower-casing keeps the length and leaves no `A`-`Z`. Each upper-case letter moves 32 code points up, and every other character is kept. Lowering twice is lowering once. |
| Strings.JoinLength | file-3rt.py:48 | The joined length is the total length of the pieces plus one separator between each pair. |
| Strings.JoinEnds | file-3rt.py:48 | The join begins with the first piece and ends with the last. |
| Strings.Split | file-3rt.py:82 | `split('.')` gives at least one piece, none containing `.`, and the whole string when there is no `.`. |
| Strings.SplitJoin | file-3rt.py:82 | Joining the pieces of `split` with the separator gives back the string. |
| Strings.SplitLast | file-3rt.py:82 | The last piece is the text after the last separator. |
| Strings.StripEmptyIffBlank | file-3rt.py:57 | `strip()` is empty exactly when the string is all whitespace. |
| Strings.Words | file-gk7.py:64 | `split()` gives non-empty tokens without whitespace. |
| Strings.WordsAroundSpace | file-gk7.py:49-64 | Splitting `a + " " + b` gives the words of `a` followed by those of `b`. |
| Strings.WordsEmptyIffBlank | file-gk7.py:64 | `split()` gives nothing exactly when the string is all whitespace. |
| Strings.Pad2 | file-gk7.py:63 | `:02d` gives digits only, at least two of them and exactly two below 100. It starts with `0` exactly when the number is below ten. |
| Strings.NatToDecimal | file-gk7.py:63 | `str` of a natural number gives digits only. It has one digit below ten and at most two below 100. It starts with `0` only for zero. |
| Strings.ParseNatDecimal | file-gk7.py:63 | Reading back a decimal rendering gives the number. |
| Strings.ParsePad2 | file-gk7.py:63 | Reading back a two-digit padding gives the number. |

## Left out

- Network calls are not modelled: the two AI clients' `create` calls, the response fields read from them, and `_call_ai`, which is not part of this model. Only the requests are built.
- The transcript service's internals are not modelled; each call's outcome is an input.
- The PDF and DOCX libraries are not modelled; the pages, paragraphs or raised message they would produce are inputs.
- `FileProcessor.ProcessUpload`: the PDF and DOCX libraries read the upload, and where they leave its cursor is not modelled. So the contract states the cursor only for text, image and unsupported uploads.
- Base64 and UTF-8 are not modelled as algorithms; they are function parameters.
- The environment, `.env` loading and the API key variables are inputs.
- `FileProcessor.FormatSize`: magnitudes are exact real numbers, and the `.2f` text rendering and its rounding are not modelled.
- `VideoHandler.DurationRoundTrip`: times are real numbers rather than binary floating point. A negative end time, where Python's `%` and `int()` interact, is covered only by `VideoHandler.MinutesSeconds`.
- `Strings.LowerSpec`: only ASCII letters are lower-cased. Unicode case mapping is not modelled.
- `Strings.Words`: only ASCII whitespace is recognised. Unicode whitespace is not modelled.
- `Summarizer.CodePromptHead`: covers the prompt only up to and including the code. The rest of `summarize_code` is not part of this model.
- `Summarizer.StylesGiveDistinctPrompts`: compares prompts of the same text only. Recovering the style from a prompt with unknown text is not stated.
- The shorts pattern has no concrete example lemma. `VideoHandler.ExtractVideoId` states its behaviour for every URL.
- The GitHub handler and the user interface are not part of this model. file-8yg.py only re-exports the handler classes.
