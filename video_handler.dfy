/** The video transcript fetcher: finds a YouTube video id in a URL, turns
    what the transcript service reports for that id into a result record, and
    formats the thumbnail address. The transcript service is a function from
    video id to a description of how each of its calls ends. */
module VideoHandler {
  import opened Wrappers
  import opened Strings

  // ------------------------------------------------------------ video ids

  /** The characters of the capture group `[^&\n?#]`. */
  predicate IdChar(c: char) {
    c != '&' && c != '\n' && c != '?' && c != '#'
  }

  predicate IsVideoId(id: string) {
    id != [] && forall i :: 0 <= i < |id| ==> IdChar(id[i])
  }

  /** The greedy run of id characters starting at `j`. */
  function IdRun(s: string, j: nat): (id: string)
    requires j <= |s|
    ensures j + |id| <= |s| && id == s[j..j + |id|]
    ensures forall i :: 0 <= i < |id| ==> IdChar(id[i])
    ensures j + |id| < |s| ==> !IdChar(s[j + |id|])
    decreases |s| - j
  {
    if j < |s| && IdChar(s[j]) then [s[j]] + IdRun(s, j + 1) else []
  }

  /** The literal `p` followed by `([^&\n?#]+)` matches at position `i`. */
  predicate MatchesAt(s: string, i: nat, p: string) {
    i + |p| < |s| && s[i..i + |p|] == p && IdChar(s[i + |p|])
  }

  /** The alternatives of the first pattern, in pattern order. */
  const WatchPrefixes: seq<string> := ["youtube.com/watch?v=", "youtu.be/", "youtube.com/embed/"]
  /** The second pattern, tried only when the first finds nothing. */
  const ShortsPrefixes: seq<string> := ["youtube.com/shorts/"]

  /** A match: where it starts, which alternative matched, the captured id. */
  datatype Hit = Hit(start: nat, alt: nat, id: string)

  /** The first alternative from `k` on that matches at `i`. */
  function FirstAlt(s: string, i: nat, alts: seq<string>, k: nat): (r: Option<nat>)
    requires k <= |alts|
    ensures r.None? ==> forall k' :: k <= k' < |alts| ==> !MatchesAt(s, i, alts[k'])
    ensures r.Some? ==> k <= r.value < |alts| && MatchesAt(s, i, alts[r.value])
    ensures r.Some? ==> forall k' :: k <= k' < r.value ==> !MatchesAt(s, i, alts[k'])
    decreases |alts| - k
  {
    if k == |alts| then None
    else if MatchesAt(s, i, alts[k]) then Some(k)
    else FirstAlt(s, i, alts, k + 1)
  }

  predicate NoMatchFrom(s: string, alts: seq<string>, i: nat) {
    forall q, k :: i <= q < |s| && 0 <= k < |alts| ==> !MatchesAt(s, q, alts[k])
  }

  /** `h` is what `re.search` reports for the alternation of `alts` when the
      scan starts at `i`: the leftmost position where some alternative
      matches, the first alternative that matches there, and the greedy run
      after it. */
  predicate LeftmostHit(s: string, alts: seq<string>, i: nat, h: Hit) {
    i <= h.start < |s| && h.alt < |alts| && MatchesAt(s, h.start, alts[h.alt]) &&
    h.id == IdRun(s, h.start + |alts[h.alt]|) &&
    (forall k :: 0 <= k < h.alt ==> !MatchesAt(s, h.start, alts[k])) &&
    (forall q, k :: i <= q < h.start && 0 <= k < |alts| ==> !MatchesAt(s, q, alts[k]))
  }

  /** `re.search`: try each position from the left, each alternative in order. */
  function Search(s: string, alts: seq<string>, i: nat): (r: Option<Hit>)
    ensures r.None? <==> NoMatchFrom(s, alts, i)
    ensures r.Some? ==> LeftmostHit(s, alts, i, r.value)
    decreases |s| - i
  {
    if i >= |s| then None
    else match FirstAlt(s, i, alts, 0)
      case Some(k) => Some(Hit(i, k, IdRun(s, i + |alts[k]|)))
      case None =>
        SkipUnmatched(s, alts, i);
        Search(s, alts, i + 1)
  }

  /** A position where no alternative matches can be skipped. */
  lemma SkipUnmatched(s: string, alts: seq<string>, i: nat)
    requires i < |s|
    requires forall k :: 0 <= k < |alts| ==> !MatchesAt(s, i, alts[k])
    ensures NoMatchFrom(s, alts, i) <==> NoMatchFrom(s, alts, i + 1)
    ensures forall h :: LeftmostHit(s, alts, i + 1, h) ==> LeftmostHit(s, alts, i, h)
  {
  }

  /** There is only one leftmost hit. */
  lemma LeftmostHitUnique(s: string, alts: seq<string>, i: nat, h1: Hit, h2: Hit)
    requires LeftmostHit(s, alts, i, h1) && LeftmostHit(s, alts, i, h2)
    ensures h1 == h2
  {
  }

  /** `extract_video_id`: the first pattern's capture if it matches anywhere,
      else the shorts pattern's, else nothing. */
  function ExtractVideoId(url: string): (r: Option<string>)
    ensures r.Some? ==> IsVideoId(r.value)
    ensures r.None? <==> NoMatchFrom(url, WatchPrefixes, 0) && NoMatchFrom(url, ShortsPrefixes, 0)
    ensures !NoMatchFrom(url, WatchPrefixes, 0) ==>
      exists h :: LeftmostHit(url, WatchPrefixes, 0, h) && r == Some(h.id)
    ensures NoMatchFrom(url, WatchPrefixes, 0) && !NoMatchFrom(url, ShortsPrefixes, 0) ==>
      exists h :: LeftmostHit(url, ShortsPrefixes, 0, h) && r == Some(h.id)
  {
    match Search(url, WatchPrefixes, 0)
    case Some(h) => Some(h.id)
    case None =>
      match Search(url, ShortsPrefixes, 0)
      case Some(h) => Some(h.id)
      case None => None
  }

  // ----------------------------------------------------------- transcripts

  /** One caption entry; `duration` may be absent. */
  datatype Entry = Entry(text: string, start: real, duration: Option<real>)

  /** The exceptions the handler tells apart. */
  datatype Exc = TranscriptsDisabled | NoTranscriptFound | OtherException(msg: string)

  datatype Step<T> = Done(value: T) | Raised(exc: Exc)

  /** A transcript track: what its `fetch()` does. */
  datatype Track = Track(fetch: Step<seq<Entry>>)

  /** What the service does for one video id: listing the transcripts raises,
      or it yields a list whose manual and generated English lookups each
      give a track or raise. */
  datatype Service = ListRaised(exc: Exc) | Listed(manual: Step<Track>, generated: Step<Track>)

  /** How the lookup ends once the handler's inner and outer `try` have run. */
  datatype Lookup =
    | Disabled
    | NotFound
    | OtherError(msg: string)
    | Manual(entries: seq<Entry>)
    | Generated(entries: seq<Entry>)

  function OfExc(e: Exc): Lookup {
    match e
    case TranscriptsDisabled => Disabled
    case NoTranscriptFound => NotFound
    case OtherException(m) => OtherError(m)
  }

  function FetchTrack(t: Track, manual: bool): Lookup {
    match t.fetch
    case Done(es) => if manual then Manual(es) else Generated(es)
    case Raised(e) => OfExc(e)
  }

  /** The manual track is used when present; only a not-found from the manual
      lookup sends the handler to the generated one. */
  function Resolve(svc: Service): Lookup {
    match svc
    case ListRaised(e) => OfExc(e)
    case Listed(manual, generated) =>
      match manual
      case Done(t) => FetchTrack(t, true)
      case Raised(NoTranscriptFound) =>
        (match generated
         case Done(t) => FetchTrack(t, false)
         case Raised(e) => OfExc(e))
      case Raised(e) => OfExc(e)
  }

  /** A generated transcript is only ever used after the manual lookup
      reported not-found. */
  lemma GeneratedOnlyAfterNotFound(svc: Service)
    requires Resolve(svc).Generated?
    ensures svc.Listed? && svc.manual == Raised(NoTranscriptFound)
    ensures svc.generated.Done? && svc.generated.value.fetch == Done(Resolve(svc).entries)
  {
  }

  /** The fallback: after the manual lookup reports not-found, a generated
      track that fetches its entries is what is used. */
  lemma GeneratedAfterNotFound(es: seq<Entry>)
    ensures Resolve(Listed(Raised(NoTranscriptFound), Done(Track(Done(es))))) == Generated(es)
  {
  }

  /** The call that ends the lookup by raising `e`: listing the transcripts,
      the manual lookup (any exception but not-found), the generated lookup
      after a manual not-found, or the fetch of the track that was chosen. */
  predicate EndsRaising(svc: Service, e: Exc) {
    svc == ListRaised(e) ||
    (svc.Listed? && svc.manual == Raised(e) && e != NoTranscriptFound) ||
    (svc.Listed? && svc.manual.Done? && svc.manual.value.fetch == Raised(e)) ||
    (svc.Listed? && svc.manual == Raised(NoTranscriptFound) && svc.generated == Raised(e)) ||
    (svc.Listed? && svc.manual == Raised(NoTranscriptFound) && svc.generated.Done? &&
     svc.generated.value.fetch == Raised(e))
  }

  /** Whichever call raises, the exception alone decides the outcome:
      disabled, not-found, or another error carrying its message. */
  lemma RaisedOutcome(svc: Service, e: Exc)
    requires EndsRaising(svc, e)
    ensures e == TranscriptsDisabled ==> Resolve(svc) == Disabled
    ensures e == NoTranscriptFound ==> Resolve(svc) == NotFound
    ensures e.OtherException? ==> Resolve(svc) == OtherError(e.msg)
  {
  }

  /** Unless the manual lookup reports not-found, the generated lookup has no
      influence on the outcome. */
  lemma GeneratedNotConsulted(manual: Step<Track>, g1: Step<Track>, g2: Step<Track>)
    requires manual != Raised(NoTranscriptFound)
    ensures Resolve(Listed(manual, g1)) == Resolve(Listed(manual, g2))
  {
  }

  /** A manual track that fetches its entries is what is used. */
  lemma ManualPreferred(es: seq<Entry>, generated: Step<Track>)
    ensures Resolve(Listed(Done(Track(Done(es))), generated)) == Manual(es)
  {
  }

  datatype TranscriptResult =
    | Succeeded(transcript: string, videoId: string, duration: string, wordCount: nat, segments: nat)
    | Failed(error: string, transcript: string)

  const InvalidUrlError: string := "Invalid YouTube URL"
  const DisabledError: string := "Transcripts are disabled for this video"
  const NotFoundError: string := "No English transcript found for this video"
  const FetchErrorPrefix: string := "Error fetching transcript: "

  function Texts(es: seq<Entry>): (texts: seq<string>)
    ensures |texts| == |es|
    ensures forall k :: 0 <= k < |es| ==> texts[k] == es[k].text
    decreases |es|
  {
    if es == [] then [] else Texts(es[..|es| - 1]) + [es[|es| - 1].text]
  }

  /** `last['start'] + last.get('duration', 0)`. */
  function EndTime(last: Entry): real {
    last.start + match last.duration
      case Some(d) => d
      case None => 0.0
  }

  /** `int(d // 60)` and `int(d % 60)` with Python's flooring division. */
  function Minutes(d: real): int {
    (d / 60.0).Floor
  }

  function Seconds(d: real): int {
    (d - 60.0 * Minutes(d) as real).Floor
  }

  /** The two fields split the whole seconds of `d` with a remainder in
      0..59, as flooring division does. */
  lemma MinutesSeconds(d: real)
    ensures 0 <= Seconds(d) < 60
    ensures Minutes(d) * 60 + Seconds(d) == d.Floor
  {
    var m := Minutes(d);
    assert m as real <= d / 60.0 < m as real + 1.0;
    var rest := d - 60.0 * m as real;
    assert 0.0 <= rest < 60.0;
    assert d == (60 * m) as real + rest;
    var s := rest.Floor;
    assert s as real <= rest < s as real + 1.0;
    assert (60 * m + s) as real <= d < (60 * m + s) as real + 1.0;
  }

  /** `f"{minutes}:{seconds:02d}"`. */
  function Clock(minutes: int, seconds: int): string
    requires 0 <= seconds
  {
    IntToDecimal(minutes) + ":" + Pad2(seconds)
  }

  /** The duration field: the end of the last entry, or 0:00 with no entries. */
  function Duration(es: seq<Entry>): string {
    if es == [] then Clock(0, 0)
    else
      var d := EndTime(es[|es| - 1]);
      MinutesSeconds(d);
      Clock(Minutes(d), Seconds(d))
  }

  /** Reads an `M:SS`-style text back as its minutes and seconds fields. */
  function ParseClock(t: string): Option<(nat, nat)> {
    if ':' !in t then None
    else
      var i := LastIndex(t, ':');
      if AllDigits(t[..i]) && AllDigits(t[i + 1..]) then Some((ParseNat(t[..i]), ParseNat(t[i + 1..])))
      else None
  }

  /** The `M:SS` shape: a minutes field without a leading zero (unless it is
      `0`) and exactly two seconds digits. */
  predicate ClockShaped(t: string) {
    ':' in t && ParseClock(t).Some? &&
    var i := LastIndex(t, ':');
    i + 3 == |t| && (i == 1 || t[0] != '0')
  }

  lemma ClockRoundTrip(m: nat, s: nat)
    ensures ParseClock(Clock(m, s)) == Some((m, s))
    ensures s < 100 ==> ClockShaped(Clock(m, s))
  {
    var a, b := NatToDecimal(m), Pad2(s);
    var t := a + ":" + b;
    assert Clock(m, s) == t;
    DigitsHaveNo(a, ':');
    DigitsHaveNo(b, ':');
    LastIndexBetween(a, ':', b);
    assert t[..|a|] == a && t[|a| + 1..] == b;
    ParseNatDecimal(m);
    ParsePad2(s);
  }

  /** The duration text of a non-negative end time reads back as minutes and
      seconds below 60 that add up to its whole seconds. */
  lemma DurationRoundTrip(es: seq<Entry>)
    requires es != [] && EndTime(es[|es| - 1]) >= 0.0
    ensures ParseClock(Duration(es)).Some?
    ensures var (m, s) := ParseClock(Duration(es)).value;
      s < 60 && m * 60 + s == EndTime(es[|es| - 1]).Floor
    ensures ClockShaped(Duration(es))
  {
    var d := EndTime(es[|es| - 1]);
    MinutesSeconds(d);
    NonNegativeMinutes(d);
    var m: nat, s: nat := Minutes(d), Seconds(d);
    assert Duration(es) == Clock(m, s);
    ClockRoundTrip(m, s);
  }

  lemma NonNegativeMinutes(d: real)
    requires d >= 0.0
    ensures Minutes(d) >= 0
  {
    assert d / 60.0 >= 0.0;
  }

  lemma EmptyDuration()
    ensures Duration([]) == "0:00" && ClockShaped(Duration([]))
  {
  }

  /** The success record for a transcript of entries `es`. */
  function Summary(id: string, es: seq<Entry>): (r: TranscriptResult)
    ensures r.Succeeded? && r.videoId == id && r.segments == |es|
    ensures r.transcript == Join(Texts(es), " ") && r.duration == Duration(es)
    ensures r.wordCount == TotalWords(Texts(es))
    ensures es != [] ==> es[0].text <= r.transcript && EndsWith(r.transcript, es[|es| - 1].text)
  {
    var text := Join(Texts(es), " ");
    WordsOfJoin(Texts(es));
    if es == [] then Succeeded(text, id, Duration(es), |Words(text)|, |es|)
    else
      JoinEnds(Texts(es), " ");
      Succeeded(text, id, Duration(es), |Words(text)|, |es|)
  }

  function TotalWords(texts: seq<string>): nat
    decreases |texts|
  {
    if texts == [] then 0 else TotalWords(texts[..|texts| - 1]) + |Words(texts[|texts| - 1])|
  }

  /** Joining with a single space neither merges nor splits tokens: the
      tokens of the joined text are those of the entries, in order. */
  lemma {:induction false} WordsOfJoin(texts: seq<string>)
    ensures |Words(Join(texts, " "))| == TotalWords(texts)
    decreases |texts|
  {
    if |texts| > 1 {
      var init := texts[..|texts| - 1];
      WordsOfJoin(init);
      WordsAroundSpace(Join(init, " "), texts[|texts| - 1]);
    } else if |texts| == 1 {
      assert TotalWords(texts) == |Words(texts[0])| by {
        assert texts[..0] == [];
      }
    }
  }

  /** The word count adds up the tokens of each entry; when every entry is a
      single token it equals the number of segments. */
  lemma WordCountOfSummary(id: string, es: seq<Entry>)
    ensures Summary(id, es).wordCount == TotalWords(Texts(es))
    ensures (forall k :: 0 <= k < |es| ==> Words(es[k].text) == [es[k].text]) ==>
      Summary(id, es).wordCount == Summary(id, es).segments
  {
    var texts := Texts(es);
    assert Summary(id, es).wordCount == |Words(Join(texts, " "))|;
    assert Summary(id, es).segments == |texts|;
    WordsOfJoin(texts);
    if forall k :: 0 <= k < |es| ==> Words(es[k].text) == [es[k].text] {
      assert forall k :: 0 <= k < |texts| ==> Words(texts[k]) == [texts[k]];
      TokensCount(texts);
    }
  }

  lemma {:induction false} TokensCount(texts: seq<string>)
    requires forall k :: 0 <= k < |texts| ==> Words(texts[k]) == [texts[k]]
    ensures TotalWords(texts) == |texts|
    decreases |texts|
  {
    if texts != [] {
      TokensCount(texts[..|texts| - 1]);
    }
  }

  /** The error text of a lookup that produced no transcript. */
  function ErrorText(l: Lookup): string
    requires !(l.Manual? || l.Generated?)
  {
    match l
    case Disabled => DisabledError
    case NotFound => NotFoundError
    case OtherError(m) => FetchErrorPrefix + m
  }

  /** The record `get_transcript` builds from the lookup outcome. */
  function FromLookup(id: string, l: Lookup): (r: TranscriptResult)
    ensures r.Failed? ==> r.transcript == ""
    ensures r.Succeeded? <==> l.Manual? || l.Generated?
    ensures l.Manual? || l.Generated? ==> r == Summary(id, l.entries)
    ensures r.Failed? ==> ClassifyError(r.error) == Some(l)
  {
    if l.Manual? || l.Generated? then Summary(id, l.entries)
    else
      FailuresDistinct(l);
      Failed(ErrorText(l), "")
  }

  /** `get_transcript`. */
  function GetTranscript(url: string, service: string -> Service): (r: TranscriptResult)
    ensures r.Failed? ==> r.transcript == ""
    ensures ExtractVideoId(url).None? ==> r == Failed(InvalidUrlError, "")
    ensures r.Succeeded? ==> Some(r.videoId) == ExtractVideoId(url) && IsVideoId(r.videoId)
    ensures ExtractVideoId(url).Some? ==>
      var l := Resolve(service(ExtractVideoId(url).value));
      (r.Succeeded? <==> l.Manual? || l.Generated?) &&
      (r.Succeeded? ==> r == Summary(ExtractVideoId(url).value, l.entries)) &&
      (r.Failed? ==> ClassifyError(r.error) == Some(l))
  {
    match ExtractVideoId(url)
    case None => Failed(InvalidUrlError, "")
    case Some(id) => FromLookup(id, Resolve(service(id)))
  }

  /** Tells the failure messages apart: the inverse of the failure branches. */
  function ClassifyError(error: string): Option<Lookup> {
    if error == DisabledError then Some(Disabled)
    else if error == NotFoundError then Some(NotFound)
    else if FetchErrorPrefix <= error then Some(OtherError(error[|FetchErrorPrefix|..]))
    else None
  }

  /** Every failure cause yields its own message, and the invalid-URL message
      is none of them: the cause can be read back from the error text. */
  lemma FailuresDistinct(l: Lookup)
    requires !(l.Manual? || l.Generated?)
    ensures ClassifyError(ErrorText(l)) == Some(l)
    ensures ClassifyError(InvalidUrlError) == None
  {
    match l
    case Disabled =>
    case NotFound =>
      assert NotFoundError[0] != DisabledError[0];
    case OtherError(m) =>
      var e := FetchErrorPrefix + m;
      assert e[0] != DisabledError[0] && e[0] != NotFoundError[0];
    assert InvalidUrlError[0] != FetchErrorPrefix[0];
  }

  /** The message `get_transcript` reports when the service call for a
      valid URL's id ends by raising `e`. */
  lemma RaisedMessage(url: string, service: string -> Service, e: Exc)
    requires ExtractVideoId(url).Some? && EndsRaising(service(ExtractVideoId(url).value), e)
    ensures e == TranscriptsDisabled ==> GetTranscript(url, service) == Failed(DisabledError, "")
    ensures e == NoTranscriptFound ==> GetTranscript(url, service) == Failed(NotFoundError, "")
    ensures e.OtherException? ==>
      GetTranscript(url, service) == Failed("Error fetching transcript: " + e.msg, "")
  {
    RaisedOutcome(service(ExtractVideoId(url).value), e);
  }

  /** An unusable URL never reaches the service. */
  lemma InvalidUrlIgnoresService(url: string, s1: string -> Service, s2: string -> Service)
    requires ExtractVideoId(url).None?
    ensures GetTranscript(url, s1) == GetTranscript(url, s2)
  {
  }

  // ------------------------------------------------------------- thumbnail

  const ThumbnailPrefix: string := "https://img.youtube.com/vi/"
  const ThumbnailSuffix: string := "/maxresdefault.jpg"

  /** `get_video_thumbnail`: no check that the id is real. */
  function Thumbnail(id: string): string {
    ThumbnailPrefix + id + ThumbnailSuffix
  }

  /** Reads the video id back out of a thumbnail address. */
  function ThumbnailId(url: string): Option<string> {
    if |url| >= |ThumbnailPrefix| + |ThumbnailSuffix| && ThumbnailPrefix <= url &&
       EndsWith(url, ThumbnailSuffix)
    then Some(url[|ThumbnailPrefix|..|url| - |ThumbnailSuffix|])
    else None
  }

  lemma ThumbnailRoundTrip(id: string)
    ensures ThumbnailId(Thumbnail(id)) == Some(id)
  {
    var u := Thumbnail(id);
    assert u[..|ThumbnailPrefix|] == ThumbnailPrefix;
    assert u[|u| - |ThumbnailSuffix|..] == ThumbnailSuffix;
    assert u[|ThumbnailPrefix|..|u| - |ThumbnailSuffix|] == id;
  }

  // -------------------------------------------------------------- examples

  const ShortLink: string := "https://youtu.be/abc123"

  lemma ShortLinkExample()
    ensures ExtractVideoId(ShortLink) == Some("abc123")
  {
    ShortLinkNoEarlierMatch();
    ShortLinkMatch();
    var h := Hit(8, 1, "abc123");
    assert LeftmostHit(ShortLink, WatchPrefixes, 0, h);
    var h' :| LeftmostHit(ShortLink, WatchPrefixes, 0, h') && ExtractVideoId(ShortLink) == Some(h'.id);
    LeftmostHitUnique(ShortLink, WatchPrefixes, 0, h, h');
  }

  lemma ShortLinkNoEarlierMatch()
    ensures forall q, k :: 0 <= q < 8 && 0 <= k < |WatchPrefixes| ==> !MatchesAt(ShortLink, q, WatchPrefixes[k])
  {
    var url, w := ShortLink, WatchPrefixes;
    forall q, k | 0 <= q < 8 && 0 <= k < |w|
      ensures !MatchesAt(url, q, w[k])
    {
      assert url[..8] == "https://";
      assert url[q] == url[..8][q] != 'y';
      assert w[k][0] == 'y';
    }
  }

  lemma ShortLinkMatch()
    ensures MatchesAt(ShortLink, 8, WatchPrefixes[1])
    ensures !MatchesAt(ShortLink, 8, WatchPrefixes[0])
    ensures IdRun(ShortLink, 17) == "abc123"
  {
    var url := ShortLink;
    assert url[8..17] == "youtu.be/";
    assert url[17..] == "abc123";
    IdRunToEnd(url, 17);
  }

  /** A run of id characters up to the end of the text is captured whole. */
  lemma {:induction false} IdRunToEnd(s: string, j: nat)
    requires j <= |s|
    requires forall i :: j <= i < |s| ==> IdChar(s[i])
    ensures IdRun(s, j) == s[j..]
    decreases |s| - j
  {
    if j < |s| {
      IdRunToEnd(s, j + 1);
      assert s[j..] == [s[j]] + s[j + 1..];
    }
  }

  lemma NotAUrlExample()
    ensures ExtractVideoId("not a url") == None
    ensures GetTranscript("not a url", _ => ListRaised(TranscriptsDisabled)) ==
      Failed("Invalid YouTube URL", "")
  {
  }

  lemma ThreeSecondsClock()
    ensures Minutes(3.0) == 0 && Seconds(3.0) == 3
    ensures Clock(0, 3) == "0:03"
  {
  }

  lemma HiThereWords()
    ensures Join(["hi", "there"], " ") == "hi there"
    ensures |Words("hi there")| == 2
  {
    assert Join(["hi", "there"], " ") == "hi there" by {
      assert ["hi", "there"][..1] == ["hi"];
    }
    assert "hi there" == "hi" + " " + "there";
    TwoTokens("hi", "there");
  }

  lemma TwoTokens(a: string, b: string)
    requires a != [] && forall i :: 0 <= i < |a| ==> !IsSpace(a[i])
    requires b != [] && forall i :: 0 <= i < |b| ==> !IsSpace(b[i])
    ensures Words(a + " " + b) == [a, b]
  {
    WordsAroundSpace(a, b);
    WordsOfToken(a);
    WordsOfToken(b);
  }

  /** Two entries "hi" (0 s, 1 s long) and "there" (1 s, 2 s long). */
  lemma TwoEntrySummaryExample(id: string)
    ensures Summary(id, [Entry("hi", 0.0, Some(1.0)), Entry("there", 1.0, Some(2.0))]) ==
      Succeeded("hi there", id, "0:03", 2, 2)
  {
    var es := [Entry("hi", 0.0, Some(1.0)), Entry("there", 1.0, Some(2.0))];
    assert Texts(es) == ["hi", "there"] by {
      assert es[..1] == [es[0]];
    }
    HiThereWords();
    assert EndTime(es[1]) == 3.0;
    ThreeSecondsClock();
    assert Duration(es) == "0:03";
  }
}
