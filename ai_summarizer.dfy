/** The request-building half of the AI summarizer: the text prompt chosen by
    summary style, the code prompt, the provider switch made once at
    construction, and the two image request shapes (OpenAI chat completions
    and Anthropic messages). Sending a request and reading the reply are
    network calls and are not modelled; base64 encoding is a parameter. */
module Summarizer {
  import opened Wrappers
  import Config
  import FileProcessor

  // ------------------------------------------------------------ text prompts

  const ConciseTemplate: string :=
    "Provide a brief, concise summary of the following text in 2-3 paragraphs:"
  const DetailedTemplate: string :=
    "Provide a comprehensive summary with key points and insights:"
  const BulletTemplate: string :=
    "Summarize the following text as bullet points highlighting main ideas:"
  const ExecutiveTemplate: string :=
    "Write an executive summary suitable for stakeholders:"

  /** Summary style to template; any other style falls back to "concise". */
  const Templates: map<string, string> := map[
    "concise" := ConciseTemplate,
    "detailed" := DetailedTemplate,
    "bullet" := BulletTemplate,
    "executive" := ExecutiveTemplate
  ]

  const DefaultStyle: string := "concise"

  function Template(style: string): (t: string)
    ensures style in Templates ==> t == Templates[style]
    ensures style !in Templates ==> t == ConciseTemplate
  {
    if style in Templates then Templates[style] else Templates[DefaultStyle]
  }

  /** The prompt sent for `summarize_text`: the template, a blank line, the text. */
  function TextPrompt(text: string, style: string): (p: string)
    ensures |p| == |Template(style)| + 2 + |text|
    ensures p[..|Template(style)|] == Template(style)
    ensures p[|Template(style)|..|Template(style)| + 2] == "\n\n"
    ensures p[|p| - |text|..] == text
  {
    Template(style) + "\n\n" + text
  }

  /** Reads the text back out of a prompt built for `style`: `None` unless
      the prompt opens with that style's template and a blank line. */
  function PromptText(p: string, style: string): (r: Option<string>)
    ensures r.Some? ==> TextPrompt(r.value, style) == p
  {
    var head := Template(style) + "\n\n";
    if |head| <= |p| && p[..|head|] == head then
      assert p == head + p[|head|..];
      Some(p[|head|..])
    else None
  }

  lemma TextPromptRoundTrip(text: string, style: string)
    ensures PromptText(TextPrompt(text, style), style) == Some(text)
  {
    var head := Template(style) + "\n\n";
    assert TextPrompt(text, style) == head + text;
  }

  /** An unknown style is not an error: it yields the concise prompt. */
  lemma UnknownStyleIsConcise(text: string, style: string)
    requires style !in Templates
    ensures TextPrompt(text, style) == TextPrompt(text, DefaultStyle)
  {
  }

  lemma TemplateLengths()
    ensures |ConciseTemplate| == 73 && |DetailedTemplate| == 61
    ensures |BulletTemplate| == 70 && |ExecutiveTemplate| == 53
  {
  }

  /** The four styles give four different templates. */
  lemma TemplatesDistinct(s1: string, s2: string)
    requires s1 in Templates && s2 in Templates && s1 != s2
    ensures Templates[s1] != Templates[s2]
  {
    TemplateLengths();
  }

  /** The same text summarised in two different known styles gives two
      different prompts. */
  lemma StylesGiveDistinctPrompts(text: string, s1: string, s2: string)
    requires s1 in Templates && s2 in Templates && s1 != s2
    ensures TextPrompt(text, s1) != TextPrompt(text, s2)
  {
    TemplateLengths();
  }

  // ------------------------------------------------------------ code prompt

  const CodeIntro: string := "Analyze and summarize this "
  const DefaultLanguage: string := "python"

  /** The beginning of the `summarize_code` prompt, up to and including the
      code: an intro naming the language, a line of eight spaces, then a
      fence opened with the language and followed by the code. */
  function CodePromptHead(code: string, language: string): (p: string)
    ensures |p| == |CodeIntro| + 2 * |language| + 20 + |code|
    ensures p[..|CodeIntro| + |language| + 6] == CodeIntro + language + " code:"
    ensures p[|CodeIntro| + |language| + 6..|CodeIntro| + |language| + 16] == "\n        \n"
    ensures p[|CodeIntro| + |language| + 16..] == "```" + language + "\n" + code
  {
    CodeIntro + language + " code:\n        \n```" + language + "\n" + code
  }

  /** The longest prefix of `s` that does not contain `c`. */
  function UpToFirst(s: string, c: char): (r: string)
    ensures |r| <= |s| && r == s[..|r|]
    ensures c !in r
    ensures |r| < |s| ==> s[|r|] == c
  {
    if s == [] || s[0] == c then [] else [s[0]] + UpToFirst(s[1..], c)
  }

  lemma {:induction false} UpToFirstAfter(a: string, c: char, b: string)
    requires c !in a
    ensures UpToFirst(a + [c] + b, c) == a
  {
    if a != [] {
      assert (a + [c] + b)[1..] == a[1..] + [c] + b;
      UpToFirstAfter(a[1..], c, b);
    }
  }

  /** Reads the language and the code back out of a code prompt head. */
  function SplitCodePrompt(p: string): (r: Option<(string, string)>)
  {
    var n := |CodeIntro|;
    if n <= |p| && p[..n] == CodeIntro then
      var line := UpToFirst(p[n..], '\n');
      if |line| >= 6 then
        var language := line[..|line| - 6];
        var k := n + |language| + 16;
        if k + |language| + 4 <= |p| then Some((language, p[k + |language| + 4..]))
        else None
      else None
    else None
  }

  lemma CodePromptSplits(code: string, language: string)
    requires '\n' !in language
    ensures SplitCodePrompt(CodePromptHead(code, language)) == Some((language, code))
  {
    var p := CodePromptHead(code, language);
    var n := |CodeIntro|;
    var rest := "        \n```" + language + "\n" + code;
    assert p[..n] == CodeIntro;
    assert p[n..] == (language + " code:") + ['\n'] + rest;
    assert '\n' !in language + " code:";
    UpToFirstAfter(language + " code:", '\n', rest);
    var line := UpToFirst(p[n..], '\n');
    assert line[..|line| - 6] == language;
  }

  /** Two code prompts with single-line language names agree only when
      both the language and the code agree. */
  lemma CodePromptInjective(code1: string, language1: string, code2: string, language2: string)
    requires '\n' !in language1 && '\n' !in language2
    requires CodePromptHead(code1, language1) == CodePromptHead(code2, language2)
    ensures code1 == code2 && language1 == language2
  {
    CodePromptSplits(code1, language1);
    CodePromptSplits(code2, language2);
  }

  // ------------------------------------------------------------ providers

  /** The `AI_PROVIDER` setting: its environment value, or the default. */
  function ConfiguredProvider(env: map<string, string>): (provider: string)
    ensures "AI_PROVIDER" !in env ==> provider == Config.DefaultProvider
    ensures "AI_PROVIDER" in env ==> provider == env["AI_PROVIDER"]
  {
    if "AI_PROVIDER" in env then env["AI_PROVIDER"] else Config.DefaultProvider
  }

  datatype Client = OpenAIClient(apiKey: string) | AnthropicClient(apiKey: string)

  /** "openai" selects OpenAI; every other provider value selects Anthropic. */
  function ClientFor(provider: string, openaiKey: string, anthropicKey: string): (c: Client)
    ensures c.OpenAIClient? <==> provider == "openai"
    ensures c.apiKey == (if provider == "openai" then openaiKey else anthropicKey)
  {
    if provider == "openai" then OpenAIClient(openaiKey) else AnthropicClient(anthropicKey)
  }

  lemma UnsetProviderIsOpenAI(env: map<string, string>, openaiKey: string, anthropicKey: string)
    requires "AI_PROVIDER" !in env
    ensures ClientFor(ConfiguredProvider(env), openaiKey, anthropicKey) == OpenAIClient(openaiKey)
  {
  }

  /** A provider set in the environment reaches the client choice as is:
      any value other than "openai" gives the Anthropic client. */
  lemma SetProviderSelects(env: map<string, string>, openaiKey: string, anthropicKey: string)
    requires "AI_PROVIDER" in env
    ensures env["AI_PROVIDER"] == "openai" ==>
      ClientFor(ConfiguredProvider(env), openaiKey, anthropicKey) == OpenAIClient(openaiKey)
    ensures env["AI_PROVIDER"] != "openai" ==>
      ClientFor(ConfiguredProvider(env), openaiKey, anthropicKey) == AnthropicClient(anthropicKey)
  {
  }

  // ------------------------------------------------------------ image requests

  const DefaultImagePrompt: string := "Describe and summarize this image"
  const DataUrlPrefix: string := "data:image/jpeg;base64,"
  const MaxTokens: nat := 1000
  const OpenAIModel: string := "gpt-4o"
  const AnthropicModel: string := "claude-sonnet-4-20250514"

  datatype Part =
    | TextPart(text: string)
    | ImageUrlPart(url: string)
    | ImagePart(sourceType: string, mediaType: string, data: string)

  datatype Message = Message(role: string, content: seq<Part>)

  datatype Api = ChatCompletions | Messages

  datatype ImageRequest = ImageRequest(api: Api, model: string, maxTokens: nat, messages: seq<Message>)

  /** The request `analyze_image` sends, given the base64 text of the image. */
  function BuildImageRequest(provider: string, encoded: string, prompt: string): (r: ImageRequest)
    ensures r.api == ChatCompletions <==> provider == "openai"
    ensures r.maxTokens == MaxTokens && |r.messages| == 1
    ensures r.messages[0].role == "user" && |r.messages[0].content| == 2
    ensures r.model == (if provider == "openai" then OpenAIModel else AnthropicModel)
  {
    if provider == "openai" then
      ImageRequest(ChatCompletions, OpenAIModel, MaxTokens,
        [Message("user", [TextPart(prompt), ImageUrlPart(DataUrlPrefix + encoded)])])
    else
      ImageRequest(Messages, AnthropicModel, MaxTokens,
        [Message("user", [ImagePart("base64", "image/jpeg", encoded), TextPart(prompt)])])
  }

  /** The first text part of a content list. */
  function PromptOf(parts: seq<Part>): Option<string>
  {
    if parts == [] then None
    else if parts[0].TextPart? then Some(parts[0].text)
    else PromptOf(parts[1..])
  }

  /** The base64 data of the first image part: inline base64 JPEG data, or a
      JPEG data URL. */
  function ImageDataOf(parts: seq<Part>): Option<string>
  {
    if parts == [] then None
    else match parts[0]
      case ImagePart(t, m, d) =>
        if t == "base64" && m == "image/jpeg" then Some(d) else ImageDataOf(parts[1..])
      case ImageUrlPart(u) =>
        var n := |DataUrlPrefix|;
        if n <= |u| && u[..n] == DataUrlPrefix then Some(u[n..]) else ImageDataOf(parts[1..])
      case TextPart(_) => ImageDataOf(parts[1..])
  }

  /** Index of the first image part, if any. */
  function ImageIndex(parts: seq<Part>): (i: Option<nat>)
    ensures i.Some? ==> i.value < |parts| && !parts[i.value].TextPart?
  {
    if parts == [] then None
    else if !parts[0].TextPart? then Some(0)
    else match ImageIndex(parts[1..])
      case None => None
      case Some(j) => Some(j + 1)
  }

  /** Whatever the provider, the request carries exactly the prompt and the
      encoded image; only their order differs. */
  lemma ImageRequestCarries(provider: string, encoded: string, prompt: string)
    ensures PromptOf(BuildImageRequest(provider, encoded, prompt).messages[0].content) == Some(prompt)
    ensures ImageDataOf(BuildImageRequest(provider, encoded, prompt).messages[0].content) == Some(encoded)
    ensures ImageIndex(BuildImageRequest(provider, encoded, prompt).messages[0].content) ==
      Some(if provider == "openai" then 1 else 0)
    ensures provider == "openai" ==>
      BuildImageRequest(provider, encoded, prompt).messages[0].content[1] == ImageUrlPart(DataUrlPrefix + encoded)
    ensures provider != "openai" ==>
      BuildImageRequest(provider, encoded, prompt).messages[0].content[0] == ImagePart("base64", "image/jpeg", encoded)
  {
    var parts := BuildImageRequest(provider, encoded, prompt).messages[0].content;
    if provider == "openai" {
      var u := DataUrlPrefix + encoded;
      assert u[..|DataUrlPrefix|] == DataUrlPrefix && u[|DataUrlPrefix|..] == encoded;
      assert parts[1..] == [ImageUrlPart(u)];
    } else {
      assert parts[1..] == [TextPart(prompt)];
    }
  }

  /** The summarizer object: the provider and its client are fixed when it
      is built. */
  class AISummarizer {
    const provider: string
    const client: Client

    /** The client agrees with the provider. */
    ghost predicate Valid() {
      client.OpenAIClient? <==> provider == "openai"
    }

    constructor (env: map<string, string>, openaiKey: string, anthropicKey: string)
      ensures provider == ConfiguredProvider(env)
      ensures client == ClientFor(provider, openaiKey, anthropicKey)
      ensures Valid()
    {
      provider := ConfiguredProvider(env);
      client := ClientFor(ConfiguredProvider(env), openaiKey, anthropicKey);
    }

    /** The request of `analyze_image` for this summarizer's provider. */
    method AnalyzeImageRequest(image: seq<FileProcessor.byte>, prompt: string, b64: seq<FileProcessor.byte> -> string)
      returns (r: ImageRequest)
      requires Valid()
      ensures |r.messages| == 1
      ensures r.api == ChatCompletions <==> client.OpenAIClient?
      ensures PromptOf(r.messages[0].content) == Some(prompt)
      ensures ImageDataOf(r.messages[0].content) == Some(b64(image))
      ensures r == BuildImageRequest(provider, b64(image), prompt)
    {
      r := BuildImageRequest(provider, b64(image), prompt);
      ImageRequestCarries(provider, b64(image), prompt);
    }
  }

  // ------------------------------------------------------------ defaults

  /** With the default language the code prompt opens by naming Python code. */
  lemma DefaultCodePrompt(code: string)
    ensures CodePromptHead(code, DefaultLanguage)[..39] == "Analyze and summarize this python code:"
  {
  }

  /** With the default prompt, either provider is asked to describe and
      summarize the image. */
  lemma DefaultImageRequest(provider: string, encoded: string)
    ensures PromptOf(BuildImageRequest(provider, encoded, DefaultImagePrompt).messages[0].content) ==
      Some("Describe and summarize this image")
  {
    ImageRequestCarries(provider, encoded, DefaultImagePrompt);
  }
}
