/**
 * The content generator of `GeminiService`: builds a prompt from a movie's
 * title and description, asks the remote generation service once, and
 * falls back to a title-only prompt when the description is empty or the
 * service blocks the full prompt as prohibited content.
 *
 * The remote service is an oracle `Remote`: `remote(k, p)` is the reply to
 * the `k`-th call (counting from 0) of one invocation when it sends prompt
 * `p`. A decoded reply is reduced to the two fields the generator reads.
 * Logging is an output sequence of entries, each a level and the event it
 * reports.
 */
module GeminiService {
  import opened Wrappers
  import opened PhpStrings

  type Prompt = Str

  /** The two fields of a decoded reply that the generator reads:
    * `promptFeedback.blockReason` and `candidates[0].content.parts[0].text`. */
  datatype Response = Response(blockReason: Option<Str>, text: Option<Str>)

  /** What one call to the service gives back: a decoded response, a
    * transport failure (`GuzzleException`), or any other exception. */
  datatype Reply =
    | Ok(response: Response)
    | TransportError(message: Str)
    | OtherError(message: Str)

  type Remote = (nat, Prompt) -> Reply

  datatype Level = Info | Warning | Error

  /** What a log entry reports; the message texts themselves are not modelled. */
  datatype Event =
    | ProhibitedFallback(name: Str)
    | NameOnlyStart(name: Str)
    | InvalidResponse(response: Response)
    | InvalidNameOnlyResponse(response: Response)
    | TransportFailed(message: Str)
    | ProcessingFailed(message: Str)
    | NameOnlyFailed(message: Str)

  datatype LogEntry = LogEntry(level: Level, event: Event)

  /** The settings the generator reads: the full prompt template, and the
    * title-only template, which falls back to a built-in default when unset. */
  datatype Config = Config(promptTemplate: Str, nameOnlyPromptTemplate: Option<Str>)

  /** One invocation: the text returned (`None` is PHP's `null`), the
    * prompts sent to the service in order, and the log written. */
  datatype Outcome = Outcome(result: Option<Str>, sent: seq<Prompt>, log: seq<LogEntry>)

  const NamePlaceholder: Str := "{name}"
  const ContentPlaceholder: Str := "{content}"
  const ProhibitedContent: Str := "PROHIBITED_CONTENT"

  /** The built-in title-only template, around its one `{name}` slot. */
  const DefaultNameOnlyHead: Str := "Dựa trên tiêu đề phim \""
  /** The built-in text after the slot, in parts short enough to check one by one. */
  const DefaultTailPart0: Str := "\", hãy viết một bài viết về phim chu"
  const DefaultTailPart1: Str := "ẩn SEO với độ dài khoảng 150 đến 300"
  const DefaultTailPart2: Str := " từ tránh trùng lặp nội dung với nội"
  const DefaultTailPart3: Str := " dung các website khác. Ngôn ngữ 100"
  const DefaultTailPart4: Str := "% tiếng việt, tuyệt đối không dùng M"
  const DefaultTailPart5: Str := "arkdown, không chèn ảnh, không chèn "
  const DefaultTailPart6: Str := "bất kỳ link, và ký tự đặc biệt nào."
  const DefaultNameOnlyTail: Str :=
    DefaultTailPart0 + DefaultTailPart1 + DefaultTailPart2 + DefaultTailPart3
    + DefaultTailPart4 + DefaultTailPart5 + DefaultTailPart6
  const DefaultNameOnlyTemplate: Str := DefaultNameOnlyHead + NamePlaceholder + DefaultNameOnlyTail

  /** The full prompt: `str_replace(['{name}', '{content}'], [name, content], template)`. */
  function FullPrompt(template: Str, name: Str, content: Str): (prompt: Prompt) {
    StrReplaceEach([NamePlaceholder, ContentPlaceholder], [name, content], template)
  }

  /** The title-only prompt: the configured template, or the built-in one, with `{name}` filled in. */
  function NameOnlyPrompt(cfg: Config, name: Str): (prompt: Prompt) {
    StrReplace(NamePlaceholder, name, cfg.nameOnlyPromptTemplate.GetOr(DefaultNameOnlyTemplate))
  }

  /**
   * `generateContentWithNameOnly`: the terminal fallback. It logs that the
   * title-only prompt is used, makes the one call numbered `call`, and
   * returns the reply's text, or `None` with one error logged.
   */
  function GenerateContentWithNameOnly(cfg: Config, remote: Remote, call: nat, name: Str): (o: Outcome)
    ensures |o.sent| == 1
    ensures o.result.Some? ==> remote(call, o.sent[0]).Ok? && remote(call, o.sent[0]).response.text == o.result
  {
    var prompt := NameOnlyPrompt(cfg, name);
    var start := [LogEntry(Info, NameOnlyStart(name))];
    match remote(call, prompt)
    case Ok(response) =>
      if response.text.Some? then Outcome(response.text, [prompt], start)
      else Outcome(None, [prompt], start + [LogEntry(Error, InvalidNameOnlyResponse(response))])
    case TransportError(message) =>
      Outcome(None, [prompt], start + [LogEntry(Error, NameOnlyFailed(message))])
    case OtherError(message) =>
      Outcome(None, [prompt], start + [LogEntry(Error, NameOnlyFailed(message))])
  }

  /**
   * `generateContent`: an empty description goes straight to the title-only
   * path; otherwise the full prompt is sent once and its reply is read in a
   * fixed order: a `PROHIBITED_CONTENT` block falls back to the title-only
   * path, else the text is returned, else an error is logged and `None`
   * returned. Exceptions from the call become `None` with an error logged.
   */
  function GenerateContent(cfg: Config, remote: Remote, name: Str, content: Str): (o: Outcome)
    ensures 1 <= |o.sent| <= 2
    ensures o.result.Some? ==>
      var last := |o.sent| - 1;
      remote(last, o.sent[last]).Ok? && remote(last, o.sent[last]).response.text == o.result
  {
    if IsEmpty(content) then GenerateContentWithNameOnly(cfg, remote, 0, name)
    else
      var prompt := FullPrompt(cfg.promptTemplate, name, content);
      match remote(0, prompt)
      case Ok(response) =>
        if response.blockReason == Some(ProhibitedContent) then
          var fallback := GenerateContentWithNameOnly(cfg, remote, 1, name);
          Outcome(fallback.result, [prompt] + fallback.sent,
                  [LogEntry(Warning, ProhibitedFallback(name))] + fallback.log)
        else if response.text.Some? then Outcome(response.text, [prompt], [])
        else Outcome(None, [prompt], [LogEntry(Error, InvalidResponse(response))])
      case TransportError(message) =>
        Outcome(None, [prompt], [LogEntry(Error, TransportFailed(message))])
      case OtherError(message) =>
        Outcome(None, [prompt], [LogEntry(Error, ProcessingFailed(message))])
  }

  /** The number of error entries in a log. */
  function ErrorCount(log: seq<LogEntry>): (errors: nat)
    decreases |log|
  {
    if log == [] then 0 else (if log[0].level == Error then 1 else 0) + ErrorCount(log[1..])
  }

  lemma {:induction false} ErrorCountAppend(a: seq<LogEntry>, b: seq<LogEntry>)
    ensures ErrorCount(a + b) == ErrorCount(a) + ErrorCount(b)
    decreases |a|
  {
    if a != [] {
      assert (a + b)[0] == a[0];
      assert (a + b)[1..] == a[1..] + b;
      ErrorCountAppend(a[1..], b);
    } else {
      assert a + b == b;
    }
  }

  // ---------------------------------------------------------------------
  // Prompts

  /** The array form of `str_replace` fills `{name}` first and then every
    * `{content}` of that intermediate text, including any inside `name`. */
  lemma FullPromptIsSequential(template: Str, name: Str, content: Str)
    ensures FullPrompt(template, name, content)
         == StrReplace(ContentPlaceholder, content, StrReplace(NamePlaceholder, name, template))
  {
    var search := [NamePlaceholder, ContentPlaceholder];
    var replace := [name, content];
    var named := StrReplace(NamePlaceholder, name, template);
    assert search[1..] == [ContentPlaceholder] && replace[1..] == [content];
    assert StrReplaceEach(search, replace, template) == StrReplaceEach([ContentPlaceholder], [content], named);
    assert [ContentPlaceholder][1..] == [] && [content][1..] == [];
    assert StrReplaceEach([ContentPlaceholder], [content], named)
        == StrReplaceEach([], [], StrReplace(ContentPlaceholder, content, named));
  }

  /** A template with neither placeholder is sent as it is. */
  lemma FullPromptWithoutPlaceholders(template: Str, name: Str, content: Str)
    requires !Contains(template, NamePlaceholder) && !Contains(template, ContentPlaceholder)
    ensures FullPrompt(template, name, content) == template
  {
    FullPromptIsSequential(template, name, content);
    StrReplaceAbsent(NamePlaceholder, name, template);
    StrReplaceAbsent(ContentPlaceholder, content, template);
  }

  /** A `{content}` that the title brings into the prompt is filled in as well. */
  lemma ContentPlaceholderInName(name: Str, content: Str)
    ensures FullPrompt(NamePlaceholder, name, content) == StrReplace(ContentPlaceholder, content, name)
  {
    FullPromptIsSequential(NamePlaceholder, name, content);
    StrReplaceSingleSlot(NamePlaceholder, name, [], []);
    assert [] + NamePlaceholder + [] == NamePlaceholder;
    assert [] + name + [] == name;
  }

  /** A `{content}` slot followed by text free of `{` holds no `{name}`. */
  lemma ContentSlotHasNoNameSlot(name: Str, c: Str)
    requires '{' !in c
    ensures StrReplace(NamePlaceholder, name, ContentPlaceholder + c) == ContentPlaceholder + c
  {
    var subject := ContentPlaceholder + c;
    var tail := ContentPlaceholder[1..] + c;
    assert '{' !in ContentPlaceholder[1..];
    assert '{' !in tail;
    FirstCharAbsent(NamePlaceholder, tail);
    StrReplaceAbsent(NamePlaceholder, name, tail);
    assert subject == ['{'] + tail;
    assert subject[..|NamePlaceholder|] != NamePlaceholder by {
      assert subject[..|NamePlaceholder|][1] == 'c' != NamePlaceholder[1];
    }
    assert subject[1..] == tail;
  }

  /** Past the `{name}` slot, the first pass of `FullPrompt` changes nothing. */
  lemma NamePassAfterSlot(b: Str, c: Str, name: Str)
    requires '{' !in b && '{' !in c
    ensures StrReplace(NamePlaceholder, name, NamePlaceholder + (b + (ContentPlaceholder + c)))
         == name + (b + (ContentPlaceholder + c))
  {
    ContentSlotHasNoNameSlot(name, c);
    StrReplaceSkip(NamePlaceholder, name, b, ContentPlaceholder + c);
    StrReplaceMatchFirst(NamePlaceholder, name, b + (ContentPlaceholder + c));
  }

  /** The first pass of `FullPrompt` puts the title in the `{name}` slot only. */
  lemma NamePassFillsSlot(a: Str, b: Str, c: Str, name: Str)
    requires '{' !in a && '{' !in b && '{' !in c
    ensures StrReplace(NamePlaceholder, name, a + NamePlaceholder + b + ContentPlaceholder + c)
         == a + name + b + ContentPlaceholder + c
  {
    var rest := b + (ContentPlaceholder + c);
    NamePassAfterSlot(b, c, name);
    StrReplaceSkip(NamePlaceholder, name, a, NamePlaceholder + rest);
    assert a + NamePlaceholder + b + ContentPlaceholder + c == a + (NamePlaceholder + rest);
    assert a + name + b + ContentPlaceholder + c == a + (name + rest);
  }

  /** A template with one `{name}` slot and then one `{content}` slot gets
    * the title and the description in those slots, the rest unchanged
    * (for text and a title free of `{`). */
  lemma FullPromptFillsSlots(a: Str, b: Str, c: Str, name: Str, content: Str)
    requires '{' !in a && '{' !in b && '{' !in c && '{' !in name
    ensures FullPrompt(a + NamePlaceholder + b + ContentPlaceholder + c, name, content)
         == a + name + b + content + c
  {
    var template := a + NamePlaceholder + b + ContentPlaceholder + c;
    FullPromptIsSequential(template, name, content);
    NamePassFillsSlot(a, b, c, name);
    assert '{' !in a + name + b;
    StrReplaceSingleSlot(ContentPlaceholder, content, a + name + b, c);
  }

  /** Without a configured template, the title-only prompt is the built-in
    * text with the title in its one `{name}` slot. */
  lemma DefaultNameOnlyPrompt(cfg: Config, name: Str)
    requires cfg.nameOnlyPromptTemplate.None?
    ensures NameOnlyPrompt(cfg, name) == DefaultNameOnlyHead + name + DefaultNameOnlyTail
  {
    assert '{' !in DefaultNameOnlyHead;
    DefaultTailHasNoBrace();
    StrReplaceSingleSlot(NamePlaceholder, name, DefaultNameOnlyHead, DefaultNameOnlyTail);
  }

  /** No `{` occurs in the built-in text after the slot. */
  lemma DefaultTailHasNoBrace()
    ensures '{' !in DefaultNameOnlyTail
  {
    DefaultTailPartHasNoBrace0();
    DefaultTailPartHasNoBrace1();
    DefaultTailPartHasNoBrace2();
    DefaultTailPartHasNoBrace3();
    DefaultTailPartHasNoBrace4();
    DefaultTailPartHasNoBrace5();
    DefaultTailPartHasNoBrace6();
  }

  lemma DefaultTailPartHasNoBrace0() ensures '{' !in DefaultTailPart0 { }
  lemma DefaultTailPartHasNoBrace1() ensures '{' !in DefaultTailPart1 { }
  lemma DefaultTailPartHasNoBrace2() ensures '{' !in DefaultTailPart2 { }
  lemma DefaultTailPartHasNoBrace3() ensures '{' !in DefaultTailPart3 { }
  lemma DefaultTailPartHasNoBrace4() ensures '{' !in DefaultTailPart4 { }
  lemma DefaultTailPartHasNoBrace5() ensures '{' !in DefaultTailPart5 { }
  lemma DefaultTailPartHasNoBrace6() ensures '{' !in DefaultTailPart6 { }

  /** A configured title-only template in which `{name}` occurs exactly once
    * gets the title in that slot and is otherwise unchanged, whatever other
    * braces or placeholders it holds. */
  lemma NameOnlyPromptFillsSlot(cfg: Config, before: Str, after: Str, name: Str)
    requires cfg.nameOnlyPromptTemplate == Some(before + NamePlaceholder + after)
    requires forall i :: 0 <= i < |before| ==> !MatchAt(before + NamePlaceholder + after, NamePlaceholder, i)
    requires !Contains(after, NamePlaceholder)
    ensures NameOnlyPrompt(cfg, name) == before + name + after
  {
    StrReplaceOnce(NamePlaceholder, name, before, after);
  }

  // ---------------------------------------------------------------------
  // The fallback flow

  /** The reply is a decoded response blocked as prohibited content. */
  predicate IsProhibited(reply: Reply) {
    reply.Ok? && reply.response.blockReason == Some(ProhibitedContent)
  }

  /** An empty description (`""` or `"0"`) goes straight to the title-only
    * path: the one prompt sent is the title-only prompt, and the whole
    * invocation is that path's. */
  lemma EmptyContentUsesNameOnly(cfg: Config, remote: Remote, name: Str, content: Str)
    requires IsEmpty(content)
    ensures GenerateContent(cfg, remote, name, content) == GenerateContentWithNameOnly(cfg, remote, 0, name)
    ensures GenerateContent(cfg, remote, name, content).sent == [NameOnlyPrompt(cfg, name)]
  {
  }

  /** A full prompt blocked as prohibited content is answered by the
    * title-only path as the second call, whatever text the blocked reply
    * carried; a warning precedes that path's log. */
  lemma ProhibitedFallsBackToNameOnly(cfg: Config, remote: Remote, name: Str, content: Str)
    requires !IsEmpty(content)
    requires IsProhibited(remote(0, FullPrompt(cfg.promptTemplate, name, content)))
    ensures var o := GenerateContent(cfg, remote, name, content);
            var fallback := GenerateContentWithNameOnly(cfg, remote, 1, name);
            && o.result == fallback.result
            && o.sent == [FullPrompt(cfg.promptTemplate, name, content), NameOnlyPrompt(cfg, name)]
            && o.log == [LogEntry(Warning, ProhibitedFallback(name))] + fallback.log
  {
  }

  /** Text in a reply that is not blocked as prohibited content is returned
    * exactly as received, after one call and with nothing logged. */
  lemma TextReturnedUnchanged(cfg: Config, remote: Remote, name: Str, content: Str, text: Str)
    requires !IsEmpty(content)
    requires var reply := remote(0, FullPrompt(cfg.promptTemplate, name, content));
             reply.Ok? && !IsProhibited(reply) && reply.response.text == Some(text)
    ensures GenerateContent(cfg, remote, name, content)
         == Outcome(Some(text), [FullPrompt(cfg.promptTemplate, name, content)], [])
  {
  }

  /** A reply with no text that is not blocked as prohibited content (any
    * other block reason included) gives `None` and one error that carries
    * the response. */
  lemma MissingTextIsNull(cfg: Config, remote: Remote, name: Str, content: Str)
    requires !IsEmpty(content)
    requires var reply := remote(0, FullPrompt(cfg.promptTemplate, name, content));
             reply.Ok? && !IsProhibited(reply) && reply.response.text.None?
    ensures var reply := remote(0, FullPrompt(cfg.promptTemplate, name, content));
            GenerateContent(cfg, remote, name, content)
              == Outcome(None, [FullPrompt(cfg.promptTemplate, name, content)],
                         [LogEntry(Error, InvalidResponse(reply.response))])
  {
  }

  /** An exception from the full-prompt call never escapes: the result is
    * `None` after that one call, with one error carrying its message. */
  lemma FullPromptFailureIsNull(cfg: Config, remote: Remote, name: Str, content: Str)
    requires !IsEmpty(content)
    requires !remote(0, FullPrompt(cfg.promptTemplate, name, content)).Ok?
    ensures var reply := remote(0, FullPrompt(cfg.promptTemplate, name, content));
            var event := if reply.TransportError? then TransportFailed(reply.message)
                         else ProcessingFailed(reply.message);
            GenerateContent(cfg, remote, name, content)
              == Outcome(None, [FullPrompt(cfg.promptTemplate, name, content)], [LogEntry(Error, event)])
  {
  }

  /** The title-only path returns text only when its one reply has it; any
    * failure of that call, an exception included, gives `None`. */
  lemma NameOnlyResult(cfg: Config, remote: Remote, call: nat, name: Str)
    ensures var reply := remote(call, NameOnlyPrompt(cfg, name));
            GenerateContentWithNameOnly(cfg, remote, call, name).result
              == if reply.Ok? then reply.response.text else None
  {
  }

  /** The service is called once, or twice when the full prompt is blocked
    * as prohibited content; never more. */
  lemma CallCount(cfg: Config, remote: Remote, name: Str, content: Str)
    ensures |GenerateContent(cfg, remote, name, content).sent|
         == if !IsEmpty(content) && IsProhibited(remote(0, FullPrompt(cfg.promptTemplate, name, content)))
            then 2 else 1
  {
  }

  /** The title-only path logs exactly one error when it returns `None` and
    * none when it returns text. */
  lemma NameOnlyErrorIffNull(cfg: Config, remote: Remote, call: nat, name: Str)
    ensures var o := GenerateContentWithNameOnly(cfg, remote, call, name);
            ErrorCount(o.log) == if o.result.None? then 1 else 0
  {
    var o := GenerateContentWithNameOnly(cfg, remote, call, name);
    var start := [LogEntry(Info, NameOnlyStart(name))];
    assert ErrorCount(start) == 0 by {
      assert start[1..] == [];
    }
    if o.log != start {
      var failure := o.log[1];
      assert o.log == start + [failure];
      ErrorCountAppend(start, [failure]);
      assert [failure][1..] == [];
    }
  }

  /** `generateContent` logs exactly one error when it returns `None` and
    * none when it returns text, on every path. */
  lemma ErrorIffNull(cfg: Config, remote: Remote, name: Str, content: Str)
    ensures var o := GenerateContent(cfg, remote, name, content);
            ErrorCount(o.log) == if o.result.None? then 1 else 0
  {
    if IsEmpty(content) {
      NameOnlyErrorIffNull(cfg, remote, 0, name);
    } else if IsProhibited(remote(0, FullPrompt(cfg.promptTemplate, name, content))) {
      var fallback := GenerateContentWithNameOnly(cfg, remote, 1, name);
      var warning := [LogEntry(Warning, ProhibitedFallback(name))];
      NameOnlyErrorIffNull(cfg, remote, 1, name);
      ErrorCountAppend(warning, fallback.log);
      assert ErrorCount(warning) == 0 by {
        assert warning[1..] == [];
      }
    } else {
      var o := GenerateContent(cfg, remote, name, content);
      if o.log != [] {
        assert o.log == [o.log[0]];
        assert o.log[1..] == [];
      }
    }
  }
}
