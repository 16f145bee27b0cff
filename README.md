# Movie content generator: the fallback flow of `GeminiService`

This project models the content generator of the movie-content add-on. Given a
movie's title (`name`) and description (`content`), `GeminiService` builds a
prompt, sends it to a remote generation service, and reads the reply. There are
two fallbacks. An empty description goes straight to a title-only prompt. A full
prompt that the service blocks as `PROHIBITED_CONTENT` is retried once with the
title-only prompt. The title-only path is the last resort. Every failure becomes
`null` with an error logged, and no exception reaches the caller.

The model is pure, as the source is: the service's fields are set once in its
constructor and never change, and neither entry point has a loop.

- `Wrappers.dfy`: `Option`, for PHP's `null` and unset fields.
- `PhpStrings.dfy`: PHP's `empty()` on strings, and `str_replace` with one
  needle and with arrays of needles. The one-needle case scans left to right,
  replaces non-overlapping matches, and never rescans the text it inserts.
  `explode`/`implode` serve as an independent reference for it.
- `GeminiService.dfy`: the prompts, `GenerateContentWithNameOnly`,
  `GenerateContent`, and the lemmas about each branch.
  - The remote service is an oracle `Remote = (nat, Prompt) -> Reply`.
    `remote(k, p)` is the reply to the `k`-th call of one invocation, counting
    from 0. A stateless service is the case that ignores `k`.
  - A `Reply` is a decoded `Response` (`blockReason`, `text`), a
    `TransportError` (PHP's `GuzzleException`) or an `OtherError` (any other
    `\Exception`).
  - Each invocation yields an `Outcome`: the returned text (`None` is `null`),
    the prompts sent in order, and the log. The log is a sequence of
    (level, event) entries, and each event carries the title, the response or
    the exception message that the source's log line reports.
- `FallbackMachine.dfy`: the flow as a state machine, Start →
  FullPromptAttempt / NameOnlyAttempt → Success / Failed. The lemmas prove that
  it stops within three steps and that `GenerateContent` agrees with it on the
  prompts sent and the result.

A moderation block is logged as a warning where it is detected
(`GeminiService.php:58`), and the title-only path logs an info entry before its
call (`GeminiService.php:91`). `generateContentWithNameOnly` is `protected` in
the source and is modelled as a function.

## Model

| member | source | states |
|---|---|---|
| `PhpStrings.StrReplaceIsImplodeExplode` | src/MovieContentGenerator/Services/GeminiService.php:90 | one-needle `str_replace` equals `implode(replace, explode(search, subject))`: every non-overlapping occurrence is replaced, and the text between occurrences is kept |
| `PhpStrings.ImplodeExplodeRoundTrip` | src/MovieContentGenerator/Services/GeminiService.php:90 | joining the pieces of `explode` with the separator gives the original string back |
| `PhpStrings.StrReplaceBySelf` | src/MovieContentGenerator/Services/GeminiService.php:90 | replacing a needle by itself leaves any subject unchanged |
| `PhpStrings.ExplodePiecesFree` | src/MovieContentGenerator/Services/GeminiService.php:90 | no piece between replaced occurrences still contains the needle, so every occurrence is replaced |
| `PhpStrings.ExplodeFirstIsPrefix` | src/MovieContentGenerator/Services/GeminiService.php:90 | the text before the first replaced occurrence is a prefix of the subject |
| `PhpStrings.ExplodeFirstIsLeftmost` | src/MovieContentGenerator/Services/GeminiService.php:90 | the replacement scan takes the leftmost occurrence: the needle starts at no index before the first replaced occurrence, and that occurrence starts right after the first piece |
| `PhpStrings.ContainsIffMatch` | src/MovieContentGenerator/Services/GeminiService.php:90 | the needle occurs in the subject exactly when it matches at some index (both directions), which ties the "no match after the slot" condition of `StrReplaceOnce` to its "no match before the slot" condition |
| `PhpStrings.ExplodeSplitsIffContains` | src/MovieContentGenerator/Services/GeminiService.php:90 | a replacement happens at all exactly when the needle occurs in the subject (both directions) |
| `PhpStrings.StrReplaceAbsent` | src/MovieContentGenerator/Services/GeminiService.php:90 | a subject without the needle is returned unchanged |
| `PhpStrings.StrReplaceSkip` | src/MovieContentGenerator/Services/GeminiService.php:90 | text that never holds the needle's first character passes through untouched, and scanning continues after it |
| `PhpStrings.StrReplaceSingleSlot` | src/MovieContentGenerator/Services/GeminiService.php:90 | a needle that occurs once, between text without its first character, is replaced at that place only |
| `PhpStrings.StrReplaceOnce` | src/MovieContentGenerator/Services/GeminiService.php:90 | a needle that occurs exactly once (no match starting before the slot, none in the text after it) is replaced at that place only, whatever else the text holds |
| `PhpStrings.FirstCharAbsent` | src/MovieContentGenerator/Services/GeminiService.php:90 | a string without the needle's first character does not contain the needle |
| `GeminiService.FullPromptIsSequential` | src/MovieContentGenerator/Services/GeminiService.php:52 | the array form of `str_replace` fills `{name}` over the whole template first, then every `{content}` of that intermediate text |
| `GeminiService.FullPromptWithoutPlaceholders` | src/MovieContentGenerator/Services/GeminiService.php:52 | a template with neither placeholder is sent unchanged |
| `GeminiService.ContentPlaceholderInName` | src/MovieContentGenerator/Services/GeminiService.php:52 | for the template `{name}`, a `{content}` inside the title is filled with the description |
| `GeminiService.NamePassFillsSlot` | src/MovieContentGenerator/Services/GeminiService.php:52 | in a template made of one `{name}` slot, then one `{content}` slot, with no other `{` in the template, the first pass puts the title in the `{name}` slot and changes nothing else |
| `GeminiService.FullPromptFillsSlots` | src/MovieContentGenerator/Services/GeminiService.php:52 | such a template (no `{` outside its two slots), filled with a title without `{`, becomes the template text with the title and the description in their slots; for any other title, `FullPromptIsSequential` gives the prompt as the `{name}` pass followed by the `{content}` pass over the whole intermediate text, and `ContentPlaceholderInName` works this out for the template `{name}` |
| `GeminiService.DefaultNameOnlyPrompt` | src/MovieContentGenerator/Services/GeminiService.php:87-90 | with no configured title-only template, the prompt is the built-in text with the title in its one `{name}` slot and the rest of the text unchanged |
| `GeminiService.DefaultTailHasNoBrace` | src/MovieContentGenerator/Services/GeminiService.php:88 | the built-in title-only text after its `{name}` slot holds no `{`, so no second slot |
| `GeminiService.NameOnlyPromptFillsSlot` | src/MovieContentGenerator/Services/GeminiService.php:87-90 | a configured title-only template in which `{name}` occurs exactly once gets the title in that slot and is otherwise unchanged, whatever other braces or placeholders it holds |
| `GeminiService.GenerateContentWithNameOnly` | src/MovieContentGenerator/Services/GeminiService.php:84-105 | the title-only path makes exactly one call and never falls back further; the text it returns is the text of that call's decoded reply |
| `GeminiService.NameOnlyResult` | src/MovieContentGenerator/Services/GeminiService.php:93-104 | the title-only result is the reply's text if the reply is a decoded response, and `null` for a reply without text or for any exception |
| `GeminiService.NameOnlyErrorIffNull` | src/MovieContentGenerator/Services/GeminiService.php:91-104 | the title-only path logs exactly one error when it returns `null`, and none when it returns text |
| `GeminiService.GenerateContent` | src/MovieContentGenerator/Services/GeminiService.php:42-76 | one or two calls are made; returned text is always the text of the last call's decoded reply |
| `GeminiService.EmptyContentUsesNameOnly` | src/MovieContentGenerator/Services/GeminiService.php:48-49 | an empty description (`""` or `"0"`) gives exactly the title-only path's outcome, and the only prompt sent is the title-only prompt |
| `GeminiService.ProhibitedFallsBackToNameOnly` | src/MovieContentGenerator/Services/GeminiService.php:56-60 | a full prompt blocked as `PROHIBITED_CONTENT` gets the title-only path's result from a second call, with the same title-only prompt; the blocked reply's text is ignored; a warning precedes that path's log |
| `GeminiService.TextReturnedUnchanged` | src/MovieContentGenerator/Services/GeminiService.php:62-63 | without a prohibited block, the reply's text is returned exactly as received, after one call and with nothing logged |
| `GeminiService.MissingTextIsNull` | src/MovieContentGenerator/Services/GeminiService.php:66-67 | a reply without text and without a prohibited block gives `null` and exactly one error carrying the response; this includes any other block reason |
| `GeminiService.FullPromptFailureIsNull` | src/MovieContentGenerator/Services/GeminiService.php:69-75 | a transport or other exception from the full-prompt call gives `null` and one error carrying its message, under the matching catch clause |
| `GeminiService.CallCount` | src/MovieContentGenerator/Services/GeminiService.php:48-59 | the number of calls is 2 when a non-empty description's prompt is blocked as prohibited, and 1 otherwise |
| `GeminiService.ErrorIffNull` | src/MovieContentGenerator/Services/GeminiService.php:42-76 | on every path, `generateContent` logs exactly one error when it returns `null` and none when it returns text |
| `GeminiService.ErrorCountAppend` | src/MovieContentGenerator/Services/GeminiService.php:58-59 | the errors in a log made of two parts are counted part by part, so the warning before the fallback adds none |
| `FallbackMachine.TerminalStays` | src/MovieContentGenerator/Services/GeminiService.php:42-105 | Success and Failed are terminal: no number of transitions leaves them |
| `FallbackMachine.RunSplit` | src/MovieContentGenerator/Services/GeminiService.php:42-105 | running `a + b` transitions is running `a` and then `b` |
| `FallbackMachine.Settles` | src/MovieContentGenerator/Services/GeminiService.php:42-105 | from Start, the flow is in Success or Failed after three transitions and stays there, having sent one or two prompts |
| `FallbackMachine.GenerateContentAgrees` | src/MovieContentGenerator/Services/GeminiService.php:42-105 | `generateContent` sends the prompts the state machine sends, and returns text exactly when the machine ends in Success, with that text |

## Left out

- `callGeminiAPI` (`GeminiService.php:114-143`) is the oracle `Remote`. The model leaves out the HTTP client, the URL with the model id and API key, the request body, the 60-second timeout, and `json_decode` of the body. A reply that does not decode to the expected shape appears as a `Response` with both fields `None`.
- The `generationConfig` values (`temperature`, `topP`, `topK`, `maxOutputTokens`, the response mime type) are left out. They are only passed through to the HTTP request.
- `config(...)` lookups are the fields of `Config`. The API key and model id are read only by the HTTP call, so they are left out. An unset full prompt template (`null` in PHP) is not modelled: `promptTemplate` is always a string.
- Log messages keep their level and an event with the data they report (title, response, exception message). The Vietnamese texts and the `json_encode` formatting are left out. `LoggerService` is not part of this model.
- `name` and `content` are strings. PHP's `empty()` on other types (`null`, `0`, `false`, arrays) is not modelled.
- PHP strings are byte strings. The model uses sequences of characters, which give the same matches for well-formed UTF-8.
- PHP `\Error` throwables (not `\Exception`) are not caught by the source. No such throwable arises in the modelled code, so none is modelled.
- The `movies` table migration (`add_complete_column_to_movies_table.php`) is left out. It is schema glue over the framework's migration library, whose code is not part of this model.
