# merge-ideas: a Dafny model

The `merge-ideas` edge function of SLAPP takes two sticky-note texts (`idea1`,
`idea2`) and returns one merged text. With an OpenAI key configured it asks a
chat-completion model for the merge; without one, or when the reply carries no
text, it falls back to `synthesizeFallback`, a deterministic string template.

This project models:

- `JsString` (`js_string.dfy`): the JavaScript semantics the function leans on —
  truthiness of a possibly missing JSON field, `String.prototype.trim` over the
  ECMAScript whitespace set, `split(' ')` and the word count `split(' ').length`.
  Trimming is given both as the computation and as a declarative predicate
  (`IsTrimOf`), proved to coincide; splitting is proved to invert joining.
- `Fallback` (`fallback.dfy`): `synthesizeFallback` — the empty-input cascade,
  trimming, the three-word threshold and the two templates.
- `MergeHandler` (`handler.dfy`): the handler's decision as a pure function of
  the parsed body, the API key and the completion service's reply.

How the handler treats failures and odd replies:

- A rejected `fetch` (index.ts:56) or a reply body that is not JSON
  (index.ts:101) throws into the `catch` and gives status 500 (index.ts:121-129).
- A JSON reply whose first choice carries no content falls back to
  `synthesizeFallback` (index.ts:112-119), whatever its HTTP status.
- Non-empty but whitespace-only content is trimmed to `""` and returned as the
  merged text (index.ts:106; `MergeHandler.HandleEmptyMerged`).

## Model

| member | source | states |
|---|---|---|
| JsString.TrimStart | supabase/functions/merge-ideas/index.ts:17-18 | the result is a suffix of the input, all that was cut is whitespace, and it does not start with whitespace |
| JsString.TrimEnd | supabase/functions/merge-ideas/index.ts:17-18 | the result is a prefix of the input, all that was cut is whitespace, and it does not end with whitespace |
| JsString.Trim | supabase/functions/merge-ideas/index.ts:17-18 | the trimmed note is a window of the note with only whitespace outside it and no whitespace at either end |
| JsString.TrimUnique | supabase/functions/merge-ideas/index.ts:17-18 | a string is a trim of the note if and only if it is the computed trim |
| JsString.TrimIdempotent | supabase/functions/merge-ideas/index.ts:17-18 | trimming an already trimmed note leaves it unchanged |
| JsString.TrimEmptyIffAllWs | supabase/functions/merge-ideas/index.ts:17-18 | a note trims to the empty string exactly when every character is whitespace |
| JsString.Split | supabase/functions/merge-ideas/index.ts:21-22 | splitting on a character yields one more piece than there are separators, no piece holds the separator, and joining the pieces gives back the input |
| JsString.SplitJoin | supabase/functions/merge-ideas/index.ts:21-22 | splitting the join of separator-free pieces gives back exactly those pieces |
| JsString.WordCount | supabase/functions/merge-ideas/index.ts:21-22 | the word count is the number of space characters plus one |
| JsString.SingleWordWithoutSpace | supabase/functions/merge-ideas/index.ts:21-22 | a note is one word if and only if it has no space character, whatever tabs or line breaks it holds |
| JsString.WhitespaceOnlyIsOneWord | supabase/functions/merge-ideas/index.ts:17-22 | a whitespace-only note trims to the empty string and counts as one word |
| Fallback.SynthesizeFallback | supabase/functions/merge-ideas/index.ts:12-30 | the fallback result is never empty, and with both notes present it holds the trimmed first note followed by the trimmed second note |
| Fallback.FallbackPlaceholder | supabase/functions/merge-ideas/index.ts:13 | two empty or missing notes give "Combined idea", and that text comes out otherwise only when a note is literally that text |
| Fallback.FallbackSingleNote | supabase/functions/merge-ideas/index.ts:14-15 | when exactly one note has text, the result is that note unchanged and untrimmed |
| Fallback.FallbackEmptyIsAbsent | supabase/functions/merge-ideas/index.ts:13-15 | an empty note and a missing note give the same result |
| Fallback.FallbackBranch | supabase/functions/merge-ideas/index.ts:21-29 | with both notes present, the exploration template fires if and only if each trimmed note has at most two spaces, and the synthesis template fires otherwise |
| Fallback.FallbackKeepsNotes | supabase/functions/merge-ideas/index.ts:13-29 | every note with text appears in the result at least in trimmed form |
| Fallback.FallbackWhitespaceNote | supabase/functions/merge-ideas/index.ts:17-25 | a whitespace-only note next to a short note gives the exploration template with an empty first slot |
| MergeHandler.Handle | supabase/functions/merge-ideas/index.ts:38-130 | the handler answers 500 exactly when the body does not parse or a keyed call fails or is unreadable, and an empty merged text only ever comes from the service's reply |
| MergeHandler.HandleWithoutKey | supabase/functions/merge-ideas/index.ts:45-53 | without a non-empty key the merged text is the fallback's, whatever the service would have said |
| MergeHandler.HandleWithContent | supabase/functions/merge-ideas/index.ts:105-111 | with a key and non-empty content the merged text is the content trimmed, independent of the notes, and empty exactly when the content is all whitespace |
| MergeHandler.HandleWithoutContent | supabase/functions/merge-ideas/index.ts:112-119 | with a key but missing or empty content the merged text is the fallback's |
| MergeHandler.HandleEmptyMerged | supabase/functions/merge-ideas/index.ts:105-119 | a 200 response with empty merged text happens if and only if the service returned non-empty whitespace-only content |
| MergeHandler.HandleStatus | supabase/functions/merge-ideas/index.ts:121-129 | an unparsable body gets status 500; a parsed body gets 200 when no key is set or the service replied with JSON |

## Left out

- HTTP serving, the OPTIONS preflight, CORS headers and `Response` construction (index.ts:6-9, 32-36, 49-52): I/O plumbing; the response is modelled as `Ok(merged)` or `ServerError`.
- The OpenAI request itself — URL, prompts, model name, `max_tokens`, `temperature` (index.ts:55-99): a network call; its outcome is the `ProviderReply` input.
- `Deno.env.get` and all `console.log`/`console.error` calls (index.ts:41-43, 102-103, 107, 114, 122): environment access and logging; the key is an input.
- The error message text of the 500 response (index.ts:124): it is whatever the thrown exception says, which the model does not represent.
- JSON fields that are neither strings nor missing (numbers, booleans, objects) for `idea1`, `idea2` or the completion content: `Value` covers only missing/`null` and strings. In index.ts a truthy non-string note next to another truthy note makes `.trim()` throw (index.ts:17-18), which gives 500 (index.ts:121-129); next to a falsy note the raw value is echoed as `merged` (index.ts:14-15); a truthy non-string `content` throws at index.ts:106 and also gives 500.
- Lone UTF-16 surrogates: JavaScript strings are UTF-16 code units, while the model's `string` is a sequence of Unicode scalar values, so input such as the JSON escape `"\ud800"` cannot be represented. `trim`, `split(' ')` and the templates act the same on every input the model can represent.
- The emoji template texts are fixed constants; no property depends on their wording beyond their first characters differing from each other and from the placeholder.
