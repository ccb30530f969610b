# translateGPT: the translation-completion engine, in Dafny

translateGPT fills in the missing translations of an i18n string table by
asking a chat-completion model. For one (namespace, language) pair it:

1. turns the configured strings into a table whose values are all `""` (the
   "pending" marker) with `formatTranslateStrings`;
2. adds every key of the source-language file that the output file lacks or
   holds with a falsy value (`addMissingSourceTranslations`);
3. runs `translate`. Each pass packs the pending keys into batches under a
   500-token budget (`buildQueries`), sends each batch as a JSON prompt, and
   checks that the answer has the same `{{name}}` placeholders as the query
   (`isValidInterpolations`). It then writes the parsed answer into the keys
   that are still pending (`generateAppliedResponse`). Passes repeat until no
   key is pending;
4. overlays the result on the existing output file (`mergeExistingTranslations`).

The model is split into modules:

- `JsObjects`: plain objects.
  - `Dict` is a snapshot: own keys in `Object.keys` order plus a map of JSON values.
  - `JsObject` is an object changed in place.
  - It also covers JavaScript truthiness and the names every object inherits from `Object.prototype`.
- `JsonText`:
  - `JSON.stringify` of a batch, down to string escaping, with the inverse reader and a round-trip proof.
  - The `indexOf("{")` … `lastIndexOf("}")` slice of a response.
  - `JSON.parse` itself is a parameter.
- `Placeholders`: the global match of `{{([^}]+)}}`, `getInterpolations`, and the placeholder check. The check comes in two versions: as written, which the loop uses, and corrected (see Findings).
- `Batching`: `buildQueries` as a loop, proved against a fold (`Scan`) over the keys. Lemmas give the partition and token-budget properties.
- `Responses`: `generateAppliedResponse` as an in-place update, proved against `Applied`. Lemmas say what it may change.
- `Sources`: `formatTranslateStrings`, `addMissingSourceTranslations` as an in-place loop, and the `{...existing, ...result}` merge.
- `Translation`:
  - the prompt text;
  - one pass of the `for` loop as a fold (`Pass`), and the `while` loop as a run of passes (`Run`); the methods that run them in place are proved equal to them;
  - the per-pair pipeline (`TranslateFile`);
  - a lemma about what the placeholder check actually compares.

The outside world enters as parameters:

- the tokenizer is `estimate: string -> nat`;
- `JSON.parse` of a text starting with `{` is `parse: string -> Option<Dict>`. It is assumed to return well-formed objects (`ObjectParser`);
- the completion provider is `provider: (nat, string) -> Option<string>`. It gives the answer to the n-th call with a given prompt, or `None` where `sendQuery` returns `undefined`. `Ask(provider, language)` is `sendQuery(·, language)`: the provider applied to the prompt built for a query;
- file contents are `Option<Dict>`.

## Behaviour worth knowing

- **Invalid input shape.** For a `translateStrings` that is neither an array nor a plain object, `formatTranslateStrings` returns `null`. An object with an own `constructor` key counts as not plain, because `a.constructor === Object` then reads that key. `addMissingSourceTranslations` spreads `null` into `{}` and processing goes on (`Sources.FormatTranslateStrings`, `Sources.Spread`, `Sources.MissingAdded`).
- **Token budget.** The budget is checked before a key is added, against the running total. A batch can therefore exceed 500 by the cost of its last key, whatever the number of keys. What holds is that the keys before the last cost under 500 (`Batching.BatchesTokenBound`).
- **Provider errors.** A failed provider call is not retried. `sendQuery` returns `undefined`, and `isValidInterpolations` then throws on `undefined.match`. The rejection leaves `translate` and the per-language `async` callback of `init` (index.js:281), which nothing awaits or catches. The pair's file is not written. An unhandled rejection may also end the whole Node process (the default since Node 15), and with it the other pairs. The model stops the run with status `Crashed` and writes nothing for that pair.
- **Re-translation.** Every configured string reaches `translate` as `""`, whatever the output file holds (`Translation.PreparedAllPending`). Each run therefore translates it again, and the new value replaces the file's (`Translation.TranslateFile`).
- **Final merge.** New values win over the existing file's values (`{...existing, ...result}`).
- **Placeholder check.** The check compares the placeholders of the whole query text with those of the whole raw response, keys included. Because the model echoes the keys, a translation that drops its key's placeholder still passes (`Translation.EchoedKeyMasksDroppedPlaceholder`).
- **Unbounded loop.** `translate` has no bound on its passes. The model counts passes against a `fuel` parameter (status `Exhausted`).

## Model

| member | source | states |
|---|---|---|
| JsObjects.Dict.Put | index.js:128 | `o[k] = v` on a snapshot: `k` maps to `v`, other keys keep their membership and values, an existing key keeps its place, a new key goes last, well-formedness is kept |
| JsObjects.JsObject.Put | index.js:147 | the in-place assignment leaves the object equal to `Dict.Put` of its old value |
| JsObjects.JsObject.Copy | index.js:163 | `{ ...d }` is a new object with the same keys, order and values |
| Sources.FormatTranslateStrings | index.js:27-44 | `null` exactly for a shape that is neither an array nor a plain object, an object with an own `constructor` key counting as not plain; every value is `""`; an array gives exactly its elements as keys (duplicates collapse); an object gives its keys, in order |
| Sources.PutPendingSpec | index.js:39-42 | assigning `""` key by key keeps the object well formed, adds exactly the new keys after the old ones, makes each assigned key pending and leaves other values alone |
| Sources.FalsyKeys | index.js:145-149 | selects exactly the keys whose value in the output file is falsy, looking through to `Object.prototype` |
| Sources.AddMissingSourceTranslations | index.js:134-160 | returns a fresh object equal to `MissingAdded` of the inputs |
| Sources.PendFalsy | index.js:145-149 | the first-branch loop sets to `""` exactly the falsy keys, in source order |
| Sources.PendAll | index.js:154-156 | the second-branch loop sets every source key to `""`, in source order |
| Sources.MissingAddedSpec | index.js:141-159 | every configured key is kept; with both files, the source keys with falsy output values become pending and nothing else is added or changed; with only the source file, every source key becomes pending; without a source file, the copy is returned unchanged |
| Sources.NewKeys | index.js:232 | the keys of `result` that the existing object lacks: all of them, in `result`'s order, each once |
| Sources.MergeExistingTranslations | index.js:221-242 | without a parsed file the result is returned as it is; otherwise the key set is the union, values of `result` win, other existing values are kept, existing keys keep their order in front, and well-formedness is kept |
| Sources.MergeExample | index.js:232 | `{a:1,b:2}` overlaid with `{b:3,c:4}` is `{a:1,b:3,c:4}` in that key order |
| Batching.BuildQueries | index.js:46-72 | the loop returns exactly `Queries`: one query per batch of `Batches`, each the JSON text of that batch |
| Batching.ScanSound | index.js:54-65 | loop invariant: emitted batches plus the batch being built are the pending keys seen so far; the running count is the batch's cost; every emitted batch reached the budget only with its last key |
| Batching.BatchesPartitionPending | index.js:54-69 | joining the batches in order gives exactly the pending keys in key order, each once |
| Batching.BatchesHoldPendingKeys | index.js:54-69 | no batch is empty and no resolved key is in any batch |
| Batching.BatchesTokenBound | index.js:47-64 | in every batch the keys before the last cost less than 500; every batch but the last costs at least 500 |
| Batching.NoBatchesIffNoPending | index.js:67-71 | no batch, and no query, is produced exactly when no key is pending |
| JsonText.QueryText | index.js:56 | a batch is written as a `{`…`}` object text, `{}` exactly for an empty batch, and reading that text back gives the batch's keys in order |
| JsonText.ReadEscaped | index.js:56 | reading a string literal back from the escaped form of a string, followed by a quote and any text, gives the string and that text |
| JsonText.QuoteRoundTrip | index.js:56 | `JSON.parse(JSON.stringify(s))` is `s` for every string |
| JsonText.MembersReadBack | index.js:56 | the members `"k":""` of a non-empty batch, joined by commas and closed by `}`, read back as its keys in order |
| JsonText.ObjectReadBack | index.js:56 | the object text of any batch reads back as its keys in order |
| JsonText.OneKeyText | index.js:56 | the text of a one-key batch is `{"key":""}` with the key quoted |
| JsonText.IndexOf | index.js:115 | the first position of the character, or -1 when it does not occur |
| JsonText.LastIndexOf | index.js:116 | the last position of the character, or -1 when it does not occur |
| JsonText.ObjectText | index.js:115-117 | when the first `{` comes before the last `}`, the cut is exactly the span from one to the other; otherwise it is empty, or a lone `}` when there is no `{` |
| JsonText.ParseResponse | index.js:114-124 | when the first `{` comes before the last `}`, the result is exactly what `JSON.parse` gives for that span; otherwise, and always when there is no `{`, the response does not parse |
| Placeholders.CloseAt | index.js:197 | the first `}` at or after a position, or the end |
| Placeholders.MatchEnd | index.js:197 | a match of `{{([^}]+)}}` starts the text exactly when the text opens with `{{`, at least one character other than `}`, and `}}`; the match ends right after that `}}`, the only place it can end |
| Placeholders.StripOpenPairs | index.js:200 | `replace(/{{\|}}/g, "")` on a match: text without `{` is returned unchanged; otherwise the name is no longer than the captured text, holds only its characters, and keeps no `{{`; text that does not open with `{` keeps its first character |
| Placeholders.StripFirstPair | index.js:200 | `replace(/{{\|}}/g, "")` keeps the text before the first `{{`, removes that pair, and goes on with the rest |
| Placeholders.StripPlainPrefix | index.js:200 | text without `{` in front of the rest passes through `replace(/{{\|}}/g, "")` unchanged, and the rest is stripped on its own |
| Placeholders.MatchNames | index.js:196-203 | the names of the global matches of `{{([^}]+)}}`, left to right, each with its `{{` and `}}` pairs removed: none holds `}`, each match takes at least five characters, and text without `{` has none |
| Placeholders.MatchNamesSound | index.js:196-203 | every name returned is the name of a real match of `{{([^}]+)}}` somewhere in the text (`NameOfMatch`): the text at that position opens with `{{`, at least one character other than `}`, and `}}`, and the name is that captured text with its `{{` pairs removed |
| Placeholders.IsValidInterpolationsAsWritten | index.js:206-219 | every query name is a response name or an `Object.prototype` member, and the name counts agree; it accepts every response the set comparison accepts, and what it accepts holds every query name that is not a prototype member |
| Placeholders.IsValidInterpolations | index.js:206-219 | the intended check: the query and the response hold the same placeholder names, so the match lists name the same strings and the counts agree |
| Placeholders.PlaceholderThen | index.js:197-203 | `{{n}}` followed by more text contributes the name `n`, then matching resumes after it |
| Placeholders.PlainPrefix | index.js:197-199 | text without `{` in front adds no placeholder |
| Placeholders.LoneOpenBrace | index.js:197-199 | a single `{` starts no match |
| Placeholders.NoOpenBraceNoPlaceholder | index.js:199 | text without `{` has no placeholder |
| Placeholders.SinglePlaceholder | index.js:196-204 | the placeholders of `{{n}}` are exactly `{n}` |
| Placeholders.IntendedPassesAsWritten | index.js:206-219 | the check as written accepts every response whose placeholder names equal the query's |
| Placeholders.AsWrittenIsSetEquality | index.js:206-219 | when no expected name is an `Object.prototype` member, the check as written holds exactly when the two name sets are equal (both directions) |
| Placeholders.InheritedNameFoolsCheck | index.js:212-218 | the check as written accepts `{{constructor}}` answered by `{{name}}`, which the set comparison rejects |
| Responses.GenerateAppliedResponse | index.js:110-132 | the object is changed in place to `Applied` of its old value, and the same object is returned |
| Responses.ApplyKeysStep | index.js:126-130 | visiting one more response key assigns it exactly when it is still pending in the object |
| Responses.AppliedKeepsResolved | index.js:114-130 | no key is added or moved, no resolved value changes, well-formedness is kept, and an unparsable response changes nothing |
| Responses.AppliedChangesExactly | index.js:126-130 | a value changes only if the key was pending and is in the parsed response; such a key takes the parsed value |
| Responses.AppliedIdempotent | index.js:126-130 | applying the same response twice equals applying it once |
| Translation.GeneratePrompt | index.js:74-85 | the prompt is the fixed opening, then the language, then the fixed instructions (placeholders left untranslated, JSON only, keys unchanged, empty strings filled), then the query verbatim, then a space |
| Translation.PromptInjective | index.js:78 | different queries give different prompts for the same language |
| Translation.PassKeepsResolved | index.js:177-189 | a pass adds and moves no key, changes no resolved value and keeps the object well formed |
| Translation.PassCrashedIff | index.js:177-189 | a pass fails exactly when one of its calls gets no answer; otherwise it makes one call per query, in order |
| Translation.PassOne | index.js:181-186 | a pass over one query whose answer passes the check applies that answer and makes one call |
| Translation.SendQueries | index.js:177-189 | the loop leaves the object equal to `Pass` of its old value: each answer that passes the check as written is applied in turn, and the first failed call stops the pass; the failure flag and call count are `Pass`'s |
| Translation.RunSpec | index.js:162-194 | however a run ends, every key is still there in its place, every value that was not `""` is unchanged, and a finished run leaves no `""` value |
| Translation.NothingPendingRun | index.js:167-175 | an object with nothing pending is returned at once, unchanged, whatever the provider would answer |
| Translation.AppliedFillsAll | index.js:126-130 | an answer that gives every pending key a non-empty value leaves nothing pending, with exactly those values |
| Translation.OneBatchRun | index.js:162-194 | pending keys that fit one batch, answered at the first call by a text that passes the check and gives each of them a value, finish after one pass with those values, the other values unchanged |
| Translation.RunAfterPass | index.js:167-189 | the run from a state with pending keys is that pass's failure, or the run from the state the pass leaves with one pass fewer |
| Translation.Translate | index.js:162-194 | the input is not modified; the output is a fresh object, and status and output are exactly `Run` of the input with the provider's answers; every key stays in place, every value that was not `""` is unchanged, a finished run leaves no `""` value, and an input with nothing pending is returned at once |
| Translation.Turn | index.js:167-190 | one turn of the `while` loop either ends the run as `Run` says, or leaves a state from which the rest of the run, with fewer passes left, is the same |
| Translation.TakePass | index.js:177-189 | after the pass over the current queries, the run is that pass's failure or the run from the state it leaves with one pass fewer |
| Translation.PreparedKeepsConfigured | index.js:304-313 | every configured string reaches `translate` as a pending key |
| Translation.PreparedAllPending | index.js:304-313 | every value handed to `translate` is `""`, so every configured string is translated again on every run |
| Translation.MergedSpec | index.js:326 | merging a finished translation keeps every prepared key with the translation's non-empty value, adds only keys of the file, and keeps the file's other values |
| Translation.TranslateFile | index.js:304-326 | a file is written exactly when the run finishes, and it is the merge of the run's result; every prepared key gets its new value from the run, replacing the file's; the file's other entries are kept; with nothing pending it is the plain merge |
| Translation.EchoedKeyMasksDroppedPlaceholder | index.js:184 | for a key with one placeholder, an answer whose translation has no placeholder passes both the corrected check and the check as written, because the echoed key carries the placeholder |

## Left out

- OpenAI client and `sendQuery`: network I/O, replaced by the `provider` parameter. The message array, model name and temperature are not modelled; only the prompt text is.
- `gpt-3-encoder`: a foreign tokenizer, replaced by `estimate`.
- `JSON.parse`: replaced by the `parse` parameter on the cut response text. A parse failure is `None`.
- `fs` access, `getFileJSON`, `mkdirSync`, `writeFile`, path building and `prettier`: I/O. File contents are `Option<Dict>` inputs.
- Translation.TranslateFile: the output file is read once and used for both `addMissingSourceTranslations` and `mergeExistingTranslations`, where the program reads it twice.
- dotenv, the configuration import, the API-key check, `process.exit` and console logging: glue.
- Concurrency: the unawaited per-language callbacks of `init`, and the process-wide effect of an unhandled rejection. One pair is modelled, sequentially.
- Translation.Translate: the unbounded `while` is bounded by `fuel` passes, and a run that uses them up ends as `Exhausted`. Nothing is claimed about how many passes a provider needs.
- Translation.Translate: a crashed run returns its partial object. In the program that object is lost with the rejected promise; `TranslateFile` writes nothing in that case.
- `Object.keys` ordering of integer-like keys: they are enumerated first in the program. The model keeps insertion order for all keys.
- The `__proto__` setter: assigning to the key `__proto__` is modelled as an ordinary own property.
- Non-string array elements in `translateStrings`, and file JSON that is not an object (an array, a number): inputs are string lists and objects.
- Sources.FormatTranslateStrings: a `constructor` key whose value is the `Object` function itself, which passes the guard, cannot occur in a configuration object of strings and is not represented.
- `\u` escapes of surrogate pairs when reading back a string: `JsonText.ReadString` rejects them. `Escape` never produces them.

## Findings

| source | as written | input that shows it | evidently intended | confidence | as-written member | corrected member |
|---|---|---|---|---|---|---|
| index.js:212-218 | a missing name is looked up on a plain object, so a name that `Object.prototype` provides (`constructor`, `toString`, …) counts as present; the counts then match | query `{{constructor}}`, response `{{name}}`: accepted | the two placeholder name sets are equal | not executed | Placeholders.InheritedNameFoolsCheck | Placeholders.AsWrittenIsSetEquality |

The loop of `translate` is modelled with the check as written (`Placeholders.IsValidInterpolationsAsWritten`). The corrected check is `Placeholders.IsValidInterpolations`. `Placeholders.AsWrittenIsSetEquality` proves the two agree whenever no expected name is an `Object.prototype` member. `Placeholders.IntendedPassesAsWritten` proves that everything the corrected check accepts, the check as written accepts too.
