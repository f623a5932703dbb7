# Text-to-Speech Story Narrator — a verified model of its core

The narrator turns a dialogue script ("Name: text" lines) into speech. This
project models, in Dafny, the parts of it that decide what is said, by whom,
in which voice and style, and in how many requests:

- **Strings** — JavaScript's `trim`, `split`, `indexOf` and `lastIndexOf` on strings (sequences of code points).
- **JsMaps** — a JavaScript `Map` as its entries in insertion order, and a `Set` of strings as its elements in insertion order.
- **TextSplit** — `splitTextSafely`. It cuts a window of a text longer than the budget after the last occurrence of the text of its last sentence-end match (a mark, perhaps a quote), or else of its last clause-end match, or else at the last space, or else at the budget. That occurrence lies at or after the match, and may lie after it.
- **Batching** — the batch schedule that both story generators follow. Lines are buffered with single spaces up to 1800 characters. The buffer is flushed when the speaker changes or when a line does not fit. An overlong line is split and dispatched.
- **GeminiService**:
  - `generateRawAudio`'s guard;
  - `generateMultiLineSpeech`, one track with all speakers in narrative order;
  - `generateSeparateSpeakerSpeech`, one track per speaker, in configuration order.

  Each is written imperatively as the source runs it. Each is proved to dispatch exactly the schedule's batches, in order, and to stop at the first request that throws. The speech service is a parameter (`Synthesizer`), a function from the text, voice and seed to a reply.
- **ScriptParser** — the script parser of `App.tsx` (the `forEach` over the script's lines).
- **Reconciliation** — the speaker-configuration reconciliation that follows every parse. A new speaker gets a default configuration with the next voice of the rotation. A speaker no longer in the script loses its configuration.
- **AppConfig**:
  - the style prefix `constructFullPrefix`;
  - voice resolution, where a custom voice plays through its base voice;
  - the effective configurations handed to the generators;
  - the migration of saved configurations and custom voices.

The main results:

- **Chunks.**
  - Every chunk fits the budget.
  - Splitting loses no non-space character, and the text is exactly the chunks separated by white space.
- **Batches.**
  - Every request fits the budget.
  - In the one-track mode, the batches carry every non-space character of the dialogue, each attributed to its speaker, in the script's order.
  - For a single speaker, the two modes send the same requests.
- **Results.**
  - The one-track result is an error exactly when some request throws, and it is the first such error.
  - Otherwise the result is nothing when no audio came back, and the clips in order when some did.
  - The per-speaker map has an entry for exactly the speakers that have lines, a configuration and audio, in configuration order.
- **Configurations.**
  - After a parse, exactly the script's speakers have configurations.
  - A speaker that stays keeps its configuration.
  - The j-th new speaker gets the j-th voice of the rotation.
- **Migration.**
  - Migration round-trips a saved configuration exactly when its voice, emotion and speed are non-empty and its volume is not 0. An empty prompt prefix or a seed of 0 does not stop the round trip.
  - Migration is idempotent.

Three behaviours of the code that are easy to miss:

- `splitTextSafely("")` returns `[""]`, not an empty list. The empty chunk is then never sent, because blank batches are skipped.
- A configuration holds a single `seed`.
- An emotion of `""` gives no prefix, just as `"none"` does.

## Model

| member | source | states |
|---|---|---|
| Strings.Trim | services/geminiService.ts:50-51 | the trimmed text is no longer than the input; it is empty exactly when the input is all white space; otherwise it starts and ends with a non-space character |
| Strings.TrimSplit | services/geminiService.ts:50-51 | a text is its leading white space, then its trimmed text, then its trailing white space |
| Strings.Split | App.tsx:117 | splitting gives at least one piece, and no piece contains the separator |
| Strings.JoinSplit | App.tsx:117 | joining the pieces of `split` with the separator gives back the text: splitting the script loses nothing |
| Strings.LastIndexOf | services/geminiService.ts:26 | the result is -1 or a position where the pattern occurs, with no occurrence after it |
| Strings.IndexOf | App.tsx:125 | the result is the first position of the character, and -1 exactly when it does not occur |
| JsMaps.Get | services/geminiService.ts:115 | `get` finds a value exactly for the keys of the map, and the value found is that key's entry |
| JsMaps.Set | App.tsx:148 | after `set` the key maps to the new value and every other key keeps its value; a present key keeps its position and a new key is appended at the end |
| JsMaps.SetDistinct | App.tsx:148 | `set` keeps the keys distinct |
| JsMaps.Delete | App.tsx:160 | `delete` keeps every other entry, in order, and removes the key |
| JsMaps.DeleteGet | App.tsx:160 | after `delete(k)`, `k` is absent and every other key keeps its value |
| JsMaps.SetAdd | App.tsx:139 | `Set.add` keeps the elements distinct and adds exactly the new element |
| JsMaps.FirstAppearances | App.tsx:119 | a `Set` built by adding the elements in turn holds each of them exactly once |
| JsMaps.FirstAppearancesOrder | App.tsx:119 | the `Set` lists its elements in order of first appearance: an element listed before another occurs in the input before every occurrence of the other |
| TextSplit.MatchLength | services/geminiService.ts:24 | a match of the sentence-end (or clause-end) pattern starts at a position exactly when a mark there is followed, after at most one quote, by white space or the end |
| TextSplit.LastMatch | services/geminiService.ts:24-26 | the start of the last match in the window, or none when there is no match |
| TextSplit.CutAfter | services/geminiService.ts:26-29 | the cut falls just after an occurrence of the same mark, at or after the last match |
| TextSplit.CutIndexPrefers | services/geminiService.ts:21-48 | when the window has a sentence-end match, it is cut after a sentence mark at or after the last such match; otherwise, when it has a clause-end match, after a clause mark at or after the last one; otherwise at the last space unless it is at position 0; otherwise at the budget |
| TextSplit.FindCutIndex | services/geminiService.ts:21-48 | the cut the loop computes is the one CutIndex specifies, between 1 and the window's length |
| TextSplit.SplitTextSafely | services/geminiService.ts:9-55 | a text within the budget comes back whole; there is always at least one chunk; every chunk fits the budget; the chunks hold the text's non-space characters in order |
| TextSplit.SplitSafelyBounded | services/geminiService.ts:15-52 | at least one chunk, each within the budget |
| TextSplit.SplitSafelyKeepsText | services/geminiService.ts:9-55 | the text is the chunks interleaved with white-space gaps, so splitting only drops white space at the cuts |
| TextSplit.CutFollowsLastOccurrence | services/geminiService.ts:26 | the cut looks for the last occurrence of the matched text, not of the match: in the window `Hi. Mr.X` the only sentence end is at 2, yet the cut is at 7 |
| Batching.AbsorbBounded | services/geminiService.ts:134-151 | offering a line to a buffer within the budget dispatches only texts within the budget and leaves a buffer within it |
| Batching.AbsorbKeepsText | services/geminiService.ts:134-151 | what is dispatched, followed by the new buffer, holds the old buffer's and the line's non-space characters, in order |
| Batching.PlanBounded | services/geminiService.ts:125-155 | every batch of the one-track schedule fits 1800 characters |
| Batching.PlanKeepsScript | services/geminiService.ts:125-155 | the one-track batches, character by character and tagged with their speaker, are the dialogue's non-space characters tagged with their speakers, in script order |
| Batching.SoloPlanBounded | services/geminiService.ts:187-206 | every batch of a per-speaker schedule fits 1800 characters |
| Batching.SoloPlanKeepsText | services/geminiService.ts:187-206 | a per-speaker schedule holds the speaker's non-space characters in order |
| Batching.SingleSpeakerAgrees | services/geminiService.ts:187-206 | for lines of a single speaker, the one-track schedule is the per-speaker schedule attributed to that speaker |
| Batching.RunGrows | services/geminiService.ts:125-152 | batches once dispatched stay dispatched: the schedule of a prefix of the lines is a prefix of the schedule |
| GeminiService.BlankTextNeverSent | services/geminiService.ts:59 | a blank text is answered with no audio, whatever the service would have said |
| GeminiService.PromptKeepsBatch | services/geminiService.ts:117 | the request text for a non-blank batch is not blank, and its non-space characters are the prefix's followed by the batch's |
| GeminiService.BatchReplyByConfig | services/geminiService.ts:112-123 | a configured, named speaker's batch is answered as its configuration's request for that text |
| GeminiService.UnconfiguredSilent | services/geminiService.ts:113-116 | a batch without a speaker, with blank text or for an unconfigured speaker sends no request |
| GeminiService.GatherMeaning | services/geminiService.ts:118-121 | collecting replies succeeds exactly when none threw, and then gives the clips in order; otherwise it fails with the first thrown error |
| GeminiService.GatherFailureSticks | services/geminiService.ts:158-161 | once a request has thrown, later replies change nothing: the error ends the generation |
| GeminiService.ProcessBatch | services/geminiService.ts:112-123 | one `processBatch` call appends the batch's clip, skips a silent reply, or fails with the thrown error |
| GeminiService.DispatchPieces | services/geminiService.ts:146-148 | dispatching a line's leading pieces collects the replies of exactly those batches, in order |
| GeminiService.StartLine | services/geminiService.ts:126-133 | a change of speaker flushes the buffer as the previous speaker's batch and starts an empty buffer for the new one |
| GeminiService.Overflow | services/geminiService.ts:137-150 | a line that does not fit flushes the buffer, dispatches all of the line's pieces but the last, and keeps the last as the buffer |
| GeminiService.FeedLine | services/geminiService.ts:134-151 | offering a line follows the schedule's step: its replies are those of the scheduled batches, and the buffer is the scheduled buffer |
| GeminiService.ProcessLine | services/geminiService.ts:125-151 | one iteration of the loop dispatches exactly the batches the schedule adds for that line |
| GeminiService.WalkLines | services/geminiService.ts:125-152 | the loop's replies are those of the schedule's batches, and on success its speaker and buffer are the schedule's |
| GeminiService.GenerateMultiLineSpeech | services/geminiService.ts:99-162 | the generator returns what MultiLineSpeech specifies for the lines, configurations and service |
| GeminiService.MultiLineMeaning | services/geminiService.ts:99-162 | the one-track result is an error exactly when a scheduled request throws, and it is the first such error; it is `null` exactly when no clip came back; otherwise it is the clips in order |
| GeminiService.RequestsFollowPlan | services/geminiService.ts:112-123 | every batch holds at most 1800 characters. A batch with a named, configured speaker and non-blank text is answered by exactly one request, with the speaker's voice and seed and a non-blank prompt holding the prefix followed by the batch; every other batch is silent |
| GeminiService.ProcessText | services/geminiService.ts:178-185 | the per-speaker `processBatch` appends the clip of one request, skips silence, or fails |
| GeminiService.SpeakPieces | services/geminiService.ts:197-199 | dispatching a line's leading pieces collects exactly their replies, in order |
| GeminiService.SoloOverflow | services/geminiService.ts:191-201 | an overflowing line flushes the buffer, dispatches its leading pieces and keeps its last piece |
| GeminiService.SoloFeed | services/geminiService.ts:188-201 | offering a line follows the per-speaker schedule's step |
| GeminiService.SpeakLines | services/geminiService.ts:187-206 | one speaker's pass collects the replies of its schedule's batches, in order |
| GeminiService.LinesOf | services/geminiService.ts:171 | the filtered lines are exactly the speaker's lines |
| GeminiService.LinesOfAppend | services/geminiService.ts:171 | filtering keeps the script's order: the lines of a script in two parts are the first part's lines, then the second part's |
| GeminiService.SpeakerPass | services/geminiService.ts:171-210 | one iteration over a configuration adds the speaker's clips to the map, or skips a speaker without lines or audio, or fails |
| GeminiService.GenerateSeparateSpeakerSpeech | services/geminiService.ts:164-214 | the generator returns what SeparateSpeech specifies for the lines, configurations and service |
| GeminiService.SeparateKeys | services/geminiService.ts:164-214 | a speaker is in the result exactly when it has a configuration, lines and at least one clip; its entry holds those clips |
| GeminiService.SeparateOrder | services/geminiService.ts:170-210 | the result's speakers appear in the order of their configurations |
| GeminiService.SeparateFailure | services/geminiService.ts:164-214 | the per-speaker generation fails exactly when some speaker's pass throws, and it is the first such error in configuration order |
| GeminiService.ModesAgree | services/geminiService.ts:164-214 | for the lines of a single configured speaker, both generators send the same requests in the same order and agree on the outcome |
| ScriptParser.MatchTagSound | App.tsx:125 | a match of `/^([^:]+):\s*(.*)$/` is a non-empty name without a colon, a colon, white space, and a rest that starts with no white space and holds no line terminator |
| ScriptParser.MatchTagFinds | App.tsx:125 | a line made of such a name, a colon and a rest without line terminators is matched with that name and rest |
| ScriptParser.NoNameUntagged | App.tsx:125 | a line with no colon, or starting with one, is not a tagged line |
| ScriptParser.ParseScript | App.tsx:116-141 | the parser returns the lines and speakers that Parse specifies for the script |
| ScriptParser.TaggedNamed | App.tsx:129 | a tagged trimmed line always yields a non-empty speaker name |
| ScriptParser.ParsedWellFormed | App.tsx:122-141 | every parsed line has a named speaker and a non-empty trimmed text, and its speaker is among the speakers |
| ScriptParser.ParsedSpeakers | App.tsx:119-139 | the speakers are the lines' speakers, each once, in order of first appearance |
| ScriptParser.ParsedInOrder | App.tsx:122-141 | the lines of a prefix of the script are a prefix of the parsed lines |
| ScriptParser.BlankLineSkipped | App.tsx:123-124 | a blank line changes nothing, not even the inherited speaker |
| ScriptParser.TaggedLine | App.tsx:128-139 | a tagged line sets the speaker to its trimmed name and adds a line with its trimmed text, unless that text is empty |
| ScriptParser.UntaggedLine | App.tsx:125-139 | a non-blank line the tag pattern does not match (no colon, a leading colon, a line terminator in the text) is spoken whole and trimmed by the last speaker, or `Speaker 1` before any, with id `index-speaker` |
| Reconciliation.Reconcile | App.tsx:143-163 | the reconciliation returns what Reconciled specifies for the previous configurations and the speakers |
| Reconciliation.SeedConfigs | App.tsx:144-158 | the first `forEach` gives each speaker without a configuration a default one, counting out the voice rotation |
| Reconciliation.PruneConfigs | App.tsx:159-161 | the second `forEach` deletes, over a snapshot of the keys, every key that is not a speaker |
| Reconciliation.NewSpeakers | App.tsx:146-147 | the new speakers are exactly the speakers without a previous configuration, each once |
| Reconciliation.ReconciledKeys | App.tsx:143-163 | the configured speakers are the previous ones still in the script, in their old order, then the new ones in script order |
| Reconciliation.ReconciledDomain | App.tsx:143-163 | a speaker has a configuration exactly when it is one of the script's speakers |
| Reconciliation.ReconciledKeeps | App.tsx:147 | a speaker that stays in the script keeps its configuration unchanged |
| Reconciliation.ReconciledDefaults | App.tsx:145-156 | the j-th new speaker gets the default configuration with prebuilt voice number j modulo 7 |
| Reconciliation.ParsedSpeakersConfigured | App.tsx:116-163 | after a parse and reconciliation, a name has a configuration exactly when some dialogue line is spoken by it |
| AppConfig.FindSpeed | App.tsx:180 | the speed found has the value asked for, and none is found exactly when no speed has it |
| AppConfig.SpeedAdverbs | App.tsx:180 | only `slow`, `slightly_slow` and `slightly_fast` give an adverb, and each gives its own |
| AppConfig.PrefixEmpty | App.tsx:181-183 | there is no prefix exactly when the speed gives no adverb and the emotion is `none` or empty |
| AppConfig.PrefixShape | App.tsx:185-193 | a prefix is `Please speak `, then the adverb, the emotion or both joined by ` and `, then a colon |
| AppConfig.DefaultPrefix | App.tsx:148-155 | a default configuration gives no prefix |
| AppConfig.DefaultSendsText | App.tsx:261-262 | a speaker left at its default configuration is sent its batch text alone, trimmed |
| AppConfig.FindVoice | App.tsx:199 | the voice found has the id asked for, and none is found exactly when no voice has it |
| AppConfig.ResolveVoiceCases | App.tsx:201 | a voice plays as itself unless it is custom with a base, and then it plays as that base |
| AppConfig.PrebuiltFound | App.tsx:38 | a prebuilt voice's id always finds the prebuilt voice, whatever custom voices exist, and it plays as itself |
| AppConfig.BuildEffectiveConfigs | App.tsx:253-264 | the loop builds the map EffectiveConfigs specifies |
| AppConfig.EffectiveGet | App.tsx:253-264 | a speaker of the lines with a configuration and a known voice gets its configuration with the resolved voice and the constructed prefix; nobody else gets an entry |
| AppConfig.EffectiveKeys | App.tsx:253-264 | the entries follow the speakers' first appearances in the lines, one per qualifying speaker |
| AppConfig.MigratedFilled | App.tsx:80-88 | a migrated configuration has a voice, an emotion, a speed and a non-zero volume; its seed is the saved one whenever one was saved, even 0, and the default otherwise |
| AppConfig.MigrateSaved | App.tsx:80-88 | saving and migrating gives a configuration back exactly when it has a voice, an emotion, a speed and a non-zero volume |
| AppConfig.MigrateIdempotent | App.tsx:80-88 | migrating a migrated configuration again changes nothing |
| AppConfig.ZeroVolumeZeroSeed | App.tsx:85-87 | a saved volume of 0 becomes 1, while a saved seed of 0 is kept |
| AppConfig.SaveConfigs | App.tsx:173 | saving writes one pair per entry, in map order |
| AppConfig.MigrateConfigsKeys | App.tsx:80-89 | the migrated map holds each saved speaker once, in order of first appearance |
| AppConfig.ConfigsRoundTrip | App.tsx:80-89 | a map whose configurations all have a non-empty voice, emotion and speed and a non-zero volume comes back from a save and a load unchanged, entry for entry and in order |
| AppConfig.MigratedVoicesCustom | App.tsx:100-107 | every migrated voice is custom, with an id, a name and a base voice, and it plays as its base |
| AppConfig.VoicesRoundTrip | App.tsx:100-107 | a list of migrated voices comes back from a save and a load unchanged |
| AppConfig.DropsUnnamed | App.tsx:101 | a saved entry without an id or a name is dropped |

## Left out

- WAV assembly (`createWavBlob`, `decode`, `createSilentAudio`) is not part of this model. The generators return the clips as raw byte sequences, and the per-speaker map holds the clips rather than a container.
- The speech request itself (the SDK call, the model name, base64 decoding, candidate extraction) is the `Synthesizer` parameter.
- A thrown non-`Error` value is wrapped as `Gemini API Error: …`. In the model, any thrown value is just its message.
- Logging (`console.error`) is left out.
- The awaits run one after another, as the model's loops do; nothing runs concurrently, so nothing is lost.
- `generateSingleLineSpeech`, the preview handlers and playback volume are left out. So are React state, effects and rendering, and the `SpeakerControl` component.
- `localStorage` and `JSON.parse` are left out. The saved data is given as `SavedConfig`, `SavedEntry` and `SavedVoice` values. A parse error or a non-array value, which the source catches or skips, is not modelled.
- Volume is a `real`. `NaN` and values of the wrong JSON type (a string volume, a `null` seed, a numeric id) are not modelled.
- `toneDescription` is not read by the core and is dropped by migration. It is left out of the configuration.
- Strings are sequences of code points, not UTF-16 code units. Lengths differ from JavaScript's for characters outside the Basic Multilingual Plane.
- TextSplit.SplitTextSafely requires a budget of at least 1, because the source loops forever otherwise. Its only callers pass 1800.
- JsMaps.FindAt, JsMaps.GetIn and JsMaps.DeleteGet require distinct keys, which every JavaScript `Map` has. The lemmas of Reconciliation, GeminiService.SeparateKeys and GeminiService.SeparateOrder require it of the maps they are given, for the same reason.
- Reconciliation.ReconciledKeys, Reconciliation.ReconciledDomain, Reconciliation.ReconciledKeeps and Reconciliation.ReconciledDefaults require distinct speakers. The speakers come from a `Set`, and Reconciliation.ParsedSpeakersConfigured discharges the requirement for parsed scripts.
