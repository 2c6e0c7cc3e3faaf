# Advanced NAI Image: a Dafny model of the prompt pipeline

The extension turns the current chat of its host into three lists of
image-generation tags: one for the scene, one for the character and one for
the user's persona. The Dafny project models the core of that pipeline:

- `strings.dfy` (module `Strings`): the string operations the sources rely on.
  These are `trim` on ASCII whitespace, `Array.prototype.join`, and the
  decimal form of integers.
- `json.dfy` (module `Json`): the loosely typed host values, as the datatype
  `JValue`. It also gives the JavaScript coercions the code uses: truthiness,
  `||`, `??`, `===`, `String(v)`, `Number(v)`, `Object.values` and optional
  property reads.
- `text.dfy` (module `Text`, from `text.js`):
  - `stringifyPrompt`;
  - `normalizeText`;
  - `formatTagList`: removes carriage returns, drops blank parts, joins, splits
    on runs of `,.;\n`, then trims, collapses and lower-cases each segment.
    The model cuts at every single separator character, which leaves extra
    empty pieces where the source's `[,.;\n]+` cuts a whole run; those
    pieces are dropped with the blank segments, so the tags are the same.
- `config.js` is modelled in `config.dfy` (module `Config`):
  - the constants;
  - `deriveExtensionPath`, over the module URL's pathname.
- `settings.js` is modelled in `settings.dfy` (module `Settings`):
  - the default settings;
  - the class `SettingsStore`, whose `extensionSettings` field is the host's
    `extension_settings`. Its methods `EnsureSettings` and `GetSettings`
    update that field in place, as `ensureSettings()` and `getSettings()` do.
- `context.dfy` (module `Context`, from `context.js`) builds the context
  snapshot out of the host context:
  - the last five user and character messages;
  - the user (persona) description;
  - the character description;
  - the persona.

  Pure functions specify each lookup chain. The loops of the source are
  methods proved equal to those functions.
- `generation.dfy` (module `Generation`, from `generation.js`):
  - the transcript block;
  - the three section prompts;
  - `runSimpleGeneration` over the host's two generators;
  - the loop that generates the three sections, each inside its own
    `try`/`catch`;
  - the per-section fallbacks;
  - the outputs built when no generator exists.

The host's generators are parameters: functions from the prompt to a
`Reply`, which is either `Resolved(value)` or `Rejected` (thrown or rejected).
The host context is a parameter too. This includes what `getSTContext()`
returns, `power_user`, `user_avatar`, `getUserAvatar` and
`getCharacterCardFields`. Each asynchronous operation is modelled by the value
its promise settles with.

`generation.js` reads a message's text as `message?.text ??
stringifyPrompt(message?.text)`. The right-hand side runs only when the text
is `null` or `undefined`, and `stringifyPrompt` gives `''` for those. The
model therefore reads the text as `message.text ?? ''`, which yields the same
value.

## Model

| member | source | states |
|---|---|---|
| Strings.Trim | text.js:28 | The result has no leading or trailing whitespace. It is empty exactly when the input is all whitespace. It is a prefix of the input with its leading whitespace removed. |
| Strings.TrimDropsOnlyWhitespace | text.js:28 | What is cut from the end is whitespace, so with `Trim`'s own ensures the result is the input with whitespace removed at both ends and nothing else. |
| Strings.NatToString | generation.js:137 | The decimal form of a natural number: non-empty, all digits, and no leading zero. |
| Strings.NatToStringRoundTrip | generation.js:137 | Reading the decimal form back gives the number. |
| Strings.IntToString | text.js:4-5 | `String(n)` of an integer is non-empty and has no whitespace at either end. |
| Strings.JoinEnds | generation.js:39-40 | A join of two or more parts starts with the first part and the separator. It ends with the separator and the last part. |
| Json.NumberOfStringRoundTrip | context.js:62 | `Number` of the decimal string of an integer is that integer. |
| Json.IntegerLiteral | context.js:62 | `Number` of a trimmed string is an integer exactly for an optional `+` or `-` followed by one or more decimal digits. Digits read as their decimal value, negated after `-`. |
| Json.FirstTruthyOr | context.js:312-317 | `a \|\| b \|\| … \|\| last` is the first truthy value, or `last` when none is truthy. |
| Json.FirstPresentOr | context.js:302-309 | `a ?? b ?? … ?? last` is the first value that is neither `null` nor `undefined`, or `last` when every value is. |
| Text.Collapse | text.js:21 | The result holds no whitespace but single spaces. A non-space first or last character is kept, and every non-space character of the result comes from the input. |
| Text.CollapseKeepsNonSpace | text.js:21 | The non-whitespace characters of the result are those of the input, in the same order. |
| Text.CollapseAppend | text.js:21 | Text ending in a non-space collapses independently of what follows it. |
| Text.CollapseSpaceRun | text.js:21 | A whitespace run in front of a non-space becomes exactly one space. |
| Text.CollapseRun | text.js:21 | A whitespace run between two non-space characters becomes exactly one `' '`, and the text on both sides is collapsed on its own. |
| Text.SplitSegments | text.js:20 | Cutting at every separator character of `[,.;\n]` gives at least one segment, and no segment contains a separator. Where the source cuts a whole run of separators, this gives extra empty segments, which `CleanSegments` drops as the source's `filter(Boolean)` does. |
| Text.CleanSegments | text.js:21-22 | The cleaned segments are non-empty tags: trimmed, collapsed, lower-case, with no separator. |
| Text.RemoveCR | text.js:16 | No carriage return is left, and every character comes from the input. |
| Text.TagsOf | text.js:15-23 | Every tag that `formatTagList` joins is a canonical tag. |
| Text.NormalizeText | text.js:26-30 | A non-string gives `null`. A string gives `null` exactly when it is blank, and otherwise gives its trimmed, non-empty form. |
| Text.StringifyPrompt | text.js:1-12 | `null` and `undefined` give `''`. A string is returned unchanged. Numbers and booleans give their `String` form. Arrays, objects and `Map`s give their `JSON.stringify` text, or `''` when the serialiser throws. |
| Text.NormalizeTextIdempotent | text.js:26-30 | Normalising a normalised text gives it back. |
| Text.AppliedFieldIsTrimmed | text.js:1-30 | `normalizeText(stringifyPrompt(v)) ?? ''` is always trimmed. |
| Text.LowerFacts | text.js:21 | `toLowerCase` keeps the length, leaves no upper-case letter, and keeps whitespace and separators where they were. |
| Text.CanonIsTag | text.js:21-22 | A segment's canonical form is empty exactly when the segment is blank, and otherwise it is a tag. |
| Text.SplitAtSeparator | text.js:20 | A separator ends the current segment. |
| Text.CleanSplitJoin | text.js:19-23 | Splitting a list of tags joined by `, ` and cleaning the segments gives back the tags. |
| Text.TagsOfJoinedTags | text.js:14-23 | Re-formatting tags that were joined by `, ` gives the same tags. |
| Text.FormatTagListIdempotent | text.js:14-24 | `formatTagList(formatTagList(...parts)) == formatTagList(...parts)`. |
| Text.FormatTagListOfSeparators | text.js:14-24 | Parts made only of separators and whitespace give the empty tag list. |
| Text.FormatTagListOfWords | text.js:14-24 | `formatTagList('a, b.', 'c;d\ne')` for words without whitespace or separators is the five words, lower-cased, joined by `, `. |
| Text.FormatTagListExample | text.js:14-24 | `formatTagList("Hello, World.", "foo;bar\nbaz")` is `"hello, world, foo, bar, baz"`. |
| Text.FormatTagListLeadingWord | text.js:14-24 | A part that starts with a lower-case word without separators gives a tag list that starts with that word. |
| Config.IndexOf | config.js:9 | The first occurrence of the separator, or none when the string does not contain it. |
| Config.Split | config.js:9-10 | `split(sep)` gives at least one piece, and no piece contains the separator. |
| Config.SplitJoin | config.js:9-10 | Joining the pieces of a split with the separator gives back the string. |
| Config.SplitOfJoin | config.js:9-10 | Splitting parts joined by a character that none of them contains gives back the parts. |
| Config.SplitFirst | config.js:10 | The first piece is a prefix of the string, with no occurrence of the separator starting inside it. It is either the whole string or followed by the separator. |
| Config.DeriveExtensionPath | config.js:6-16 | The derived path is never empty and never contains `/extensions/` or `/config.js`. |
| Config.FallbackHasNoMarker | config.js:1 | The fallback path contains neither marker. |
| Config.DeriveFallbacks | config.js:9-11 | With no URL, or a pathname without `/extensions/`, the fallback path is used. |
| Config.DeriveFound | config.js:9-11 | When the pathname holds `/extensions/`, let `rest` be what follows its first occurrence. If `rest` is empty or opens with `/extensions/` or `/config.js`, the result is the fallback path. Otherwise the result is the non-empty prefix of `rest` in which no marker starts, and it ends at the end of `rest` or where the next `/extensions/` or `/config.js` starts. |
| Config.DeriveExample | config.js:6-16 | `/scripts/extensions/third-party/foo/config.js` gives `third-party/foo`. |
| Settings.DefaultPromptIsTrimmed | settings.js:6-20 | The default prompt is non-empty and trimmed, so `normalizeText` keeps it unchanged. |
| Settings.FillDefaults | settings.js:33-37 | Filling adds at most one entry per default. |
| Settings.SettingsStore.EnsureSettings | settings.js:26-38 | A falsy slot is replaced by a copy of the defaults. An object slot gains, in order, the defaults it lacks. Any other value throws (`ok` is false) and leaves the store unchanged. No other extension's slot changes. |
| Settings.SettingsStore.GetSettings | settings.js:40-43 | Returns the slot as `ensureSettings` leaves it: `ok` exactly when that call succeeds. On success the store holds the ensured slot and no other entry changes. On failure the store is unchanged. |
| Settings.FillDefaultsHasDefaults | settings.js:33-37 | After the loop, every default key is present. |
| Settings.FillDefaultsKeepsPrefix | settings.js:33-37 | Existing properties keep their values and their order. |
| Settings.FillDefaultsAppendsMissing | settings.js:33-37 | Every added property is a default whose key was missing. |
| Settings.LookupAfterFill | settings.js:34-35 | A key already present keeps its value. |
| Settings.FillDefaultsIdempotent | settings.js:33-37 | Filling twice is the same as filling once. |
| Settings.FillWhenComplete | settings.js:33-37 | Settings that already have every key are left unchanged. |
| Settings.FillDefaultsKeepsKeysDistinct | settings.js:33-37 | Filling never creates a duplicate key. |
| Settings.EnsuredIdempotent | settings.js:26-38 | Ensuring settings that are already ensured changes nothing. |
| Settings.EnsuredHasDefaults | settings.js:26-38 | Ensured settings are an object that has every default key, and an object slot keeps its own properties first. |
| Context.PowerUserSettings | context.js:79-87 | The result is truthy or `null`. The context's `powerUserSettings` wins when truthy, and the result is `null` when all four sources are falsy. |
| Context.PowerUserSettingsFirstTruthy | context.js:79-87 | The result is the first truthy of the context's `powerUserSettings`, its `power_user`, the imported `power_user` and the global `power_user`, in that order, else `null`. |
| Context.PersonaContext | context.js:89-104 | There is a persona id exactly when `user_avatar` is a non-empty string, and the id is that string. With an id, the name is `personas[id]`, or `null` when that is missing. The description is the trimmed `persona_descriptions[id].description` when that is a non-blank string, and absent otherwise. The avatar is `getUserAvatar(id)`. Without an id, the description, name and avatar are all empty. |
| Context.PersonaOfSelectedOnly | context.js:89-104 | The persona depends on the power-user settings only through the selected id's `personas` and `persona_descriptions` entries. |
| Context.FilterTruthy | context.js:226-232 | `filter(Boolean)` keeps exactly the truthy elements and changes nothing when all are truthy. |
| Context.FilterTruthyAppend | context.js:226-232 | Filtering distributes over concatenation, so the kept elements keep their order and multiplicity. |
| Context.FilterTruthySingle | context.js:226-232 | A single element is kept exactly when it is truthy. |
| Context.FlattenCollection | context.js:223-235 | Every element is truthy. Falsy and primitive collections give `[]`, and an array gives its truthy elements. |
| Context.FindIndex | context.js:69-72 | The first element that satisfies the predicate, or none when no element does. |
| Context.CardByIdOrFirst | context.js:66-76 | For a string `characterId`, the first card whose `avatar` or `id` is that string. Without a match, or for a non-string id, the first card. |
| Context.ActiveCharacterCard | context.js:58-77 | `null` exactly when there are no cards. Otherwise the result is one of the cards, and it is the card at `Number(characterId)` when that is an index of the list, and the id lookup of `CardByIdOrFirst` otherwise. |
| Context.IsUserOrCharacterMessage | context.js:160-179 | Nullish entries are rejected and strings accepted. Entries with a system marker are rejected. A boolean `is_user` accepts. For any other entry, it is accepted exactly when `role ?? data.role` is `user` or `assistant`. |
| Context.Collect | context.js:19-25 | The collected entries are exactly those the test accepts, with their own indices, in strictly increasing order. |
| Context.CollectComplete | context.js:20-25 | Every accepted entry is collected. |
| Context.LastFive | context.js:27 | `slice(-5)` keeps the last `min(5, n)` entries. |
| Context.RecentAreLastFive | context.js:19-27 | The recent entries are at most five and accepted, in log order. Every accepted entry is among them when there are fewer than five, or when it comes no earlier than the first of them. |
| Context.ResolveTurn | context.js:28-38 | A string entry is spoken by `unknown`. An object entry's speaker is its truthy `name`. Failing that, it is `name1 \|\| 'You'` for a truthy `is_user` and `name2 \|\| 'Character'` otherwise, so it is always truthy. Its text is `mes`, else `text`, else `''`, skipping only `null` and `undefined`. The index is the entry's index in the log. |
| Context.MessagesAreLastFive | context.js:19-38 | The snapshot's messages are the last (at most five) user and character messages, in log order. |
| Context.MessagesAreResolved | context.js:28-38 | Each message of the snapshot is the one `ResolveTurn` builds from the log entry at its index. |
| Context.FirstNormalized | context.js:123-126 | The first normalisable value, normalised. It is absent exactly when no value normalises. |
| Context.FindFirstNormalized | context.js:123-126 | The loop returns the first normalised value. |
| Context.FirstNormalizedAt | context.js:123-126 | The value at the first index that normalises is the one returned. |
| Context.CardDescription | context.js:324-342 | A falsy card has no description. A description is non-empty and trimmed. |
| Context.ExtractCardDescription | context.js:324-342 | The loop over the eight card fields returns the card's description. |
| Context.UserDescription | context.js:106-138 | Without a context or a persona description there is none. Otherwise it is the first normalisable value of the seven persona sources (persona descriptor, the two power-user fields, then `persona_description`, `personaDescription`, `user_definition`, `userDefinition` of the context), else the card field `persona`, else the user card's description. Any description is trimmed and non-empty. |
| Context.DescriptorWins | context.js:111-126 | The persona's own description takes precedence over every other source. |
| Context.GetUserDescription | context.js:106-138 | The loop returns the user description. |
| Context.CharacterDescription | context.js:140-158 | Without a context there is none. The active card's description wins when there is one; otherwise it is the first normalisable of `character_description`, `characterDescription` and `description`. Any description is trimmed and non-empty. |
| Context.GetCharacterDescription | context.js:140-158 | The loop returns the character description. |
| Context.NormalizeName | context.js:257-265 | A normalised name is trimmed. |
| Context.NormalizeNameFirstTruthy | context.js:257-265 | The name read is the first truthy of `name`, `display_name`, `title` and `data.name`, else `data.display_name`. A string gives its trimmed lower-case form. Any other value gives no name. |
| Context.LowerTrimmed | context.js:190 | `trim().toLowerCase()` stays trimmed, is as long as the trimmed text, and is empty exactly for blank text. |
| Context.NameHints | context.js:187-191 | Every name hint is non-empty. |
| Context.NameHintsExact | context.js:187-191 | A string is a hint exactly when it is the trimmed lower-case form of a non-blank string among the four name values. |
| Context.IsUserCharacterByName | context.js:237-255 | A truthy string `name` equal to the user's non-blank string `name1`, up to surrounding whitespace and case, makes the character the user, whatever its flags. |
| Context.ProfileSource | context.js:268-273 | The profiles searched are all truthy. They are the manager's truthy profiles when it has any, and the context's truthy profiles otherwise. |
| Context.CardOfProfile | context.js:302-321 | A profile card is an object. Its name is the profile's `name \|\| title \|\| displayName`, then the user's `name1`, then `User`, so it is always truthy. Its `data.description` is the `??` chain of the six description fields, ending in `null`. |
| Context.ProfileCardFields | context.js:302-321 | The card's name is the first truthy of the profile's `name`, `title` and `displayName` and the user's `name1`, else `User`. Its description is the first present of the profile's `description`, `persona`, `bio`, `profile`, `prompt` and `data.description`, else `null`. |
| Context.ProfileCard | context.js:267-322 | The card is `null` exactly when no active profile is found. Otherwise it is an object with a truthy name. |
| Context.LegacyPersonaCard | context.js:201-219 | The legacy card is `null` exactly when none of the four legacy persona fields is truthy. Otherwise it is an object whose name is `name1` when that is truthy and `User` otherwise. Its description is `persona_description ?? persona ?? user_definition ?? userDefinition ?? null`. |
| Context.LegacyCardDescription | context.js:208-218 | The legacy card's description is the first present of `persona_description`, `persona`, `user_definition` and `userDefinition`, else `null`. |
| Context.UserCard | context.js:181-221 | The user card is `user`, then `userCard`, then the profile card, each when truthy. Failing those, it is the first candidate character that is the user, and failing that, the legacy persona card. |
| Context.SnapshotOf | context.js:6-46 | The persona is always resolved. Without a context, the messages are empty, there is no character description, and the user description is the persona's. Both descriptions are trimmed and non-empty when present. |
| Context.CollectRelevantEntries | context.js:19-25 | The `forEach` loop collects exactly the user and character entries. |
| Context.CaptureContextSnapshot | context.js:6-46 | The snapshot is the one `SnapshotOf` specifies. |
| Generation.RunSimpleGeneration | generation.js:91-108 | An empty prompt, or no generator, resolves with `''`. Otherwise the generator in use is called: `generateRaw` when it exists, else `generateQuietPrompt`. The call resolves exactly when that generator resolves with a truthy value, and then with that value. A resolved value is always truthy or `''`. |
| Generation.RunPrefersRaw | generation.js:95-106 | When `generateRaw` exists, `generateQuietPrompt` is never consulted. |
| Generation.RunEmptyPrompt | generation.js:92 | An empty prompt calls no generator. |
| Generation.RunFalsyThrows | generation.js:95-106 | A falsy answer from the generator used makes the call throw. |
| Generation.RunTruthyResolves | generation.js:95-106 | A truthy answer from the generator used is returned unchanged. |
| Generation.SpeakerLabel | generation.js:137 | A falsy speaker is named `Speaker <n>`, counting from one. A truthy string speaker is used as is. |
| Generation.MessageText | generation.js:138 | The text is non-empty and trimmed: the trimmed message text, or the no-text placeholder. |
| Generation.TranscriptLineParts | generation.js:137-139 | Each line is the speaker, then `: `, then the text. |
| Generation.TranscriptBlock | generation.js:134-144 | The block is never empty. Without messages it is the no-messages placeholder. |
| Generation.TranscriptRoundTrip | generation.js:134-144 | Splitting the block at newlines gives back the lines, when no line contains a newline. |
| Generation.Directive | generation.js:26 | The directive is the trimmed prompt, or the default prompt when the prompt is not a non-blank string. It is always non-empty and trimmed. |
| Generation.DirectiveIdempotent | generation.js:26 | Deriving the directive from a directive gives it back. |
| Generation.PersonaText | generation.js:20 | A persona text is non-empty and trimmed. |
| Generation.CharacterDescriptionText | generation.js:21 | Non-empty and trimmed. A non-blank snapshot description gives its trimmed form. Otherwise it is the placeholder. |
| Generation.UserDescriptionText | generation.js:22-25 | Non-empty and trimmed. It is the user description, else the persona description, else the placeholder. |
| Generation.Present | generation.js:38-40 | `filter(Boolean)` keeps only non-empty lines, each taken from the input. Every non-empty line is kept. |
| Generation.PresentAppend | generation.js:38-40 | Filtering keeps order: filtering two blocks of lines in sequence gives the first block's kept lines, then the second's. |
| Generation.PresentSingle | generation.js:38-40 | A single line is kept exactly when it is present and non-empty. |
| Generation.PromptFrame | generation.js:28-65 | Every section prompt opens with the instruction header and a blank line. It closes with a blank line and that section's `tags unavailable` line. |
| Generation.ScenePersonaLine | generation.js:33 | The scene prompt has the persona-tags line exactly when there is a persona. |
| Generation.UserPersonaLine | generation.js:57 | The user prompt has the additional-persona block exactly when there is a persona. |
| Generation.CharacterPromptUserReference | generation.js:45 | In the character prompt, the user description appears only in the reference block. |
| Generation.PromptDependencies | generation.js:28-65 | The scene prompt uses neither description, and the character prompt does not use the persona. |
| Generation.WithField | generation.js:77 | Storing one section's text changes that section only. |
| Generation.OrElse | generation.js:85-87 | `a \|\| b` on strings is non-empty exactly when one of them is. |
| Generation.SectionText | generation.js:71-81 | A failed generation, or a non-string answer, stores `''`. A string answer stores `formatTagList` of its trimmed text. |
| Generation.SectionTextIsCanonical | generation.js:77 | A generation without usable text stores `''`. Stored text is already a canonical tag list. |
| Generation.GenerateSections | generation.js:68-82 | The loop fills each section with the result of that section's own generation. |
| Generation.GenerateStructuredOutputs | generation.js:7-89 | Without a generator, the result is `buildFallbackOutputs` as written. Otherwise it is the generated sections, each empty one replaced by its fallback. |
| Generation.FallbackSceneStartsWithDirective | generation.js:126-132 | The fallback scene's tags start with `directive`. |
| Generation.FailedSectionFallsBack | generation.js:78-87 | A section whose generation threw, or gave no text, gets its fallback. |
| Generation.SectionIsolation | generation.js:70-88 | A section's output depends only on its own generation, so a failure elsewhere does not affect it. |
| Generation.GeneratedSectionKept | generation.js:70-87 | A section whose generation resolves with a string whose trimmed text still yields tags gets exactly those tags, not its fallback. |
| Generation.OutputsNonEmpty | generation.js:7-89 | With a generator, all three outputs are non-empty. |
| Generation.CombineNonEmpty | generation.js:84-88 | The combined outputs are non-empty, because every fallback is. |
| Generation.FallbackAsWrittenCanBeEmpty | generation.js:16-122 | Without a generator, a character description of `.` gives an empty character output. |
| Generation.FallbackOutputsNonEmpty | generation.js:110-124 | The corrected fallback outputs are all non-empty, and they agree with the written ones wherever those are non-empty. |
| Generation.CorrectedOutputsNonEmpty | generation.js:7-124 | With the corrected fallback, all three outputs are non-empty with or without a generator. They differ from the outputs as written only where those are empty. |

## Left out

- `getSTContext` (context.js:48-56) reads host globals. Its result is a parameter of the model (`Host.context`, with `null` for no context), and so are the imported `power_user`, `user_avatar`, `getUserAvatar` and `getCharacterCardFields`.
- Whether a generator exists is a parameter (`Backends`). The model does not decide between `context.generateRaw` and the imported `generateRaw`.
- Asynchrony: each `await` is modelled by the value its promise settles with, and a rejection counts as a throw.
- Logging (`console.log`, `console.warn`, `console.debug`), `saveSettingsDebounced`, and the `refreshPersonas`/`setPersona` callbacks of the persona are left out. They do not affect any value the core computes.
- `JSON.stringify` in `stringifyPrompt` is a parameter of `Text.StringifyPrompt`, with `None` for a serialiser that throws.
- `new URL(import.meta.url)` is modelled by its pathname, an `Option<string>`. `None` stands for a URL that fails to parse.
- Whitespace means ASCII whitespace only. Lower-casing covers `A`-`Z` only. Unicode spaces and case mappings are not modelled.
- Numbers are integers. `Number(v)` reads signed decimal literals only; fractions, exponents, hexadecimal and `Infinity` give `NaN`.
- Json.StrictEquals: `===` on arrays, objects and `Map`s compares identity, which a tree of values cannot record, so the model treats any two such values as different.
- Property reads on strings, arrays and `Map`s give `undefined` in the model, whereas JavaScript has properties such as `length` there. The core reads no such property on purpose.
- Settings.SettingsStore.EnsureSettings requires that the settings slot is not an array or a `Map`. For such a slot, the `in` operator and the property writes are not modelled.
- Context.ProfileCard states whether there is a card and that its name is truthy. Which fields the card carries is stated by `Context.CardOfProfile` and `Context.ProfileCardFields`.
- Context.ActiveProfile has no contract of its own. `Context.ProfileCard` states what the rest of the model relies on.
- Text.FormatTagList has no contract of its own. Its properties are the lemmas listed above (idempotence, blank input, round trip over joined tags, leading word, the five-word example).
- `ui.js` and `index.js` (the settings panel and the wiring into the host's events) are not part of this model.

## Findings

| source | as written | input that shows it | evidently intended | confidence | as-written member | corrected member |
|---|---|---|---|---|---|---|
| generation.js:121-122 | `formatTagList(character \|\| 'character')` applies the default before formatting. The description is already non-empty there, so the default never applies. | A character description of `"."` (or any text made only of `,.;` and whitespace) gives the character output `''`. | `formatTagList(character) \|\| 'character'` (and the same for `user`), so that the fallback output is never empty. | low, not executed | Generation.FallbackAsWrittenCanBeEmpty | Generation.CorrectedOutputsNonEmpty |

`Generation.StructuredOutputs` and `Generation.GenerateStructuredOutputs` follow the source: without a generator they return `Generation.FallbackOutputsAsWritten`. The corrected behaviour is `Generation.CorrectedStructuredOutputs`, built on `Generation.FallbackOutputs`. It agrees with the written outputs whenever a generator exists, and wherever the written outputs are non-empty.
