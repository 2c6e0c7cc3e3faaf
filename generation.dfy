/** Prompt assembly and output combination (generation.js): the transcript
    block, the three section prompts, the dispatch to the host's generators,
    the per-section fallbacks, and the outputs when no generator exists. */
module Generation {
  import opened Strings
  import opened Json
  import opened Text
  import Settings
  import Config
  import Context

  // ---------------------------------------------------------------------
  // The host's generators

  /** How a call to a generator settles: with a value, or by throwing (or
      rejecting). */
  datatype Reply = Resolved(value: JValue) | Rejected

  /** The generators the context offers, each `Some` when it is a function:
      `generateRaw(systemPrompt, prompt)` and `generateQuietPrompt(text)`. */
  datatype Backends = Backends(
    raw: Option<(string, string) -> Reply>,
    quiet: Option<string -> Reply>
  )

  predicate Available(backends: Backends) {
    backends.raw.Some? || backends.quiet.Some?
  }

  /** The system prompt `runSimpleGeneration` sends with every request. */
  const SystemPrompt: string :=
    "You are an image-tag formatter."
    + " Respond ONLY with lowercase"
    + " comma-separated tags."
    + " Never write sentences"
    + " or narration."

  /** A generator's answer after the `if (!result) throw` check. */
  function Checked(reply: Reply): (r: Reply)
    ensures r.Resolved? <==> reply.Resolved? && Truthy(reply.value)
    ensures r.Resolved? ==> r == reply
  {
    if reply.Resolved? && Truthy(reply.value) then reply else Rejected
  }

  /** The answer of the generator `runSimpleGeneration` calls: `generateRaw`
      with the system prompt beside the prompt when there is one, otherwise
      `generateQuietPrompt` with the system prompt in front of it. */
  function Attempt(prompt: string, backends: Backends): Reply
    requires Available(backends)
  {
    if backends.raw.Some? then backends.raw.value(SystemPrompt, prompt)
    else backends.quiet.value(SystemPrompt + "\n\n" + prompt)
  }

  /** `runSimpleGeneration({ prompt, generateRawFn, generateQuietPrompt })`.
      What it resolves with is truthy, or the empty string when it calls no
      generator. */
  function RunSimpleGeneration(prompt: string, backends: Backends): (r: Reply)
    ensures r.Resolved? ==> Truthy(r.value) || r.value == JStr("")
    ensures prompt == "" || !Available(backends) ==> r == Resolved(JStr(""))
    ensures prompt != "" && Available(backends) ==>
              (r.Resolved? <==> Attempt(prompt, backends).Resolved? && Truthy(Attempt(prompt, backends).value))
    ensures prompt != "" && Available(backends) && r.Resolved? ==> r == Attempt(prompt, backends)
  {
    if prompt == "" then Resolved(JStr(""))
    else if backends.raw.Some? then Checked(backends.raw.value(SystemPrompt, prompt))
    else if backends.quiet.Some? then Checked(backends.quiet.value(SystemPrompt + "\n\n" + prompt))
    else Resolved(JStr(""))
  }

  // ---------------------------------------------------------------------
  // The transcript block

  const NoMessages: string := "[No recent messages provided]"
  const NoText: string := "[No text provided]"

  /** `message?.speaker || \`Speaker ${idx + 1}\``, as the template literal
      prints it. */
  function SpeakerLabel(message: Context.ChatTurn, position: nat): (r: string)
    ensures !Truthy(message.speaker) ==> r == "Speaker " + NatToString(position + 1)
    ensures message.speaker.JStr? && Truthy(message.speaker) ==> r == message.speaker.s
  {
    if Truthy(message.speaker) then ToJsString(message.speaker)
    else "Speaker " + NatToString(position + 1)
  }

  /** `normalizeText(message?.text ?? stringifyPrompt(message?.text)) ??
      '[No text provided]'`. A nullish text stringifies to `''`, which
      `normalizeText` rejects, so only a string with non-whitespace content
      is printed, trimmed. */
  function MessageText(message: Context.ChatTurn): (r: string)
    ensures r != "" && IsTrimmed(r)
    ensures message.text.JStr? && !AllSpace(message.text.s) ==> r == Trim(message.text.s)
    ensures !message.text.JStr? || AllSpace(message.text.s) ==> r == NoText
  {
    var text := Coalesce(message.text, JStr(""));
    match NormalizeText(text)
    case Some(t) => t
    case None => NoText
  }

  /** One transcript line, `${speaker}: ${text}`. */
  function TranscriptLine(message: Context.ChatTurn, position: nat): string {
    SpeakerLabel(message, position) + ": " + MessageText(message)
  }

  function TranscriptLines(messages: seq<Context.ChatTurn>): (r: seq<string>)
    ensures |r| == |messages|
    ensures forall i :: 0 <= i < |r| ==> r[i] == TranscriptLine(messages[i], i)
  {
    seq(|messages|, i requires 0 <= i < |messages| => TranscriptLine(messages[i], i))
  }

  /** `buildTranscriptBlock(snapshot)`: the lines joined by newlines, or the
      placeholder when there are no messages. Never empty. */
  function TranscriptBlock(messages: seq<Context.ChatTurn>): (r: string)
    ensures r != ""
    ensures |messages| == 0 ==> r == NoMessages
  {
    if |messages| == 0 then NoMessages
    else
      var lines := TranscriptLines(messages);
      assert |lines[0]| > 0 by { assert lines[0] == TranscriptLine(messages[0], 0); }
      JoinFirst(lines, "\n");
      Join(lines, "\n")
  }

  lemma {:induction false} JoinFirst(parts: seq<string>, sep: string)
    requires |parts| > 0
    ensures |Join(parts, sep)| >= |parts[0]| && Join(parts, sep)[..|parts[0]|] == parts[0]
  {
    if |parts| > 1 {
      JoinEnds(parts, sep);
    }
  }

  // ---------------------------------------------------------------------
  // The resolved inputs of the prompts

  const NoCharacterDescription: string := "No character description provided."
  const NoUserDescription: string := "No user description provided."

  /** An optional snapshot string as the host value it is read as. */
  function ValueOf(o: Option<string>): JValue {
    match o case Some(s) => JStr(s) case None => JNull
  }

  /** `normalizeText(prompt) ?? defaultSettings.prompt`: the directive is the
      trimmed prompt when it has content, else the default prompt. */
  function Directive(prompt: JValue): (r: string)
    ensures r != "" && IsTrimmed(r)
    ensures prompt.JStr? && !AllSpace(prompt.s) ==> r == Trim(prompt.s)
    ensures !prompt.JStr? || AllSpace(prompt.s) ==> r == Settings.DefaultPrompt
  {
    Settings.DefaultPromptIsTrimmed();
    match NormalizeText(prompt)
    case Some(d) => d
    case None => Settings.DefaultPrompt
  }

  /** `normalizeText(snapshot?.persona?.description) ?? null` */
  function PersonaText(snapshot: Context.Snapshot): (r: Option<string>)
    ensures r.Some? ==> r.value != "" && IsTrimmed(r.value)
  {
    NormalizeText(ValueOf(snapshot.persona.description))
  }

  /** The character description of the prompts: the snapshot's, trimmed,
      or the placeholder. */
  function CharacterDescriptionText(snapshot: Context.Snapshot): (r: string)
    ensures r != "" && IsTrimmed(r)
    ensures NormalizeText(ValueOf(snapshot.characterDescription)).None? ==> r == NoCharacterDescription
    ensures snapshot.characterDescription.Some? && !AllSpace(snapshot.characterDescription.value) ==>
              r == Trim(snapshot.characterDescription.value)
  {
    match NormalizeText(ValueOf(snapshot.characterDescription))
    case Some(d) => d
    case None => NoCharacterDescription
  }

  /** The user description of the prompts: the snapshot's, else the
      persona's, trimmed, else the placeholder. */
  function UserDescriptionText(snapshot: Context.Snapshot): (r: string)
    ensures r != "" && IsTrimmed(r)
    ensures NormalizeText(ValueOf(snapshot.userDescription)).Some?
            ==> r == NormalizeText(ValueOf(snapshot.userDescription)).value
    ensures NormalizeText(ValueOf(snapshot.userDescription)).None? && PersonaText(snapshot).Some?
            ==> r == PersonaText(snapshot).value
    ensures NormalizeText(ValueOf(snapshot.userDescription)).None? && PersonaText(snapshot).None?
            ==> r == NoUserDescription
  {
    match NormalizeText(ValueOf(snapshot.userDescription))
    case Some(d) => d
    case None =>
      match PersonaText(snapshot)
      case Some(p) => p
      case None => NoUserDescription
  }

  /** Everything the section prompts are built from. */
  datatype PromptInputs = PromptInputs(
    directive: string,
    persona: Option<string>,
    characterDescription: string,
    userDescription: string,
    transcript: string
  )

  function InputsOf(prompt: JValue, snapshot: Context.Snapshot): PromptInputs {
    PromptInputs(
      Directive(prompt),
      PersonaText(snapshot),
      CharacterDescriptionText(snapshot),
      UserDescriptionText(snapshot),
      TranscriptBlock(snapshot.messages))
  }

  // ---------------------------------------------------------------------
  // The section prompts

  datatype Section = Scene | Character | User

  /** The sections in the order `Object.entries(sectionPrompts)` visits
      them. */
  const Sections: seq<Section> := [Scene, Character, User]

  function SectionName(section: Section): string {
    match section
    case Scene => "scene"
    case Character => "character"
    case User => "user"
  }

  const Header: string :=
    "IGNORE ALL PREVIOUS INSTRUCTIONS."
    + " OUTPUT ONLY LOWERCASE"
    + " COMMA-SEPARATED TAGS."

  /** The closing line of each prompt. */
  function Unavailable(section: Section): string {
    "If you cannot comply, output \"" + SectionName(section) + " tags unavailable\"."
  }

  const DirectiveLabel: string := "Overall directive tags: "
  const PersonaTagsLabel: string := "User persona context tags: "
  const CharacterLabel: string := "Character background:\n"
  const ReferenceLabel: string := "User persona reference" + " (context only, do not tag user):\n"
  const UserInfoLabel: string := "User persona information:\n"
  const PersonaDetailsLabel: string := "Additional persona details:\n"
  const DialogueLabel: string := "Recent dialogue context:\n"

  /** `cond ? line : null` */
  function When(cond: bool, line: string): Option<string> {
    if cond then Some(line) else None
  }

  /** A persona line, present only for a (truthy) persona. */
  function PersonaLine(persona: Option<string>, prefix: string): Option<string> {
    When(persona.Some? && persona.value != "", prefix + OrEmpty(persona))
  }

  const SceneRules: string :=
    "Strict rules: no sentences, no narration,"
    + " no quotes, no conjunctions,"
    + " no story continuation. Tags only."
  const SceneTask: string :=
    "Describe the entire scene with tags for"
    + " environment, weather, lighting, mood,"
    + " camera angle, character count,"
    + " major actions, and notable props."
  const SceneExample: string :=
    "Example: moonlit forest, mist,"
    + " 2 characters, walking together,"
    + " cinematic lighting."
  const CharacterRules: string :=
    "Describe ONLY the non-user character(s)."
    + " Do not mention the user persona"
    + " or any narrative text."
  const CharacterTask: string :=
    "Include tags for count, gender, physique,"
    + " clothing, expression, pose, and props."
  const CharacterExample: string :=
    "Example: 1girl, silver hair, battle armor,"
    + " determined expression, sword ready,"
    + " dynamic pose."
  const UserRules: string :=
    "Describe ONLY the user persona."
    + " Do not mention other characters"
    + " or narrative text."
  const UserTask: string :=
    "Include tags for appearance, clothing,"
    + " mood, pose, props, and camera framing."
  const UserExample: string :=
    "Example: 1woman, rune-stitched robe,"
    + " mischievous smile, holding wand,"
    + " dim light, full length."

  function SceneLines(inputs: PromptInputs): seq<Option<string>> {
    [ Some(Header),
      Some(SceneRules),
      When(inputs.directive != "", DirectiveLabel + inputs.directive),
      PersonaLine(inputs.persona, PersonaTagsLabel),
      Some(SceneTask),
      Some(SceneExample),
      Some(DialogueLabel + inputs.transcript),
      Some(Unavailable(Scene)) ]
  }

  function CharacterLines(inputs: PromptInputs): seq<Option<string>> {
    [ Some(Header),
      Some(CharacterRules),
      Some(CharacterLabel + inputs.characterDescription),
      Some(ReferenceLabel + inputs.userDescription),
      Some(CharacterTask),
      Some(CharacterExample),
      Some(DialogueLabel + inputs.transcript),
      Some(Unavailable(Character)) ]
  }

  function UserLines(inputs: PromptInputs): seq<Option<string>> {
    [ Some(Header),
      Some(UserRules),
      Some(UserInfoLabel + inputs.userDescription),
      PersonaLine(inputs.persona, PersonaDetailsLabel),
      Some(UserTask),
      Some(UserExample),
      Some(DialogueLabel + inputs.transcript),
      Some(Unavailable(User)) ]
  }

  function Lines(section: Section, inputs: PromptInputs): seq<Option<string>> {
    match section
    case Scene => SceneLines(inputs)
    case Character => CharacterLines(inputs)
    case User => UserLines(inputs)
  }

  /** `.filter(Boolean)` over the lines: the null and empty lines are
      dropped, the others kept in order. */
  function Present(lines: seq<Option<string>>): (r: seq<string>)
    ensures |r| <= |lines|
    ensures forall k :: 0 <= k < |r| ==> r[k] != "" && Some(r[k]) in lines
    ensures forall k :: 0 <= k < |lines| && lines[k].Some? && lines[k].value != "" ==> lines[k].value in r
  {
    if |lines| == 0 then []
    else
      var rest := Present(lines[1..]);
      assert forall k :: 0 < k < |lines| ==> lines[k] == lines[1..][k - 1];
      (if lines[0].Some? && lines[0].value != "" then [lines[0].value] else []) + rest
  }

  /** The prompt of a section: its present lines joined by blank lines. */
  function SectionPrompt(section: Section, inputs: PromptInputs): string {
    Join(Present(Lines(section, inputs)), "\n\n")
  }

  // ---------------------------------------------------------------------
  // Combining the outputs

  datatype Outputs = Outputs(scene: string, character: string, user: string)

  function Field(outputs: Outputs, section: Section): string {
    match section
    case Scene => outputs.scene
    case Character => outputs.character
    case User => outputs.user
  }

  /** `outputs[section] = text` */
  function WithField(outputs: Outputs, section: Section, text: string): (r: Outputs)
    ensures Field(r, section) == text
    ensures forall other :: other != section ==> Field(r, other) == Field(outputs, other)
  {
    match section
    case Scene => outputs.(scene := text)
    case Character => outputs.(character := text)
    case User => outputs.(user := text)
  }

  /** `a || b` on strings. */
  function OrElse(a: string, b: string): (r: string)
    ensures r != "" <==> a != "" || b != ""
  {
    if a != "" then a else b
  }

  /** What the loop stores for one section: the generated text as a tag
      list, or `''` where the generation threw or produced no text. */
  function SectionText(reply: Reply): (r: string)
    ensures reply.Rejected? ==> r == ""
    ensures reply.Resolved? && !reply.value.JStr? ==> r == ""
    ensures reply.Resolved? && reply.value.JStr? ==> r == FormatTagList([Trim(reply.value.s)])
  {
    match reply
    case Rejected => ""
    case Resolved(v) =>
      FormatTagListOfEmpty();
      FormatTagList([OrEmpty(NormalizeText(v))])
  }

  /** A section's text is empty when the generator produced no usable text,
      and is otherwise already in the canonical tag form. */
  lemma SectionTextIsCanonical(reply: Reply)
    ensures reply.Resolved? && NormalizeText(reply.value).None? ==> SectionText(reply) == ""
    ensures FormatTagList([SectionText(reply)]) == SectionText(reply)
  {
    match reply
    case Rejected =>
      FormatTagListOfEmpty();
    case Resolved(v) =>
      if NormalizeText(v).None? {
        FormatTagListOfEmpty();
      }
      FormatTagListIdempotent([OrEmpty(NormalizeText(v))]);
  }

  lemma FormatTagListOfEmpty()
    ensures FormatTagList([""]) == ""
  {
    FormatTagListOfSeparators([""]);
  }

  /** The output of one section's generation. */
  function SectionResult(section: Section, inputs: PromptInputs, backends: Backends): string {
    SectionText(RunSimpleGeneration(SectionPrompt(section, inputs), backends))
  }

  const DirectiveWord: string := "directive"

  /** `buildFallbackScene(basePrompt, transcriptBlock)` */
  function FallbackScene(directive: string, transcript: string): string {
    var parts := Present([When(directive != "", DirectiveWord + " " + directive),
                          When(transcript != "", "dialogue " + transcript)]);
    var joined := Join(parts, ", ");
    FormatTagList([OrElse(joined, OrElse(directive, "scene"))])
  }

  /** What replaces a section whose generation produced nothing. */
  function SectionFallback(section: Section, inputs: PromptInputs): string {
    match section
    case Scene => FallbackScene(inputs.directive, inputs.transcript)
    case Character => inputs.characterDescription
    case User => inputs.userDescription
  }

  /** `buildFallbackOutputs(prompt, snapshot)` as written: the `||` default
      is applied before formatting, to a description that is never empty. */
  function FallbackOutputsAsWritten(prompt: JValue, snapshot: Context.Snapshot): Outputs {
    var inputs := InputsOf(prompt, snapshot);
    Outputs(
      FallbackScene(inputs.directive, inputs.transcript),
      FormatTagList([OrElse(inputs.characterDescription, "character")]),
      FormatTagList([OrElse(inputs.userDescription, "user")]))
  }

  /** `buildFallbackOutputs(prompt, snapshot)` with the default applied to
      the formatted tags, so that a description with no tag in it still
      gives `character` and `user`. */
  function FallbackOutputs(prompt: JValue, snapshot: Context.Snapshot): Outputs {
    var inputs := InputsOf(prompt, snapshot);
    Outputs(
      FallbackScene(inputs.directive, inputs.transcript),
      OrElse(FormatTagList([inputs.characterDescription]), "character"),
      OrElse(FormatTagList([inputs.userDescription]), "user"))
  }

  /** What the sections' generations give, section by section. */
  function Generated(inputs: PromptInputs, backends: Backends): Outputs {
    Outputs(SectionResult(Scene, inputs, backends),
            SectionResult(Character, inputs, backends),
            SectionResult(User, inputs, backends))
  }

  /** The returned object: each section's generated text, or its fallback
      where that text is empty. */
  function Combine(generated: Outputs, inputs: PromptInputs): Outputs {
    Outputs(
      OrElse(generated.scene, SectionFallback(Scene, inputs)),
      OrElse(generated.character, SectionFallback(Character, inputs)),
      OrElse(generated.user, SectionFallback(User, inputs)))
  }

  /** The result of `generateStructuredOutputs(prompt, snapshot)`. */
  function StructuredOutputs(prompt: JValue, snapshot: Context.Snapshot, backends: Backends): Outputs {
    if !Available(backends) then FallbackOutputsAsWritten(prompt, snapshot)
    else
      var inputs := InputsOf(prompt, snapshot);
      Combine(Generated(inputs, backends), inputs)
  }

  /** The loop over the sections: each section's generated text, in
      `outputs[section]`, every section tried whatever happened to the
      others. */
  method GenerateSections(inputs: PromptInputs, backends: Backends) returns (generated: Outputs)
    ensures generated == Generated(inputs, backends)
  {
    ghost var results := Generated(inputs, backends);
    generated := Outputs("", "", "");
    for i := 0 to |Sections|
      invariant generated.scene == if i > 0 then results.scene else ""
      invariant generated.character == if i > 1 then results.character else ""
      invariant generated.user == if i > 2 then results.user else ""
    {
      var section := Sections[i];
      var text := SectionResult(section, inputs, backends);
      FieldOfGenerated(inputs, backends, section);
      generated := WithField(generated, section, text);
    }
  }

  lemma FieldOfGenerated(inputs: PromptInputs, backends: Backends, section: Section)
    ensures Field(Generated(inputs, backends), section) == SectionResult(section, inputs, backends)
  {
  }

  /** `generateStructuredOutputs(prompt, snapshot)`: without a generator it
      returns the fallback outputs; otherwise it generates the sections one
      after the other, a failure in one leaving only that section empty,
      and replaces each empty section by its fallback. */
  method GenerateStructuredOutputs(prompt: JValue, snapshot: Context.Snapshot, backends: Backends)
    returns (outputs: Outputs)
    ensures outputs == StructuredOutputs(prompt, snapshot, backends)
  {
    if !Available(backends) {
      return FallbackOutputsAsWritten(prompt, snapshot);
    }
    var inputs := InputsOf(prompt, snapshot);
    var generated := GenerateSections(inputs, backends);
    outputs := Combine(generated, inputs);
  }

  // ---------------------------------------------------------------------
  // The generator dispatch

  /** With `generateRaw` available the quiet-prompt generator is never
      consulted. */
  lemma RunPrefersRaw(prompt: string, backends: Backends, quiet: Option<string -> Reply>)
    requires backends.raw.Some?
    ensures RunSimpleGeneration(prompt, backends) == RunSimpleGeneration(prompt, backends.(quiet := quiet))
  {
  }

  /** An empty prompt resolves with `''` whatever the generators are. */
  lemma RunEmptyPrompt(first: Backends, second: Backends)
    ensures RunSimpleGeneration("", first) == RunSimpleGeneration("", second) == Resolved(JStr(""))
  {
  }

  /** A generator that resolves with a falsy value makes the run throw. */
  lemma RunFalsyThrows(prompt: string, backends: Backends)
    requires prompt != "" && Available(backends)
    requires Attempt(prompt, backends).Resolved? && !Truthy(Attempt(prompt, backends).value)
    ensures RunSimpleGeneration(prompt, backends) == Rejected
  {
  }

  /** A generator that resolves with a truthy value makes the run resolve
      with that very value. */
  lemma RunTruthyResolves(prompt: string, backends: Backends, v: JValue)
    requires prompt != "" && Available(backends)
    requires Attempt(prompt, backends) == Resolved(v) && Truthy(v)
    ensures RunSimpleGeneration(prompt, backends) == Resolved(v)
  {
  }

  // ---------------------------------------------------------------------
  // The transcript

  /** When no line holds a newline, splitting the block on newlines gives
      one `speaker: text` line per message, in order. */
  lemma TranscriptRoundTrip(messages: seq<Context.ChatTurn>)
    requires |messages| > 0
    requires forall i :: 0 <= i < |messages| ==> '\n' !in TranscriptLine(messages[i], i)
    ensures Config.Split(TranscriptBlock(messages), "\n") == TranscriptLines(messages)
  {
    var lines := TranscriptLines(messages);
    Config.SplitOfJoin(lines, '\n');
  }

  /** Each line names its speaker, a falsy speaker as `Speaker <n>` with
      `n` counting from one, and ends with the message's text. */
  lemma TranscriptLineParts(message: Context.ChatTurn, position: nat)
    ensures var line := TranscriptLine(message, position);
            var speaker := SpeakerLabel(message, position);
            |line| > |speaker| + 2
            && line[..|speaker|] == speaker
            && line[|speaker|..|speaker| + 2] == ": "
            && line[|speaker| + 2..] == MessageText(message)
  {
    ConcatParts(SpeakerLabel(message, position), ": ", MessageText(message));
  }

  lemma ConcatParts(a: string, b: string, c: string)
    ensures var s := a + b + c;
            |s| == |a| + |b| + |c|
            && s[..|a|] == a && s[|a|..|a| + |b|] == b && s[|a| + |b|..] == c
  {
  }

  // ---------------------------------------------------------------------
  // The directive and descriptions

  /** Feeding the directive back as the prompt gives the same directive. */
  lemma DirectiveIdempotent(prompt: JValue)
    ensures Directive(JStr(Directive(prompt))) == Directive(prompt)
  {
    var d := Directive(prompt);
    TrimOfTrimmed(d);
    assert !AllSpace(d) by { assert !IsSpace(d[0]); }
  }

  // ---------------------------------------------------------------------
  // The prompts

  /** `Present` keeps the first line when it is non-empty, and the last. */
  lemma PresentEnds(lines: seq<Option<string>>)
    requires |lines| >= 2
    requires lines[0].Some? && lines[0].value != ""
    requires lines[|lines| - 1].Some? && lines[|lines| - 1].value != ""
    ensures var r := Present(lines);
            |r| >= 2 && r[0] == lines[0].value && r[|r| - 1] == lines[|lines| - 1].value
  {
    PresentLast(lines[1..]);
  }

  lemma {:induction false} PresentLast(lines: seq<Option<string>>)
    requires |lines| >= 1
    requires lines[|lines| - 1].Some? && lines[|lines| - 1].value != ""
    ensures var r := Present(lines);
            |r| >= 1 && r[|r| - 1] == lines[|lines| - 1].value
  {
    if |lines| > 1 {
      assert lines[1..][|lines| - 2] == lines[|lines| - 1];
      PresentLast(lines[1..]);
    }
  }

  /** `Present` keeps the kept lines in their order: filtering two blocks of
      lines one after the other is filtering each block and concatenating. */
  lemma {:induction false} PresentAppend(first: seq<Option<string>>, second: seq<Option<string>>)
    ensures Present(first + second) == Present(first) + Present(second)
  {
    if |first| > 0 {
      assert (first + second)[1..] == first[1..] + second;
      PresentAppend(first[1..], second);
    } else {
      assert first + second == second;
    }
  }

  /** A single line is kept exactly when it is present and non-empty. */
  lemma PresentSingle(line: Option<string>)
    ensures Present([line]) == if line.Some? && line.value != "" then [line.value] else []
  {
    assert [line][1..] == [];
  }

  /** Every section prompt opens with the same instruction line and closes
      with its own `<section> tags unavailable` line, each set off by a
      blank line. */
  lemma {:induction false} PromptFrame(section: Section, inputs: PromptInputs)
    ensures Framed(SectionPrompt(section, inputs), Header, Unavailable(section))
  {
    LinesFrame(section, inputs);
    JoinedFrame(Lines(section, inputs), Header, Unavailable(section));
  }

  /** `p` opens with `first` and a blank line, and closes with a blank line
      and `last`. */
  predicate Framed(p: string, first: string, last: string) {
    && |p| >= |first| + 2 + |last|
    && p[..|first| + 2] == first + "\n\n"
    && p[|p| - 2 - |last|..] == "\n\n" + last
  }

  lemma LinesFrame(section: Section, inputs: PromptInputs)
    ensures var lines := Lines(section, inputs);
            |lines| == 8 && lines[0] == Some(Header) && lines[7] == Some(Unavailable(section))
    ensures Header != "" && Unavailable(section) != ""
  {
    match section
    case Scene =>
    case Character =>
    case User =>
  }

  lemma {:induction false} JoinedFrame(lines: seq<Option<string>>, first: string, last: string)
    requires |lines| >= 2 && first != "" && last != ""
    requires lines[0] == Some(first) && lines[|lines| - 1] == Some(last)
    ensures Framed(Join(Present(lines), "\n\n"), first, last)
  {
    PresentEnds(lines);
    var present := Present(lines);
    JoinEnds(present, "\n\n");
    JoinLength(present, "\n\n");
  }

  /** A join of two or more parts is at least as long as its first part, the
      separator and its last part. */
  lemma {:induction false} JoinLength(parts: seq<string>, sep: string)
    requires |parts| >= 2
    ensures |Join(parts, sep)| >= |parts[0]| + |sep| + |parts[|parts| - 1]|
    decreases |parts|
  {
    if |parts| > 2 {
      assert parts[1..][|parts| - 2] == parts[|parts| - 1];
      JoinLength(parts[1..], sep);
    }
  }

  /** The scene prompt carries the persona line exactly when there is a
      persona. */
  lemma {:induction false} ScenePersonaLine(inputs: PromptInputs, persona: string)
    ensures PersonaTagsLabel + persona in Present(SceneLines(inputs))
            <==> inputs.persona == Some(persona) && persona != ""
  {
    var lines := SceneLines(inputs);
    var line := PersonaTagsLabel + persona;
    assert line[0] == 'U';
    OnlyLineWith(lines, 3, line);
    assert lines[3] == Some(line) ==> line[|PersonaTagsLabel|..] == persona;
    SceneLineStarts(inputs);
  }

  lemma SceneLineStarts(inputs: PromptInputs)
    ensures forall k :: 0 <= k < 8 && k != 3 ==> !StartsWith(SceneLines(inputs)[k], 'U')
  {
    assert Header[0] == 'I' && SceneRules[0] == 'S' && DirectiveLabel[0] == 'O';
    assert SceneTask[0] == 'D' && SceneExample[0] == 'E' && DialogueLabel[0] == 'R';
    assert Unavailable(Scene)[0] == 'I';
  }

  /** A line that no other line can equal is present exactly when its own
      slot holds it. */
  lemma OnlyLineWith(lines: seq<Option<string>>, k: nat, line: string)
    requires k < |lines| && line != ""
    requires forall j :: 0 <= j < |lines| && j != k ==> !StartsWith(lines[j], line[0])
    ensures line in Present(lines) <==> lines[k] == Some(line)
  {
    if line in Present(lines) {
      var j :| 0 <= j < |lines| && lines[j] == Some(line);
      assert StartsWith(lines[j], line[0]);
    }
  }

  /** The line is present and starts with `c`. */
  predicate StartsWith(line: Option<string>, c: char) {
    line.Some? && line.value != "" && line.value[0] == c
  }

  /** The user prompt carries the additional-persona block exactly when
      there is a persona. */
  lemma {:induction false} UserPersonaLine(inputs: PromptInputs, persona: string)
    ensures PersonaDetailsLabel + persona in Present(UserLines(inputs))
            <==> inputs.persona == Some(persona) && persona != ""
  {
    var lines := UserLines(inputs);
    var line := PersonaDetailsLabel + persona;
    assert line[0] == 'A';
    UserLineStarts(inputs);
    OnlyLineWith(lines, 3, line);
    assert lines[3] == Some(line) ==> line[|PersonaDetailsLabel|..] == persona;
  }

  lemma UserLineStarts(inputs: PromptInputs)
    ensures forall k :: 0 <= k < 8 && k != 3 ==> !StartsWith(UserLines(inputs)[k], 'A')
  {
    assert Header[0] == 'I' && UserRules[0] == 'D' && UserInfoLabel[0] == 'U';
    assert UserTask[0] == 'I' && UserExample[0] == 'E' && DialogueLabel[0] == 'R';
    assert Unavailable(User)[0] == 'I';
  }

  /** In the character prompt the user description is the reference block
      labelled "context only, do not tag user", and no other line depends on
      it. */
  lemma CharacterPromptUserReference(inputs: PromptInputs, other: string)
    ensures var lines := CharacterLines(inputs);
            var changed := CharacterLines(inputs.(userDescription := other));
            && |lines| == |changed| == 8
            && lines[3] == Some(ReferenceLabel + inputs.userDescription)
            && forall k :: 0 <= k < 8 && k != 3 ==> lines[k] == changed[k]
  {
  }

  /** The scene prompt uses neither description; the character prompt does
      not use the persona. */
  lemma PromptDependencies(inputs: PromptInputs, character: string, user: string, persona: Option<string>)
    ensures SectionPrompt(Scene, inputs.(characterDescription := character, userDescription := user))
            == SectionPrompt(Scene, inputs)
    ensures SectionPrompt(Character, inputs.(persona := persona)) == SectionPrompt(Character, inputs)
  {
  }

  // ---------------------------------------------------------------------
  // The outputs

  lemma DirectiveIsWord()
    ensures IsWord(DirectiveWord)
  {
  }

  /** The fallback scene starts with the `directive` tag. */
  lemma FallbackSceneStartsWithDirective(directive: string, transcript: string)
    requires directive != ""
    ensures var r := FallbackScene(directive, transcript);
            |r| >= |DirectiveWord| && r[..|DirectiveWord|] == DirectiveWord
  {
    var first := DirectiveWord + " " + directive;
    var parts := Present([When(true, first), When(transcript != "", "dialogue " + transcript)]);
    assert parts[0] == first;
    var joined := Join(parts, ", ");
    JoinFirst(parts, ", ");
    assert joined[..|DirectiveWord|] == DirectiveWord by {
      assert joined[..|DirectiveWord|] == joined[..|first|][..|DirectiveWord|];
    }
    var z := joined[|DirectiveWord|..];
    assert joined == DirectiveWord + z;
    DirectiveIsWord();
    FormatTagListLeadingWord(DirectiveWord, z);
  }

  /** A section whose generation threw, or produced no text, falls back. */
  lemma FailedSectionFallsBack(prompt: JValue, snapshot: Context.Snapshot, backends: Backends, section: Section)
    requires Available(backends)
    requires var reply := RunSimpleGeneration(SectionPrompt(section, InputsOf(prompt, snapshot)), backends);
             reply.Rejected? || NormalizeText(reply.value).None?
    ensures Field(StructuredOutputs(prompt, snapshot, backends), section)
            == SectionFallback(section, InputsOf(prompt, snapshot))
  {
    var inputs := InputsOf(prompt, snapshot);
    SectionTextIsCanonical(RunSimpleGeneration(SectionPrompt(section, inputs), backends));
  }

  /** Failure isolation: a section's output depends on its own generation
      only, so two runs whose generators agree on one section's prompt give
      that section the same output, whatever happens to the others. */
  lemma SectionIsolation(prompt: JValue, snapshot: Context.Snapshot, first: Backends, second: Backends, section: Section)
    requires Available(first) && Available(second)
    requires var p := SectionPrompt(section, InputsOf(prompt, snapshot));
             RunSimpleGeneration(p, first) == RunSimpleGeneration(p, second)
    ensures Field(StructuredOutputs(prompt, snapshot, first), section)
            == Field(StructuredOutputs(prompt, snapshot, second), section)
  {
  }

  /** A section whose generation resolved with text that still holds a tag
      keeps that text, trimmed and formatted as a tag list, instead of its
      fallback. */
  lemma GeneratedSectionKept(prompt: JValue, snapshot: Context.Snapshot, backends: Backends, section: Section, s: string)
    requires Available(backends)
    requires RunSimpleGeneration(SectionPrompt(section, InputsOf(prompt, snapshot)), backends) == Resolved(JStr(s))
    requires FormatTagList([Trim(s)]) != ""
    ensures Field(StructuredOutputs(prompt, snapshot, backends), section) == FormatTagList([Trim(s)])
  {
    var inputs := InputsOf(prompt, snapshot);
    var generated := Generated(inputs, backends);
    FieldOfGenerated(inputs, backends, section);
    assert Field(generated, section) == FormatTagList([Trim(s)]);
    FieldOfCombine(generated, inputs, section);
  }

  lemma FieldOfCombine(generated: Outputs, inputs: PromptInputs, section: Section)
    ensures Field(Combine(generated, inputs), section) == OrElse(Field(generated, section), SectionFallback(section, inputs))
  {
  }

  /** With a generator, all three outputs are non-empty. */
  lemma OutputsNonEmpty(prompt: JValue, snapshot: Context.Snapshot, backends: Backends)
    requires Available(backends)
    ensures var r := StructuredOutputs(prompt, snapshot, backends);
            r.scene != "" && r.character != "" && r.user != ""
  {
    var inputs := InputsOf(prompt, snapshot);
    CombineNonEmpty(Generated(inputs, backends), inputs);
  }

  lemma CombineNonEmpty(generated: Outputs, inputs: PromptInputs)
    requires inputs.directive != "" && inputs.characterDescription != "" && inputs.userDescription != ""
    ensures var r := Combine(generated, inputs);
            r.scene != "" && r.character != "" && r.user != ""
  {
    FallbackSceneStartsWithDirective(inputs.directive, inputs.transcript);
  }

  /** As written, the fallback outputs can leave the character (and, the
      same way, the user) section empty: a description made only of
      separators, such as `"."`, yields no tag. */
  lemma FallbackAsWrittenCanBeEmpty(prompt: JValue, snapshot: Context.Snapshot, backends: Backends)
    requires !Available(backends)
    requires snapshot.characterDescription == Some(".")
    ensures StructuredOutputs(prompt, snapshot, backends).character == ""
  {
    DotDescription(snapshot);
    DotFormatsToNothing();
  }

  lemma DotDescription(snapshot: Context.Snapshot)
    requires snapshot.characterDescription == Some(".")
    ensures CharacterDescriptionText(snapshot) == "."
  {
    var v := ValueOf(snapshot.characterDescription);
    assert v == JStr(".");
    assert IsTrimmed(".");
    TrimOfTrimmed(".");
    assert NormalizeText(v) == Some(".");
  }

  lemma DotFormatsToNothing()
    ensures FormatTagList([OrElse(".", "character")]) == ""
  {
    FormatTagListOfSeparators(["."]);
  }

  /** The corrected fallback outputs are all non-empty, and agree with the
      written ones wherever those are non-empty. */
  lemma FallbackOutputsNonEmpty(prompt: JValue, snapshot: Context.Snapshot)
    ensures var r := FallbackOutputs(prompt, snapshot);
            r.scene != "" && r.character != "" && r.user != ""
    ensures var r := FallbackOutputs(prompt, snapshot);
            var w := FallbackOutputsAsWritten(prompt, snapshot);
            r.scene == w.scene
            && (w.character != "" ==> r.character == w.character)
            && (w.user != "" ==> r.user == w.user)
  {
    var inputs := InputsOf(prompt, snapshot);
    FallbackSceneStartsWithDirective(inputs.directive, inputs.transcript);
  }

  /** `generateStructuredOutputs` with the corrected fallback outputs: the
      same as written whenever a generator is available. */
  function CorrectedStructuredOutputs(prompt: JValue, snapshot: Context.Snapshot, backends: Backends): Outputs {
    if !Available(backends) then FallbackOutputs(prompt, snapshot)
    else StructuredOutputs(prompt, snapshot, backends)
  }

  /** With the corrected fallback, all three outputs are non-empty with a
      generator or without one, and only an empty written output changes. */
  lemma CorrectedOutputsNonEmpty(prompt: JValue, snapshot: Context.Snapshot, backends: Backends)
    ensures var r := CorrectedStructuredOutputs(prompt, snapshot, backends);
            r.scene != "" && r.character != "" && r.user != ""
    ensures var r := CorrectedStructuredOutputs(prompt, snapshot, backends);
            var w := StructuredOutputs(prompt, snapshot, backends);
            r.scene == w.scene
            && (w.character != "" ==> r.character == w.character)
            && (w.user != "" ==> r.user == w.user)
  {
    if Available(backends) {
      OutputsNonEmpty(prompt, snapshot, backends);
    } else {
      FallbackOutputsNonEmpty(prompt, snapshot);
    }
  }
}
