/** Context resolution (context.js): turns the host's loosely typed context
    object into a snapshot of the recent chat turns, the user (persona)
    description and the character description. */
module Context {
  import opened Strings
  import opened Json
  import opened Text

  /** What the host provides. `context` is what `getSTContext()` returned
      (`null` when there is none). The imported `power_user`, the global
      `power_user`, the persona module's `user_avatar` and `getUserAvatar`
      are given explicitly, and so is `context.getCharacterCardFields` when
      the context carries such a function. */
  datatype Host = Host(
    context: JValue,
    powerUserImport: JValue,
    powerUserGlobal: JValue,
    userAvatar: JValue,
    avatarOf: string -> JValue,
    cardFields: Option<JValue -> JValue>)

  /** The persona part of the snapshot; the two host callbacks it also
      carries (`refreshPersonas`, `setPersona`) are not modelled. */
  datatype PersonaInfo = PersonaInfo(
    id: Option<string>,
    name: JValue,
    description: Option<string>,
    avatar: JValue)

  /** One message of the snapshot, with its index in the chat log. */
  datatype ChatTurn = ChatTurn(index: nat, speaker: JValue, text: JValue)

  datatype Snapshot = Snapshot(
    messages: seq<ChatTurn>,
    userDescription: Option<string>,
    characterDescription: Option<string>,
    persona: PersonaInfo)

  /** A qualifying chat entry and its index in the log. */
  datatype Indexed = Indexed(entry: JValue, idx: nat)

  // ---------------------------------------------------------------------
  // Host lookups

  /** `getPowerUserSettings(context)`: the first truthy of the context's two
      power-user properties and the two power-user globals, else `null`. */
  function PowerUserSettings(host: Host): (r: JValue)
    ensures Truthy(r) || r == JNull
    ensures Truthy(Get(host.context, "powerUserSettings")) ==> r == Get(host.context, "powerUserSettings")
    ensures (!Truthy(Get(host.context, "powerUserSettings")) && !Truthy(Get(host.context, "power_user"))
             && !Truthy(host.powerUserImport) && !Truthy(host.powerUserGlobal)) ==> r == JNull
  {
    Or(Or(Or(Or(Get(host.context, "powerUserSettings"), Get(host.context, "power_user")),
          host.powerUserImport), host.powerUserGlobal), JNull)
  }

  /** The four power-user sources in the order they are tried. */
  function PowerUserSources(host: Host): seq<JValue> {
    [Get(host.context, "powerUserSettings"), Get(host.context, "power_user"),
     host.powerUserImport, host.powerUserGlobal]
  }

  /** The power-user settings are the first truthy source, else `null`. */
  lemma {:induction false} PowerUserSettingsFirstTruthy(host: Host)
    ensures PowerUserSettings(host) == FirstTruthyOr(PowerUserSources(host), JNull)
  {
    var sources := PowerUserSources(host);
    assert sources[1..][1..] == sources[2..];
    assert sources[2..][1..] == sources[3..];
    assert sources[3..][1..] == [];
    FirstTruthyOrStep(sources, JNull);
    FirstTruthyOrStep(sources[1..], JNull);
    FirstTruthyOrStep(sources[2..], JNull);
    FirstTruthyOrStep(sources[3..], JNull);
  }

  /** `getPersonaContext(powerUser)`: the persona selected by a non-empty
      string `user_avatar`, with its normalised description and its name. */
  function PersonaContext(host: Host, powerUser: JValue): (r: PersonaInfo)
    ensures r.id.Some? <==> host.userAvatar.JStr? && host.userAvatar.s != ""
    ensures r.id.None? ==> r.description.None? && r.name == JNull && r.avatar == JNull
    ensures r.description.Some? ==> r.description.value != "" && IsTrimmed(r.description.value)
    ensures r.id.Some? ==>
              var id := host.userAvatar.s;
              var name := Get(Get(powerUser, "personas"), id);
              var description := Get(Get(Get(powerUser, "persona_descriptions"), id), "description");
              && r.id.value == id
              && r.name == (if IsNullish(name) then JNull else name)
              && (description.JStr? && !AllSpace(description.s) ==> r.description == Some(Trim(description.s)))
              && (!description.JStr? || AllSpace(description.s) ==> r.description.None?)
              && r.avatar == host.avatarOf(id)
  {
    if host.userAvatar.JStr? && |host.userAvatar.s| > 0 then
      var id := host.userAvatar.s;
      var descriptor := Get(Get(powerUser, "persona_descriptions"), id);
      PersonaInfo(
        Some(id),
        Coalesce(Get(Get(powerUser, "personas"), id), JNull),
        NormalizeText(Get(descriptor, "description")),
        host.avatarOf(id))
    else
      // the descriptor is `null`, whose description reads as `undefined`
      PersonaInfo(None, JNull, NormalizeText(JUndefined), JNull)
  }

  // ---------------------------------------------------------------------
  // Collections and lookups

  /** `.filter(Boolean)` */
  function FilterTruthy(s: seq<JValue>): (r: seq<JValue>)
    ensures |r| <= |s|
    ensures forall k :: 0 <= k < |r| ==> Truthy(r[k]) && r[k] in s
    ensures (forall k :: 0 <= k < |s| ==> Truthy(s[k])) ==> r == s
    ensures forall k :: 0 <= k < |s| && Truthy(s[k]) ==> s[k] in r
  {
    if |s| == 0 then []
    else
      var rest := FilterTruthy(s[1..]);
      assert forall x :: x in s[1..] ==> x in s;
      assert s == [s[0]] + s[1..];
      (if Truthy(s[0]) then [s[0]] else []) + rest
  }

  /** Filtering distributes over concatenation, so the kept elements stay
      in their order and keep their multiplicity. */
  lemma {:induction false} FilterTruthyAppend(first: seq<JValue>, second: seq<JValue>)
    ensures FilterTruthy(first + second) == FilterTruthy(first) + FilterTruthy(second)
  {
    if |first| > 0 {
      assert (first + second)[1..] == first[1..] + second;
      FilterTruthyAppend(first[1..], second);
    } else {
      assert first + second == second;
    }
  }

  /** A single element is kept exactly when it is truthy. */
  lemma FilterTruthySingle(v: JValue)
    ensures FilterTruthy([v]) == if Truthy(v) then [v] else []
  {
    assert [v][1..] == [];
  }

  /** `flattenCollection(collection)`: the truthy values of a `Map`, an array
      or a plain object; `[]` for anything else. */
  function FlattenCollection(collection: JValue): (r: seq<JValue>)
    ensures forall k :: 0 <= k < |r| ==> Truthy(r[k])
    ensures !Truthy(collection) || collection.JBool? || collection.JNum? || collection.JStr? ==> r == []
    ensures collection.JArr? ==> r == FilterTruthy(collection.elems)
  {
    match collection
    case JMap(values) => FilterTruthy(values)
    case JArr(elems) => FilterTruthy(elems)
    case JObj(fields) => FilterTruthy(Values(fields))
    case _ => []
  }

  /** The index of the first element satisfying `p` (`findIndex`). */
  function FindIndex(s: seq<JValue>, p: JValue -> bool): (r: Option<nat>)
    ensures r.Some? ==> r.value < |s| && p(s[r.value])
    ensures r.Some? ==> forall k :: 0 <= k < r.value ==> !p(s[k])
    ensures r.None? ==> forall k :: 0 <= k < |s| ==> !p(s[k])
  {
    if |s| == 0 then None
    else if p(s[0]) then Some(0)
    else match FindIndex(s[1..], p)
      case None => None
      case Some(k) => Some(k + 1)
  }

  /** `s.find(p)`: the first element satisfying `p`, else `undefined`. */
  function Find(s: seq<JValue>, p: JValue -> bool): (r: JValue)
    ensures FindIndex(s, p).Some? ==> r == s[FindIndex(s, p).value]
    ensures FindIndex(s, p).None? ==> r == JUndefined
  {
    match FindIndex(s, p)
    case Some(k) => s[k]
    case None => JUndefined
  }

  /** A card whose `avatar` or `id` is `characterId`. */
  predicate MatchesCharacterId(card: JValue, characterId: JValue) {
    StrictEquals(Get(card, "avatar"), characterId) || StrictEquals(Get(card, "id"), characterId)
  }

  /** The fallback of `getActiveCharacterCard` once the index misses: for a
      string `characterId`, the first card it matches; else the first card. */
  function CardByIdOrFirst(list: seq<JValue>, characterId: JValue): (r: JValue)
    requires |list| > 0 && forall k :: 0 <= k < |list| ==> Truthy(list[k])
    ensures characterId.JStr? ==>
              forall k :: 0 <= k < |list| && MatchesCharacterId(list[k], characterId)
                          && (forall j :: 0 <= j < k ==> !MatchesCharacterId(list[j], characterId))
                          ==> r == list[k]
    ensures (!characterId.JStr? || forall k :: 0 <= k < |list| ==> !MatchesCharacterId(list[k], characterId))
            ==> r == list[0]
  {
    var found :=
      if characterId.JStr? then Or(Find(list, c => MatchesCharacterId(c, characterId)), JNull)
      else JNull;
    if characterId.JStr? && Truthy(found) then found
    else Or(list[0], JNull)
  }

  /** `getActiveCharacterCard(context)`: the card at `Number(characterId)`
      when that is an index of the flattened list, else the first card whose
      `avatar` or `id` is a string `characterId`, else the first card; `null`
      when there are no cards. */
  function ActiveCharacterCard(context: JValue): (r: JValue)
    ensures var list := FlattenCollection(Get(context, "characters"));
            && (r == JNull <==> |list| == 0)
            && (r != JNull ==> r in list)
            && (var idx := ToInteger(Get(context, "characterId"));
                idx.Some? && 0 <= idx.value < |list| ==> r == list[idx.value])
    ensures var list := FlattenCollection(Get(context, "characters"));
            var idx := ToInteger(Get(context, "characterId"));
            |list| > 0 && !(idx.Some? && 0 <= idx.value < |list|)
            ==> r == CardByIdOrFirst(list, Get(context, "characterId"))
  {
    var list := FlattenCollection(Get(context, "characters"));
    var characterId := Get(context, "characterId");
    if |list| == 0 then JNull
    else
      var idx := ToInteger(characterId);
      if idx.Some? && 0 <= idx.value < |list| then Or(list[idx.value], JNull)
      else CardByIdOrFirst(list, characterId)
  }

  // ---------------------------------------------------------------------
  // Chat entries

  /** The system markers of `isUserOrCharacterMessage`. */
  predicate IsSystemEntry(entry: JValue) {
    || Truthy(Get(entry, "is_system"))
    || StrictEquals(Get(entry, "role"), JStr("system"))
    || StrictEquals(Get(entry, "type"), JStr("system"))
    || StrictEquals(Get(Get(entry, "data"), "role"), JStr("system"))
  }

  /** `isUserOrCharacterMessage(entry)`: a string always qualifies; an entry
      with a system marker never does, whatever its `is_user`; otherwise a
      boolean `is_user` or a `user`/`assistant` role (direct, or under
      `data`) qualifies. */
  predicate IsUserOrCharacterMessage(entry: JValue)
    ensures IsNullish(entry) ==> !IsUserOrCharacterMessage(entry)
    ensures entry.JStr? ==> IsUserOrCharacterMessage(entry)
    ensures !entry.JStr? && IsSystemEntry(entry) ==> !IsUserOrCharacterMessage(entry)
    ensures !entry.JStr? && !IsNullish(entry) && !IsSystemEntry(entry) && Get(entry, "is_user").JBool?
            ==> IsUserOrCharacterMessage(entry)
    ensures IsUserOrCharacterMessage(entry) && !entry.JStr?
            ==> entry.JObj? && (Get(entry, "is_user").JBool?
                                || Get(entry, "role") in {JStr("user"), JStr("assistant")}
                                || Get(Get(entry, "data"), "role") in {JStr("user"), JStr("assistant")})
    ensures !IsNullish(entry) && !entry.JStr? && !IsSystemEntry(entry) && !Get(entry, "is_user").JBool?
            ==> (IsUserOrCharacterMessage(entry) <==>
                   Coalesce(Get(entry, "role"), Get(Get(entry, "data"), "role")) in {JStr("user"), JStr("assistant")})
  {
    if IsNullish(entry) then false
    else if entry.JStr? then true
    else if IsSystemEntry(entry) then false
    else if Get(entry, "is_user").JBool? then true
    else
      var role := Coalesce(Get(entry, "role"), Get(Get(entry, "data"), "role"));
      StrictEquals(role, JStr("assistant")) || StrictEquals(role, JStr("user"))
  }

  /** The entries of a chat log that `keep` accepts, with their indices, in
      log order. */
  function Collect(chat: seq<JValue>, keep: JValue -> bool): (r: seq<Indexed>)
    ensures |r| <= |chat|
    ensures forall k :: 0 <= k < |r| ==>
              r[k].idx < |chat| && chat[r[k].idx] == r[k].entry && keep(r[k].entry)
    ensures forall k, l :: 0 <= k < l < |r| ==> r[k].idx < r[l].idx
  {
    if |chat| == 0 then []
    else
      var n := |chat| - 1;
      var front := Collect(chat[..n], keep);
      assert forall i :: 0 <= i < n ==> chat[..n][i] == chat[i];
      front + (if keep(chat[n]) then [Indexed(chat[n], n)] else [])
  }

  /** What the `forEach` of `captureContextSnapshot` collects: the user and
      character messages. */
  function Relevant(chat: seq<JValue>): seq<Indexed> {
    Collect(chat, IsUserOrCharacterMessage)
  }

  /** `relevantEntries.slice(-5)` */
  function LastFive(entries: seq<Indexed>): (r: seq<Indexed>)
    ensures |r| <= 5 && |r| == if |entries| < 5 then |entries| else 5
    ensures r == entries[|entries| - |r|..]
  {
    if |entries| <= 5 then entries else entries[|entries| - 5..]
  }

  /** The message built for one entry. A string is spoken by `unknown`. An
      object's text is `mes ?? text ?? ''`, and its speaker is its truthy
      `name`, else the user's or the character's name by `is_user`, with
      `You` and `Character` as defaults, so it never falls back to
      `unknown`. */
  function ResolveTurn(context: JValue, e: Indexed): (r: ChatTurn)
    ensures r.index == e.idx
    ensures e.entry.JStr? ==> r.speaker == JStr("unknown") && r.text == e.entry
    ensures !e.entry.JStr? ==> Truthy(r.speaker)
    ensures !e.entry.JStr? && Truthy(Get(e.entry, "name")) ==> r.speaker == Get(e.entry, "name")
    ensures !e.entry.JStr? && !IsNullish(Get(e.entry, "mes")) ==> r.text == Get(e.entry, "mes")
    ensures !e.entry.JStr? && IsNullish(Get(e.entry, "mes")) && !IsNullish(Get(e.entry, "text")) ==> r.text == Get(e.entry, "text")
    ensures !e.entry.JStr? && IsNullish(Get(e.entry, "mes")) && IsNullish(Get(e.entry, "text")) ==> r.text == JStr("")
    ensures !e.entry.JStr? && !Truthy(Get(e.entry, "name")) && Truthy(Get(e.entry, "is_user"))
            ==> r.speaker == (if Truthy(Get(context, "name1")) then Get(context, "name1") else JStr("You"))
    ensures !e.entry.JStr? && !Truthy(Get(e.entry, "name")) && !Truthy(Get(e.entry, "is_user"))
            ==> r.speaker == (if Truthy(Get(context, "name2")) then Get(context, "name2") else JStr("Character"))
  {
    var entry := e.entry;
    if entry.JStr? then ChatTurn(e.idx, JStr("unknown"), entry)
    else
      var text := Coalesce(Coalesce(Get(entry, "mes"), Get(entry, "text")), JStr(""));
      var byRole :=
        if Truthy(Get(entry, "is_user")) then Or(Get(context, "name1"), JStr("You"))
        else Or(Get(context, "name2"), JStr("Character"));
      ChatTurn(e.idx, Or(Or(Get(entry, "name"), byRole), JStr("unknown")), text)
  }

  /** `Array.isArray(context.chat) ? context.chat : []` */
  function ChatLog(context: JValue): seq<JValue> {
    var chat := Get(context, "chat");
    if chat.JArr? then chat.elems else []
  }

  /** The snapshot's messages: the last five qualifying entries, resolved. */
  function Messages(context: JValue): (r: seq<ChatTurn>)
    ensures |r| <= 5
  {
    ResolveAll(context, LastFive(Relevant(ChatLog(context))))
  }

  /** `recentEntries.map(...)`: one message per entry, carrying its index. */
  function ResolveAll(context: JValue, recent: seq<Indexed>): (r: seq<ChatTurn>)
    ensures |r| == |recent|
    ensures forall k :: 0 <= k < |r| ==> r[k].index == recent[k].idx
    ensures forall k :: 0 <= k < |r| ==> r[k] == ResolveTurn(context, recent[k])
  {
    if |recent| == 0 then []
    else [ResolveTurn(context, recent[0])] + ResolveAll(context, recent[1..])
  }

  // ---------------------------------------------------------------------
  // Descriptions

  /** The value of the first candidate that `normalizeText` accepts. */
  function FirstNormalized(values: seq<JValue>): (r: Option<string>)
    ensures r.None? <==> forall k :: 0 <= k < |values| ==> NormalizeText(values[k]).None?
    ensures r.Some? ==> r.value != "" && IsTrimmed(r.value)
  {
    if |values| == 0 then None
    else if NormalizeText(values[0]).Some? then NormalizeText(values[0])
    else
      var rest := FirstNormalized(values[1..]);
      assert forall k :: 0 < k < |values| ==> values[k] == values[1..][k - 1];
      rest
  }

  /** The eight candidate fields of `extractCardDescription`, in order. */
  function CardFields(card: JValue): seq<JValue> {
    var data := Get(card, "data");
    [Get(data, "description"), Get(data, "description_full"), Get(data, "persona"),
     Get(data, "personality"), Get(data, "bio"),
     Get(card, "description"), Get(card, "persona"), Get(card, "bio")]
  }

  /** `extractCardDescription(card)` */
  function CardDescription(card: JValue): (r: Option<string>)
    ensures !Truthy(card) ==> r.None?
    ensures r.Some? ==> r.value != "" && IsTrimmed(r.value)
  {
    if !Truthy(card) then None else FirstNormalized(CardFields(card))
  }

  /** The normalised persona description as a host value (`null` when
      absent), the first of the persona sources. */
  function DescriptionValue(d: Option<string>): JValue {
    match d case Some(s) => JStr(s) case None => JNull
  }

  function PersonaSources(context: JValue, powerUser: JValue, persona: PersonaInfo): seq<JValue> {
    [DescriptionValue(persona.description),
     Get(powerUser, "persona_description"), Get(powerUser, "personaDescription"),
     Get(context, "persona_description"), Get(context, "personaDescription"),
     Get(context, "user_definition"), Get(context, "userDefinition")]
  }

  /** The `persona` of `getCharacterCardFields({ chid })`, normalised, where
      the context carries that function. */
  function CardFieldsPersona(host: Host, context: JValue): Option<string> {
    match host.cardFields
    case None => None
    case Some(getFields) =>
      var chid := Coalesce(Coalesce(Get(context, "characterId"), Get(context, "character_id")), JNull);
      NormalizeText(Get(getFields(JObj([("chid", chid)])), "persona"))
  }

  /** `getUserDescription(context, powerUser, persona)` */
  function UserDescription(host: Host, context: JValue, powerUser: JValue, persona: PersonaInfo): (r: Option<string>)
    ensures r.Some? ==> r.value != "" && IsTrimmed(r.value)
    ensures !Truthy(context) && persona.description.None? ==> r.None?
    ensures (Truthy(context) || persona.description.Some?) ==>
              var fromSources := FirstNormalized(PersonaSources(context, powerUser, persona));
              && (fromSources.Some? ==> r == fromSources)
              && (fromSources.None? && CardFieldsPersona(host, context).Some? ==> r == CardFieldsPersona(host, context))
              && (fromSources.None? && CardFieldsPersona(host, context).None? ==> r == CardDescription(UserCard(context)))
  {
    if !Truthy(context) && persona.description.None? then None
    else
      var sources := PersonaSources(context, powerUser, persona);
      var fromSources := FirstNormalized(sources);
      if fromSources.Some? then fromSources
      else
        var fromCard := CardFieldsPersona(host, context);
        if fromCard.Some? then fromCard
        else CardDescription(UserCard(context))
  }

  /** `getCharacterDescription(context)` */
  function CharacterDescription(context: JValue): (r: Option<string>)
    ensures !Truthy(context) ==> r.None?
    ensures r.Some? ==> r.value != "" && IsTrimmed(r.value)
    ensures Truthy(context) && CardDescription(ActiveCharacterCard(context)).Some?
            ==> r == CardDescription(ActiveCharacterCard(context))
    ensures Truthy(context) && CardDescription(ActiveCharacterCard(context)).None?
            ==> r == FirstNormalized(CharacterFallbacks(context))
  {
    if !Truthy(context) then None
    else
      var description := CardDescription(ActiveCharacterCard(context));
      if description.Some? then description
      else FirstNormalized(CharacterFallbacks(context))
  }

  function CharacterFallbacks(context: JValue): seq<JValue> {
    [Get(context, "character_description"), Get(context, "characterDescription"), Get(context, "description")]
  }

  // ---------------------------------------------------------------------
  // The user's card

  /** `normalizeName(character)`: the trimmed lower-case first truthy name
      field, when that is a string. */
  function NormalizeName(character: JValue): (r: Option<string>)
    ensures r.Some? ==> IsTrimmed(r.value)
  {
    var data := Get(character, "data");
    var value := Or(Or(Or(Or(Get(character, "name"), Get(character, "display_name")),
                          Get(character, "title")), Get(data, "name")), Get(data, "display_name"));
    if value.JStr? then Some(LowerTrimmed(value.s)) else None
  }

  /** The first four name fields `normalizeName` tries, before
      `data.display_name`. */
  function NameFields(character: JValue): seq<JValue> {
    [Get(character, "name"), Get(character, "display_name"), Get(character, "title"),
     Get(Get(character, "data"), "name")]
  }

  /** `s.trim().toLowerCase()`, which is still trimmed. */
  function LowerTrimmed(s: string): (r: string)
    ensures IsTrimmed(r) && |r| == |Trim(s)|
    ensures r == "" <==> AllSpace(s)
  {
    var t := Trim(s);
    LowerOfTrimmed(t);
    Lower(t)
  }

  lemma LowerOfTrimmed(t: string)
    requires IsTrimmed(t)
    ensures IsTrimmed(Lower(t)) && |Lower(t)| == |t|
  {
    LowerFacts(t);
  }

  /** The name hints of `getUserCard`: the trimmed lower-case forms of the
      non-blank string names. */
  function NameHints(values: seq<JValue>): (r: seq<string>)
    ensures forall k :: 0 <= k < |r| ==> r[k] != ""
  {
    if |values| == 0 then []
    else if values[0].JStr? && Trim(values[0].s) != "" then
      var hint := LowerTrimmed(values[0].s);
      var rest := NameHints(values[1..]);
      NonBlankCons(hint, rest);
      [hint] + rest
    else
      NameHints(values[1..])
  }

  lemma NonBlankCons(hint: string, rest: seq<string>)
    requires hint != ""
    requires forall k :: 0 <= k < |rest| ==> rest[k] != ""
    ensures forall k :: 0 <= k < |[hint] + rest| ==> ([hint] + rest)[k] != ""
  {
  }

  /** The user flags of `isUserCharacter`. */
  predicate HasUserFlag(character: JValue) {
    || Truthy(Get(character, "is_user"))
    || Truthy(Get(character, "isUser"))
    || Truthy(Get(character, "isYou"))
    || StrictEquals(Get(character, "user"), JBool(true))
    || StrictEquals(Get(character, "type"), JStr("user"))
    || StrictEquals(Get(character, "role"), JStr("user"))
    || StrictEquals(Get(Get(character, "data"), "role"), JStr("user"))
  }

  /** `isUserCharacter(character, nameHints)` */
  predicate IsUserCharacter(character: JValue, hints: seq<string>)
    ensures IsUserCharacter(character, hints) <==>
              Truthy(character)
              && (HasUserFlag(character)
                  || (NormalizeName(character).Some? && NormalizeName(character).value != ""
                      && NormalizeName(character).value in hints))
  {
    if !Truthy(character) then false
    else if HasUserFlag(character) then true
    else
      var normalized := NormalizeName(character);
      normalized.Some? && normalized.value != "" && normalized.value in hints
  }

  /** `profiles.find(p => p?.id === id)` for an array, `profiles?.[id]`
      otherwise. */
  function ProfileById(profiles: JValue, id: JValue): JValue {
    if profiles.JArr? then Find(profiles.elems, p => StrictEquals(Get(p, "id"), id))
    else Get(profiles, ToJsString(id))
  }

  /** `getProfileCard(context)`: a card built from the active profile, or
      `null` when no profile is found. */
  function ProfileCard(context: JValue): (r: JValue)
    ensures r == JNull <==> !Truthy(ActiveProfile(context))
    ensures r != JNull ==> r.JObj? && Truthy(Get(r, "name"))
  {
    var active := ActiveProfile(context);
    if !Truthy(active) then JNull else CardOfProfile(active, context)
  }

  /** The profile `getProfileCard` settles on: the one named by the first
      non-nullish profile id, looked up in the manager's profiles and then
      the context's; else the first selected, else the first default, else
      the first profile of the manager's (or, when it has none, the
      context's) truthy profiles. */
  function ActiveProfile(context: JValue): JValue {
    var manager := ProfileManager(context);
    var source := ProfileSource(context);
    var profileId :=
      Coalesce(Get(manager, "currentProfile"), Coalesce(Get(manager, "selectedProfile"),
      Coalesce(Get(manager, "activeProfile"), Coalesce(Get(context, "profileId"), Get(context, "profile_id")))));
    var byId :=
      if !IsNullish(profileId) then
        Coalesce(ProfileById(Get(manager, "profiles"), profileId), ProfileById(Get(context, "profiles"), profileId))
      else JNull;
    if Truthy(byId) then byId
    else
      Coalesce(Find(source, IsSelectedProfile),
      Coalesce(Find(source, IsDefaultProfile),
      Coalesce(if |source| > 0 then source[0] else JUndefined, JNull)))
  }

  predicate IsSelectedProfile(profile: JValue) {
    Truthy(Get(profile, "selected"))
  }

  predicate IsDefaultProfile(profile: JValue) {
    Truthy(Get(profile, "isDefault"))
  }

  /** `context.profile_manager ?? context.profileManager` */
  function ProfileManager(context: JValue): JValue {
    Coalesce(Get(context, "profile_manager"), Get(context, "profileManager"))
  }

  /** The manager's truthy profiles, or the context's when the manager has
      none. */
  function ProfileSource(context: JValue): (r: seq<JValue>)
    ensures forall k :: 0 <= k < |r| ==> Truthy(r[k])
    ensures var managerProfiles := FlattenCollection(Get(ProfileManager(context), "profiles"));
            && (|managerProfiles| > 0 ==> r == managerProfiles)
            && (|managerProfiles| == 0 ==> r == FlattenCollection(Get(context, "profiles")))
  {
    var managerProfiles := FlattenCollection(Get(ProfileManager(context), "profiles"));
    if |managerProfiles| > 0 then managerProfiles else FlattenCollection(Get(context, "profiles"))
  }

  /** The card built from a profile: its first present description field
      (or `null`) under `data`, and its first truthy name field, else the
      user's name, else `User`. */
  function CardOfProfile(active: JValue, context: JValue): (r: JValue)
    ensures r.JObj? && Truthy(Get(r, "name"))
    ensures Get(r, "name")
            == Or(Get(active, "name"), Or(Get(active, "title"), Or(Get(active, "displayName"),
               Or(Get(context, "name1"), JStr("User")))))
    ensures Get(Get(r, "data"), "description")
            == Coalesce(Get(active, "description"), Coalesce(Get(active, "persona"),
               Coalesce(Get(active, "bio"), Coalesce(Get(active, "profile"),
               Coalesce(Get(active, "prompt"), Coalesce(Get(Get(active, "data"), "description"), JNull))))))
  {
    var description :=
      Coalesce(Get(active, "description"), Coalesce(Get(active, "persona"),
      Coalesce(Get(active, "bio"), Coalesce(Get(active, "profile"),
      Coalesce(Get(active, "prompt"), Coalesce(Get(Get(active, "data"), "description"), JNull))))));
    var name :=
      Or(Get(active, "name"), Or(Get(active, "title"), Or(Get(active, "displayName"),
      Or(Get(context, "name1"), JStr("User")))));
    var data := JObj([("description", description)]);
    var card := JObj([("name", name), ("data", data)]);
    assert Get(card, "name") == name;
    assert card.fields[1..] == [("data", data)];
    assert Lookup([("data", data)], "data") == data;
    assert Get(card, "data") == Lookup(card.fields[1..], "data");
    card
  }

  /** The card `getUserCard` builds from the legacy persona fields, or
      `null` when none of them is truthy. Its name is the user's truthy
      `name1`, else `User`; its description is `persona_description` unless
      that is nullish. */
  function LegacyPersonaCard(context: JValue): (r: JValue)
    ensures r == JNull <==>
              !Truthy(Get(context, "persona")) && !Truthy(Get(context, "persona_description"))
              && !Truthy(Get(context, "user_definition")) && !Truthy(Get(context, "userDefinition"))
    ensures r != JNull ==> r.JObj? && Truthy(Get(r, "name"))
    ensures r != JNull && Truthy(Get(context, "name1")) ==> Get(r, "name") == Get(context, "name1")
    ensures r != JNull && !Truthy(Get(context, "name1")) ==> Get(r, "name") == JStr("User")
    ensures r != JNull ==>
              Get(Get(r, "data"), "description")
              == Coalesce(Get(context, "persona_description"), Coalesce(Get(context, "persona"),
                 Coalesce(Get(context, "user_definition"), Coalesce(Get(context, "userDefinition"), JNull))))
  {
    var persona := Get(context, "persona");
    var personaDescription := Get(context, "persona_description");
    var userDefinition := Get(context, "user_definition");
    var userDefinitionCamel := Get(context, "userDefinition");
    if Truthy(persona) || Truthy(personaDescription) || Truthy(userDefinition) || Truthy(userDefinitionCamel) then
      var description :=
        Coalesce(personaDescription, Coalesce(persona, Coalesce(userDefinition, Coalesce(userDefinitionCamel, JNull))));
      var data := JObj([("description", description)]);
      var card := JObj([("name", Or(Get(context, "name1"), JStr("User"))), ("data", data)]);
      assert card.fields[1..] == [("data", data)];
      assert Lookup([("data", data)], "data") == data;
      assert Get(card, "data") == Lookup(card.fields[1..], "data");
      card
    else JNull
  }

  /** The name hints `getUserCard` matches characters against. */
  function UserNameHints(context: JValue): seq<string> {
    NameHints([Get(context, "name1"), Get(context, "user_name"),
               Get(context, "userName"), Get(context, "username")])
  }

  /** The characters `getUserCard` searches: the truthy entries of
      `characters`, then of `characterCache`, then of `groupCharacters`. */
  function UserCandidates(context: JValue): (r: seq<JValue>)
    ensures forall k :: 0 <= k < |r| ==> Truthy(r[k])
  {
    FlattenCollection(Get(context, "characters"))
    + FlattenCollection(Get(context, "characterCache"))
    + FlattenCollection(Get(context, "groupCharacters"))
  }

  /** `candidates.find((character) => isUserCharacter(character, nameHints))`:
      the first candidate that is the user, or `undefined`. */
  function FirstUserLike(candidates: seq<JValue>, hints: seq<string>): (r: JValue)
    ensures forall k :: 0 <= k < |candidates| && IsUserCharacter(candidates[k], hints)
                        && (forall j :: 0 <= j < k ==> !IsUserCharacter(candidates[j], hints))
                        ==> r == candidates[k]
    ensures (forall k :: 0 <= k < |candidates| ==> !IsUserCharacter(candidates[k], hints)) ==> r == JUndefined
  {
    Find(candidates, c => IsUserCharacter(c, hints))
  }

  /** Neither `user`, nor `userCard`, nor a profile card. */
  predicate NoDirectUserCard(context: JValue) {
    !Truthy(Get(context, "user")) && !Truthy(Get(context, "userCard")) && !Truthy(ProfileCard(context))
  }

  /** `getUserCard(context)`: `user`, `userCard`, the profile card, the first
      user-like character, the legacy persona card, or `null`, in that
      order. */
  function UserCard(context: JValue): (r: JValue)
    ensures Truthy(Get(context, "user")) ==> r == Get(context, "user")
    ensures !Truthy(Get(context, "user")) && Truthy(Get(context, "userCard")) ==> r == Get(context, "userCard")
    ensures !Truthy(Get(context, "user")) && !Truthy(Get(context, "userCard")) && Truthy(ProfileCard(context))
            ==> r == ProfileCard(context)
    ensures NoDirectUserCard(context) ==>
              forall k :: 0 <= k < |UserCandidates(context)|
                          && IsUserCharacter(UserCandidates(context)[k], UserNameHints(context))
                          && (forall j :: 0 <= j < k ==> !IsUserCharacter(UserCandidates(context)[j], UserNameHints(context)))
                          ==> r == UserCandidates(context)[k]
    ensures NoDirectUserCard(context)
            && (forall k :: 0 <= k < |UserCandidates(context)| ==> !IsUserCharacter(UserCandidates(context)[k], UserNameHints(context)))
            ==> r == LegacyPersonaCard(context)
  {
    var user := Get(context, "user");
    var userCard := Get(context, "userCard");
    if Truthy(user) then user
    else if Truthy(userCard) then userCard
    else
      var profile := ProfileCard(context);
      if Truthy(profile) then profile
      else
        var found := FirstUserLike(UserCandidates(context), UserNameHints(context));
        if Truthy(found) then found
        else LegacyPersonaCard(context)
  }

  // ---------------------------------------------------------------------
  // The snapshot

  /** `captureContextSnapshot()`, as a function of the host. */
  function SnapshotOf(host: Host): (r: Snapshot)
    ensures r.persona == PersonaContext(host, PowerUserSettings(host))
    ensures !Truthy(host.context) ==> r.messages == [] && r.characterDescription.None?
                                      && r.userDescription == r.persona.description
    ensures r.userDescription.Some? ==> r.userDescription.value != "" && IsTrimmed(r.userDescription.value)
    ensures r.characterDescription.Some? ==> r.characterDescription.value != "" && IsTrimmed(r.characterDescription.value)
  {
    var context := host.context;
    var powerUser := PowerUserSettings(host);
    var persona := PersonaContext(host, powerUser);
    if !Truthy(context) then Snapshot([], persona.description, None, persona)
    else Snapshot(Messages(context), UserDescription(host, context, powerUser, persona),
                  CharacterDescription(context), persona)
  }

  // ---------------------------------------------------------------------
  // The loops of context.js

  /** The `for…of` loops with an early return over candidate values. */
  method FindFirstNormalized(values: seq<JValue>) returns (r: Option<string>)
    ensures r == FirstNormalized(values)
  {
    for k := 0 to |values|
      invariant FirstNormalized(values[k..]) == FirstNormalized(values)
    {
      var normalized := NormalizeText(values[k]);
      FirstNormalizedStep(values, k);
      if normalized.Some? {
        return normalized;
      }
    }
    return None;
  }

  /** One step of the search: the head of `values[k..]` decides, or the
      search moves on to `values[k + 1..]`. */
  lemma FirstNormalizedStep(values: seq<JValue>, k: nat)
    requires k < |values|
    ensures NormalizeText(values[k]).Some? ==> FirstNormalized(values[k..]) == NormalizeText(values[k])
    ensures NormalizeText(values[k]).None? ==> FirstNormalized(values[k..]) == FirstNormalized(values[k + 1..])
  {
    assert values[k..][0] == values[k];
    assert values[k..][1..] == values[k + 1..];
  }

  /** `extractCardDescription(card)` */
  method ExtractCardDescription(card: JValue) returns (r: Option<string>)
    ensures r == CardDescription(card)
  {
    if !Truthy(card) {
      return None;
    }
    r := FindFirstNormalized(CardFields(card));
  }

  /** `getUserDescription(context, powerUser, persona)` */
  method GetUserDescription(host: Host, context: JValue, powerUser: JValue, persona: PersonaInfo)
    returns (r: Option<string>)
    ensures r == UserDescription(host, context, powerUser, persona)
  {
    if !Truthy(context) && persona.description.None? {
      return None;
    }
    r := FindFirstNormalized(PersonaSources(context, powerUser, persona));
    if r.Some? {
      return;
    }
    r := CardFieldsPersona(host, context);
    if r.Some? {
      return;
    }
    r := ExtractCardDescription(UserCard(context));
  }

  /** `getCharacterDescription(context)` */
  method GetCharacterDescription(context: JValue) returns (r: Option<string>)
    ensures r == CharacterDescription(context)
  {
    if !Truthy(context) {
      return None;
    }
    r := ExtractCardDescription(ActiveCharacterCard(context));
    if r.Some? {
      return;
    }
    r := FindFirstNormalized(CharacterFallbacks(context));
  }

  /** The `forEach` that pushes every qualifying entry with its index. */
  method CollectRelevantEntries(chat: seq<JValue>) returns (entries: seq<Indexed>)
    ensures entries == Relevant(chat)
  {
    entries := [];
    for idx := 0 to |chat|
      invariant entries == Collect(chat[..idx], IsUserOrCharacterMessage)
    {
      assert chat[..idx + 1][..idx] == chat[..idx];
      if IsUserOrCharacterMessage(chat[idx]) {
        entries := entries + [Indexed(chat[idx], idx)];
      }
    }
    assert chat[..|chat|] == chat;
  }

  /** `captureContextSnapshot()` */
  method CaptureContextSnapshot(host: Host) returns (snapshot: Snapshot)
    ensures snapshot == SnapshotOf(host)
  {
    var context := host.context;
    var powerUser := PowerUserSettings(host);
    var persona := PersonaContext(host, powerUser);
    if !Truthy(context) {
      return Snapshot([], persona.description, None, persona);
    }
    var relevantEntries := CollectRelevantEntries(ChatLog(context));
    var recentEntries := LastFive(relevantEntries);
    var messages := ResolveAll(context, recentEntries);
    var userDescription := GetUserDescription(host, context, powerUser, persona);
    var characterDescription := GetCharacterDescription(context);
    return Snapshot(messages, userDescription, characterDescription, persona);
  }

  // ---------------------------------------------------------------------
  // Lemmas

  /** The first accepted candidate is the answer of `FirstNormalized`. */
  lemma {:induction false} FirstNormalizedAt(values: seq<JValue>, k: nat)
    requires k < |values| && NormalizeText(values[k]).Some?
    requires forall j :: 0 <= j < k ==> NormalizeText(values[j]).None?
    ensures FirstNormalized(values) == NormalizeText(values[k])
  {
    if k > 0 {
      assert values[1..][k - 1] == values[k];
      forall j | 0 <= j < k - 1 ensures NormalizeText(values[1..][j]).None? {
        assert values[1..][j] == values[j + 1];
      }
      FirstNormalizedAt(values[1..], k - 1);
    }
  }

  /** Every accepted entry of the log is collected. */
  lemma {:induction false} CollectComplete(chat: seq<JValue>, keep: JValue -> bool, i: nat)
    requires i < |chat| && keep(chat[i])
    ensures exists k :: 0 <= k < |Collect(chat, keep)| && Collect(chat, keep)[k].idx == i
  {
    var n := |chat| - 1;
    var front := Collect(chat[..n], keep);
    if i < n {
      assert chat[..n][i] == chat[i];
      CollectComplete(chat[..n], keep, i);
      var k :| 0 <= k < |front| && front[k].idx == i;
      assert Collect(chat, keep)[k] == front[k];
    } else {
      assert Collect(chat, keep)[|front|].idx == i;
    }
  }

  /** The persona's own description comes first: it wins over every
      power-user and context field. */
  lemma DescriptorWins(host: Host, context: JValue, powerUser: JValue, persona: PersonaInfo)
    requires persona.description.Some?
    requires persona.description.value != "" && IsTrimmed(persona.description.value)
    ensures UserDescription(host, context, powerUser, persona) == persona.description
  {
    NormalizeTrimmed(persona.description.value);
    FirstNormalizedAt(PersonaSources(context, powerUser, persona), 0);
  }

  lemma NormalizeTrimmed(d: string)
    requires d != "" && IsTrimmed(d)
    ensures NormalizeText(JStr(d)) == Some(d)
  {
    TrimOfTrimmed(d);
  }

  /** The kept entries are the last (at most five) accepted entries of the
      log, in log order and with their log indices: the indices increase
      strictly, each names an accepted entry, and every accepted entry is
      kept when fewer than five are kept or when it comes at or after the
      first kept one. */
  lemma {:induction false} RecentAreLastFive(chat: seq<JValue>, keep: JValue -> bool)
    ensures var recent := LastFive(Collect(chat, keep));
            && |recent| <= 5
            && (forall k, l :: 0 <= k < l < |recent| ==> recent[k].idx < recent[l].idx)
            && (forall k :: 0 <= k < |recent| ==> recent[k].idx < |chat| && keep(chat[recent[k].idx]))
            && (forall i :: 0 <= i < |chat| && keep(chat[i]) && (|recent| < 5 || i >= recent[0].idx)
                  ==> exists k :: 0 <= k < |recent| && recent[k].idx == i)
  {
    var recent := LastFive(Collect(chat, keep));
    RecentInOrder(chat, keep);
    forall i | 0 <= i < |chat| && keep(chat[i]) && (|recent| < 5 || i >= recent[0].idx)
      ensures exists k :: 0 <= k < |recent| && recent[k].idx == i
    {
      RecentHolds(chat, keep, i);
    }
  }

  lemma {:induction false} RecentInOrder(chat: seq<JValue>, keep: JValue -> bool)
    ensures var recent := LastFive(Collect(chat, keep));
            && (forall k, l :: 0 <= k < l < |recent| ==> recent[k].idx < recent[l].idx)
            && (forall k :: 0 <= k < |recent| ==> recent[k].idx < |chat| && keep(chat[recent[k].idx]))
            && (forall k :: 0 <= k < |recent| ==> recent[k].idx < |chat| && chat[recent[k].idx] == recent[k].entry)
  {
    var rel := Collect(chat, keep);
    var off := |rel| - |LastFive(rel)|;
    SuffixInOrder(rel, off, chat, keep);
  }

  /** A suffix of indexed entries keeps their order and their acceptance. */
  lemma {:induction false} SuffixInOrder(rel: seq<Indexed>, off: nat, chat: seq<JValue>, keep: JValue -> bool)
    requires off <= |rel|
    requires forall k :: 0 <= k < |rel| ==> rel[k].idx < |chat| && keep(chat[rel[k].idx]) && chat[rel[k].idx] == rel[k].entry
    requires forall k, l :: 0 <= k < l < |rel| ==> rel[k].idx < rel[l].idx
    ensures var t := rel[off..];
            && (forall k, l :: 0 <= k < l < |t| ==> t[k].idx < t[l].idx)
            && (forall k :: 0 <= k < |t| ==> t[k].idx < |chat| && keep(chat[t[k].idx]) && chat[t[k].idx] == t[k].entry)
  {
    var t := rel[off..];
    forall k, l | 0 <= k < l < |t|
      ensures t[k].idx < t[l].idx
    {
      assert t[k] == rel[off + k] && t[l] == rel[off + l];
    }
    forall k | 0 <= k < |t|
      ensures t[k].idx < |chat| && keep(chat[t[k].idx]) && chat[t[k].idx] == t[k].entry
    {
      assert t[k] == rel[off + k];
    }
  }

  lemma {:induction false} RecentHolds(chat: seq<JValue>, keep: JValue -> bool, i: nat)
    requires i < |chat| && keep(chat[i])
    requires var recent := LastFive(Collect(chat, keep));
             |recent| < 5 || i >= recent[0].idx
    ensures var recent := LastFive(Collect(chat, keep));
            exists k :: 0 <= k < |recent| && recent[k].idx == i
  {
    var rel := Collect(chat, keep);
    var recent := LastFive(rel);
    var off := |rel| - |recent|;
    CollectComplete(chat, keep, i);
    var j :| 0 <= j < |rel| && rel[j].idx == i;
    assert recent[j - off] == rel[j];
  }

  /** The snapshot's messages carry the indices of the last five user and
      character messages of the log, in order: see `RecentAreLastFive`. */
  lemma {:induction false} MessagesAreLastFive(context: JValue)
    ensures var chat := ChatLog(context);
            var m := Messages(context);
            && (forall k, l :: 0 <= k < l < |m| ==> m[k].index < m[l].index)
            && (forall k :: 0 <= k < |m| ==> m[k].index < |chat| && IsUserOrCharacterMessage(chat[m[k].index]))
            && (forall i :: 0 <= i < |chat| && IsUserOrCharacterMessage(chat[i])
                  && (|m| < 5 || i >= m[0].index)
                  ==> exists k :: 0 <= k < |m| && m[k].index == i)
  {
    SameIndices(Messages(context), ChatLog(context), IsUserOrCharacterMessage);
  }

  /** Each message of the snapshot is the one built from the log entry at
      its index. */
  lemma {:induction false} MessagesAreResolved(context: JValue)
    ensures var chat := ChatLog(context);
            var m := Messages(context);
            forall k :: 0 <= k < |m| ==>
              m[k].index < |chat| && m[k] == ResolveTurn(context, Indexed(chat[m[k].index], m[k].index))
  {
    var chat := ChatLog(context);
    RecentInOrder(chat, IsUserOrCharacterMessage);
    ResolvedAtIndices(context, chat, LastFive(Relevant(chat)));
  }

  /** Resolving entries that sit at their indices of the log gives, at each
      position, the message built from the log entry at that index. */
  lemma ResolvedAtIndices(context: JValue, chat: seq<JValue>, recent: seq<Indexed>)
    requires forall k :: 0 <= k < |recent| ==> recent[k].idx < |chat| && chat[recent[k].idx] == recent[k].entry
    ensures var m := ResolveAll(context, recent);
            forall k :: 0 <= k < |m| ==>
              m[k].index < |chat| && m[k] == ResolveTurn(context, Indexed(chat[m[k].index], m[k].index))
  {
    var m := ResolveAll(context, recent);
    forall k | 0 <= k < |m|
      ensures m[k].index < |chat| && m[k] == ResolveTurn(context, Indexed(chat[m[k].index], m[k].index))
    {
      assert m[k] == ResolveTurn(context, recent[k]);
      assert recent[k] == Indexed(chat[recent[k].idx], recent[k].idx);
    }
  }

  /** Messages that carry the indices of the recent entries, one for one,
      inherit their order and coverage. */
  lemma {:induction false} SameIndices(m: seq<ChatTurn>, chat: seq<JValue>, keep: JValue -> bool)
    requires var recent := LastFive(Collect(chat, keep));
             |m| == |recent| && forall k :: 0 <= k < |m| ==> m[k].index == recent[k].idx
    ensures forall k, l :: 0 <= k < l < |m| ==> m[k].index < m[l].index
    ensures forall k :: 0 <= k < |m| ==> m[k].index < |chat| && keep(chat[m[k].index])
    ensures forall i :: 0 <= i < |chat| && keep(chat[i]) && (|m| < 5 || i >= m[0].index)
              ==> exists k :: 0 <= k < |m| && m[k].index == i
  {
    var recent := LastFive(Collect(chat, keep));
    RecentInOrder(chat, keep);
    forall i | 0 <= i < |chat| && keep(chat[i]) && (|m| < 5 || i >= m[0].index)
      ensures exists k :: 0 <= k < |m| && m[k].index == i
    {
      RecentHolds(chat, keep, i);
      var k :| 0 <= k < |recent| && recent[k].idx == i;
      assert m[k].index == i;
    }
  }

  // ---------------------------------------------------------------------
  // Names and cards

  /** `normalizeName` reads the first truthy of `name`, `display_name`,
      `title` and `data.name`, else `data.display_name`; a string gives its
      trimmed lower-case form, anything else no name. */
  lemma {:induction false} NormalizeNameFirstTruthy(character: JValue)
    ensures var value := FirstTruthyOr(NameFields(character), Get(Get(character, "data"), "display_name"));
            && (NormalizeName(character).Some? <==> value.JStr?)
            && (value.JStr? ==> NormalizeName(character).value == LowerTrimmed(value.s))
  {
    var fields := NameFields(character);
    var last := Get(Get(character, "data"), "display_name");
    FirstTruthyOrStep(fields, last);
    assert fields[1..][1..] == fields[2..];
    assert fields[2..][1..] == fields[3..];
    assert fields[3..][1..] == [];
    FirstTruthyOrStep(fields[1..], last);
    FirstTruthyOrStep(fields[2..], last);
    FirstTruthyOrStep(fields[3..], last);
  }

  /** A name hint is the trimmed lower-case form of a non-blank string
      among the values, and every such form is a hint. */
  lemma NameHintsExact(values: seq<JValue>)
    ensures forall h :: h in NameHints(values) <==>
              exists i :: 0 <= i < |values| && values[i].JStr? && !AllSpace(values[i].s) && h == LowerTrimmed(values[i].s)
  {
    forall h | h in NameHints(values)
      ensures exists i :: 0 <= i < |values| && values[i].JStr? && !AllSpace(values[i].s) && h == LowerTrimmed(values[i].s)
    {
      NameHintsSound(values, h);
    }
    NameHintsComplete(values);
  }

  /** Every hint comes from a non-blank string among the values. */
  lemma {:induction false} NameHintsSound(values: seq<JValue>, h: string)
    requires h in NameHints(values)
    ensures exists i :: 0 <= i < |values| && values[i].JStr? && !AllSpace(values[i].s) && h == LowerTrimmed(values[i].s)
  {
    if values[0].JStr? && !AllSpace(values[0].s) && h == LowerTrimmed(values[0].s) {
      var v := values[0];
      assert 0 < |values| && v.JStr? && !AllSpace(v.s) && h == LowerTrimmed(v.s);
    } else {
      var tail := values[1..];
      assert h in NameHints(tail) by {
        NameHintsUnfold(values);
      }
      NameHintsSound(tail, h);
      HintOfTail(values, h);
    }
  }

  lemma HintOfTail(values: seq<JValue>, h: string)
    requires |values| > 0
    requires exists i :: 0 <= i < |values[1..]| && values[1..][i].JStr? && !AllSpace(values[1..][i].s)
                         && h == LowerTrimmed(values[1..][i].s)
    ensures exists i :: 0 <= i < |values| && values[i].JStr? && !AllSpace(values[i].s) && h == LowerTrimmed(values[i].s)
  {
    var tail := values[1..];
    var i :| 0 <= i < |tail| && tail[i].JStr? && !AllSpace(tail[i].s) && h == LowerTrimmed(tail[i].s);
    var v := values[i + 1];
    assert v == tail[i];
    assert 0 <= i + 1 < |values| && v.JStr? && !AllSpace(v.s) && h == LowerTrimmed(v.s);
  }

  lemma NameHintsUnfold(values: seq<JValue>)
    requires |values| > 0
    ensures NameHints(values)
            == (if values[0].JStr? && !AllSpace(values[0].s) then [LowerTrimmed(values[0].s)] else [])
               + NameHints(values[1..])
  {
  }

  /** Every non-blank string among the values yields a hint. */
  lemma {:induction false} NameHintsComplete(values: seq<JValue>)
    ensures forall i :: 0 <= i < |values| && values[i].JStr? && !AllSpace(values[i].s) ==>
              LowerTrimmed(values[i].s) in NameHints(values)
  {
    if |values| > 0 {
      var tail := values[1..];
      NameHintsComplete(tail);
      forall i | 1 <= i < |values| && values[i].JStr? && !AllSpace(values[i].s)
        ensures LowerTrimmed(values[i].s) in NameHints(values)
      {
        assert tail[i - 1] == values[i];
      }
    }
  }

  /** A character whose `name` matches the user's `name1` up to surrounding
      blanks and case is recognised as the user, flags or not. */
  lemma IsUserCharacterByName(character: JValue, context: JValue)
    requires Get(character, "name").JStr? && Truthy(Get(character, "name"))
    requires Get(context, "name1").JStr? && !AllSpace(Get(context, "name1").s)
    requires LowerTrimmed(Get(character, "name").s) == LowerTrimmed(Get(context, "name1").s)
    ensures IsUserCharacter(character, UserNameHints(context))
  {
    var values := [Get(context, "name1"), Get(context, "user_name"), Get(context, "userName"), Get(context, "username")];
    NameHintsExact(values);
    assert LowerTrimmed(values[0].s) in UserNameHints(context);
    NormalizeNameFirstTruthy(character);
  }

  /** The profile card's name is the first truthy of the profile's `name`,
      `title` and `displayName` and the user's `name1`, else `User`; its
      description is the first present of the profile's six description
      fields, else `null`. */
  lemma {:induction false} ProfileCardFields(active: JValue, context: JValue)
    ensures Get(CardOfProfile(active, context), "name")
            == FirstTruthyOr([Get(active, "name"), Get(active, "title"), Get(active, "displayName"), Get(context, "name1")],
                             JStr("User"))
    ensures Get(Get(CardOfProfile(active, context), "data"), "description")
            == FirstPresentOr([Get(active, "description"), Get(active, "persona"), Get(active, "bio"),
                               Get(active, "profile"), Get(active, "prompt"), Get(Get(active, "data"), "description")],
                              JNull)
  {
    var names := [Get(active, "name"), Get(active, "title"), Get(active, "displayName"), Get(context, "name1")];
    FirstTruthyOrStep(names, JStr("User"));
    FirstTruthyOrStep(names[1..], JStr("User"));
    FirstTruthyOrStep(names[2..], JStr("User"));
    FirstTruthyOrStep(names[3..], JStr("User"));
    assert names[1..][1..] == names[2..];
    assert names[2..][1..] == names[3..];
    assert names[3..][1..] == [];
    var fields := [Get(active, "description"), Get(active, "persona"), Get(active, "bio"),
                   Get(active, "profile"), Get(active, "prompt"), Get(Get(active, "data"), "description")];
    FirstPresentOrStep(fields, JNull);
    FirstPresentOrStep(fields[1..], JNull);
    FirstPresentOrStep(fields[2..], JNull);
    FirstPresentOrStep(fields[3..], JNull);
    FirstPresentOrStep(fields[4..], JNull);
    FirstPresentOrStep(fields[5..], JNull);
    assert fields[1..][1..] == fields[2..];
    assert fields[2..][1..] == fields[3..];
    assert fields[3..][1..] == fields[4..];
    assert fields[4..][1..] == fields[5..];
    assert fields[5..][1..] == [];
  }

  /** The legacy card's description is the first present of
      `persona_description`, `persona`, `user_definition` and
      `userDefinition`, else `null`. */
  lemma {:induction false} LegacyCardDescription(context: JValue)
    requires LegacyPersonaCard(context) != JNull
    ensures Get(Get(LegacyPersonaCard(context), "data"), "description")
            == FirstPresentOr([Get(context, "persona_description"), Get(context, "persona"),
                               Get(context, "user_definition"), Get(context, "userDefinition")], JNull)
  {
    var fields := [Get(context, "persona_description"), Get(context, "persona"),
                   Get(context, "user_definition"), Get(context, "userDefinition")];
    FirstPresentOrStep(fields, JNull);
    FirstPresentOrStep(fields[1..], JNull);
    FirstPresentOrStep(fields[2..], JNull);
    FirstPresentOrStep(fields[3..], JNull);
    assert fields[1..][1..] == fields[2..];
    assert fields[2..][1..] == fields[3..];
    assert fields[3..][1..] == [];
  }

  /** The persona depends on the power-user settings only through the
      selected persona's name and descriptor. */
  lemma PersonaOfSelectedOnly(host: Host, first: JValue, second: JValue)
    requires host.userAvatar.JStr?
    requires var id := host.userAvatar.s;
             && Get(Get(first, "personas"), id) == Get(Get(second, "personas"), id)
             && Get(Get(first, "persona_descriptions"), id) == Get(Get(second, "persona_descriptions"), id)
    ensures PersonaContext(host, first) == PersonaContext(host, second)
  {
  }
}
