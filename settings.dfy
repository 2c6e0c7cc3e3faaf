/** Settings defaulting (settings.js). The host keeps every extension's
    settings in one shared object, `extension_settings`; this extension's
    settings live in its `advanced_nai_image` slot and are completed in place
    with the defaults. */
module Settings {
  import opened Strings
  import opened Json
  import Config

  /** `defaultSettings.prompt`: the template literal after `.trim()`. Its
      inner lines keep their four-space indentation. */
  const DefaultPrompt: string :=
    "Generate" + " only lowercase comma-separated visual tags.\n"
    + "    No sentences, no narration, no dialogue, no quotes, no conjunctions, no filler words.\n"
    + "\n"
    + "    Include tags for:\n"
    + "    - number of characters\n"
    + "    - gender and appearance\n"
    + "    - clothing\n"
    + "    - expression\n"
    + "    - pose\n"
    + "    - camera angle and composition\n"
    + "    - environment and mood\n"
    + "\n"
    + "    Use short tags only, similar to: 1girl, black hair, grey eyes, head tilt, looking at viewer, close-up,"
    + " from above."

  /** `defaultSettings`, in its property order. */
  const DefaultFields: seq<(string, JValue)> := [
    ("prompt", JStr(DefaultPrompt)),
    ("scene", JStr("")),
    ("character", JStr("")),
    ("user", JStr(""))
  ]

  /** The default prompt is a non-empty string with no whitespace at either
      end, so it is its own `normalizeText`. */
  lemma DefaultPromptIsTrimmed()
    ensures DefaultPrompt != "" && IsTrimmed(DefaultPrompt)
  {
    assert DefaultPrompt[0] == 'G';
    assert DefaultPrompt[|DefaultPrompt| - 1] == '.';
  }

  /** The keys of an object's properties are distinct. */
  predicate DistinctKeys(fields: seq<(string, JValue)>) {
    forall i, j :: 0 <= i < j < |fields| ==> fields[i].0 != fields[j].0
  }

  /** The loop of `ensureSettings` over `Object.entries(defaults)`: each
      default whose key the settings lack is appended, in order. */
  function FillDefaults(fields: seq<(string, JValue)>, defaults: seq<(string, JValue)>): (r: seq<(string, JValue)>)
    ensures |fields| <= |r| <= |fields| + |defaults|
    decreases |defaults|
  {
    if |defaults| == 0 then fields
    else
      var (key, value) := defaults[0];
      FillDefaults(if HasKey(fields, key) then fields else fields + [(key, value)], defaults[1..])
  }

  /** The slot `extension_settings[SETTINGS_KEY]`: `undefined` when absent. */
  function Slot(store: map<string, JValue>): JValue {
    if Config.SettingsKey in store then store[Config.SettingsKey] else JUndefined
  }

  /** What `ensureSettings` leaves in the slot, or `None` where it throws: a
      falsy slot becomes a copy of the defaults, an object gains the
      defaults it lacks, and the `in` operator throws a `TypeError` on any
      other truthy value. */
  function Ensured(slot: JValue): Option<JValue> {
    if !Truthy(slot) then Some(JObj(DefaultFields))
    else if slot.JObj? then Some(JObj(FillDefaults(slot.fields, DefaultFields)))
    else None
  }

  /** The host's `extension_settings` object, reduced to the map from
      extension keys to their settings. */
  class SettingsStore {
    var extensionSettings: map<string, JValue>

    constructor(initial: map<string, JValue>)
      ensures extensionSettings == initial
    {
      extensionSettings := initial;
    }

    /** `ensureSettings()`. `ok` is false where it throws; the store is then
        unchanged. Arrays and `Map` instances in the slot are outside the
        model. */
    method EnsureSettings() returns (ok: bool)
      requires !Slot(extensionSettings).JArr? && !Slot(extensionSettings).JMap?
      modifies this
      ensures ok <==> Ensured(old(Slot(extensionSettings))).Some?
      ensures ok ==> extensionSettings
                     == old(extensionSettings)[Config.SettingsKey := Ensured(old(Slot(extensionSettings))).value]
      ensures !ok ==> extensionSettings == old(extensionSettings)
    {
      var slot := Slot(extensionSettings);
      if !Truthy(slot) {
        extensionSettings := extensionSettings[Config.SettingsKey := JObj(DefaultFields)];
        return true;
      }
      if !slot.JObj? {
        return false;
      }
      var i := 0;
      while i < |DefaultFields|
        invariant 0 <= i <= |DefaultFields|
        invariant Config.SettingsKey in extensionSettings
        invariant extensionSettings[Config.SettingsKey].JObj?
        invariant FillDefaults(extensionSettings[Config.SettingsKey].fields, DefaultFields[i..])
                  == FillDefaults(slot.fields, DefaultFields)
        invariant extensionSettings == old(extensionSettings)[Config.SettingsKey := extensionSettings[Config.SettingsKey]]
      {
        var (key, value) := DefaultFields[i];
        var settings := extensionSettings[Config.SettingsKey].fields;
        assert DefaultFields[i..][0] == (key, value) && DefaultFields[i..][1..] == DefaultFields[i + 1..];
        if !HasKey(settings, key) {
          extensionSettings := extensionSettings[Config.SettingsKey := JObj(settings + [(key, value)])];
        }
        i := i + 1;
      }
      assert DefaultFields[i..] == [];
      return true;
    }

    /** `getSettings()`: the slot after `ensureSettings`. */
    method GetSettings() returns (ok: bool, settings: JValue)
      requires !Slot(extensionSettings).JArr? && !Slot(extensionSettings).JMap?
      modifies this
      ensures ok <==> Ensured(old(Slot(extensionSettings))).Some?
      ensures ok ==> settings == Ensured(old(Slot(extensionSettings))).value == Slot(extensionSettings)
      ensures ok ==> extensionSettings
                     == old(extensionSettings)[Config.SettingsKey := Ensured(old(Slot(extensionSettings))).value]
      ensures !ok ==> extensionSettings == old(extensionSettings)
    {
      ok := EnsureSettings();
      settings := if ok then extensionSettings[Config.SettingsKey] else JUndefined;
    }
  }

  // ---------------------------------------------------------------------
  // What the defaulting promises

  /** Every default key is present afterwards. */
  lemma {:induction false} FillDefaultsHasDefaults(fields: seq<(string, JValue)>, defaults: seq<(string, JValue)>, key: string)
    requires HasKey(fields, key) || HasKey(defaults, key)
    ensures HasKey(FillDefaults(fields, defaults), key)
    decreases |defaults|
  {
    if |defaults| > 0 {
      var (k, v) := defaults[0];
      var next := if HasKey(fields, k) then fields else fields + [(k, v)];
      if HasKey(fields, key) {
        var i :| 0 <= i < |fields| && fields[i].0 == key;
        assert next[i] == fields[i];
      } else if k == key {
        assert next[|next| - 1].0 == key;
      } else {
        var i :| 0 <= i < |defaults| && defaults[i].0 == key;
        assert defaults[1..][i - 1] == defaults[i];
      }
      FillDefaultsHasDefaults(next, defaults[1..], key);
    }
  }

  /** The existing properties are kept, in order and with their values, even
      an `undefined` value: the defaults are only appended behind them. */
  lemma {:induction false} FillDefaultsKeepsPrefix(fields: seq<(string, JValue)>, defaults: seq<(string, JValue)>)
    ensures FillDefaults(fields, defaults)[..|fields|] == fields
    decreases |defaults|
  {
    if |defaults| > 0 {
      var (k, v) := defaults[0];
      var next := if HasKey(fields, k) then fields else fields + [(k, v)];
      FillDefaultsKeepsPrefix(next, defaults[1..]);
      assert next[..|fields|] == fields;
      assert FillDefaults(fields, defaults)[..|fields|] == FillDefaults(fields, defaults)[..|next|][..|fields|];
    }
  }

  /** Each appended property is a default whose key was missing. */
  lemma {:induction false} FillDefaultsAppendsMissing(fields: seq<(string, JValue)>, defaults: seq<(string, JValue)>, i: int)
    requires |fields| <= i < |FillDefaults(fields, defaults)|
    ensures FillDefaults(fields, defaults)[i] in defaults
    ensures !HasKey(fields, FillDefaults(fields, defaults)[i].0)
    decreases |defaults|
  {
    var (k, v) := defaults[0];
    var next := if HasKey(fields, k) then fields else fields + [(k, v)];
    var r := FillDefaults(fields, defaults);
    FillDefaultsKeepsPrefix(next, defaults[1..]);
    if i < |next| {
      assert r[i] == next[i] == (k, v);
    } else {
      FillDefaultsAppendsMissing(next, defaults[1..], i);
      assert r[i] in defaults[1..];
      forall j | 0 <= j < |fields| ensures fields[j].0 != r[i].0 {
        assert next[j] == fields[j];
      }
    }
  }

  /** Reading a key that was present gives its old value. */
  lemma LookupAfterFill(fields: seq<(string, JValue)>, defaults: seq<(string, JValue)>, key: string)
    requires HasKey(fields, key)
    ensures Lookup(FillDefaults(fields, defaults), key) == Lookup(fields, key)
  {
    FillDefaultsKeepsPrefix(fields, defaults);
    LookupOfPrefix(fields, FillDefaults(fields, defaults), key);
  }

  lemma {:induction false} LookupOfPrefix(fields: seq<(string, JValue)>, longer: seq<(string, JValue)>, key: string)
    requires HasKey(fields, key)
    requires |fields| <= |longer| && longer[..|fields|] == fields
    ensures Lookup(longer, key) == Lookup(fields, key)
  {
    if fields[0].0 != key {
      assert longer[0] == fields[0];
      var i :| 0 <= i < |fields| && fields[i].0 == key;
      assert fields[1..][i - 1] == fields[i];
      assert longer[1..][..|fields| - 1] == fields[1..];
      LookupOfPrefix(fields[1..], longer[1..], key);
    }
  }

  /** Running the defaulting twice adds nothing the first run did not. */
  lemma {:induction false} FillDefaultsIdempotent(fields: seq<(string, JValue)>, defaults: seq<(string, JValue)>)
    ensures FillDefaults(FillDefaults(fields, defaults), defaults) == FillDefaults(fields, defaults)
  {
    var r := FillDefaults(fields, defaults);
    forall k | 0 <= k < |defaults| ensures HasKey(r, defaults[k].0) {
      assert HasKey(defaults, defaults[k].0);
      FillDefaultsHasDefaults(fields, defaults, defaults[k].0);
    }
    FillWhenComplete(r, defaults);
  }

  lemma {:induction false} FillWhenComplete(fields: seq<(string, JValue)>, defaults: seq<(string, JValue)>)
    requires forall k :: 0 <= k < |defaults| ==> HasKey(fields, defaults[k].0)
    ensures FillDefaults(fields, defaults) == fields
    decreases |defaults|
  {
    if |defaults| > 0 {
      assert HasKey(fields, defaults[0].0);
      forall k | 0 <= k < |defaults| - 1 ensures HasKey(fields, defaults[1..][k].0) {
        assert defaults[1..][k] == defaults[k + 1];
      }
      FillWhenComplete(fields, defaults[1..]);
    }
  }

  /** No key is added twice: where the settings and the defaults each have
      distinct keys, so does the result. */
  lemma {:induction false} FillDefaultsKeepsKeysDistinct(fields: seq<(string, JValue)>, defaults: seq<(string, JValue)>)
    requires DistinctKeys(fields)
    ensures DistinctKeys(FillDefaults(fields, defaults))
    decreases |defaults|
  {
    if |defaults| > 0 {
      var (k, v) := defaults[0];
      var next := if HasKey(fields, k) then fields else fields + [(k, v)];
      assert DistinctKeys(next) by {
        if !HasKey(fields, k) {
          forall i | 0 <= i < |fields| ensures next[i].0 != next[|fields|].0 {
            assert next[i] == fields[i];
          }
        }
      }
      FillDefaultsKeepsKeysDistinct(next, defaults[1..]);
    }
  }

  /** `ensureSettings` is idempotent: on what it left behind it changes
      nothing. */
  lemma EnsuredIdempotent(slot: JValue)
    requires Ensured(slot).Some?
    ensures Ensured(Ensured(slot).value) == Ensured(slot)
  {
    var s := Ensured(slot).value;
    if !Truthy(slot) {
      forall k | 0 <= k < |DefaultFields| ensures HasKey(DefaultFields, DefaultFields[k].0) {
      }
      FillWhenComplete(DefaultFields, DefaultFields);
    } else {
      FillDefaultsIdempotent(slot.fields, DefaultFields);
    }
  }

  /** After `ensureSettings` the slot holds an object with every default key,
      whose properties start with the ones it had before. */
  lemma EnsuredHasDefaults(slot: JValue, key: string)
    requires Ensured(slot).Some?
    requires HasKey(DefaultFields, key)
    ensures Ensured(slot).value.JObj?
    ensures HasKey(Ensured(slot).value.fields, key)
    ensures slot.JObj? ==> Ensured(slot).value.fields[..|slot.fields|] == slot.fields
  {
    if Truthy(slot) {
      FillDefaultsHasDefaults(slot.fields, DefaultFields, key);
      FillDefaultsKeepsPrefix(slot.fields, DefaultFields);
    }
  }
}
