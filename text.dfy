/** Text normalisation (text.js): `normalizeText`, `stringifyPrompt` and
    `formatTagList`, the canonical comma-separated tag form every generated
    section is put into. */
module Text {
  import opened Strings
  import opened Json

  /** The characters `formatTagList` splits on, `/[,.;\n]+/`. */
  predicate IsSeparator(c: char) {
    c == ',' || c == '.' || c == ';' || c == '\n'
  }

  predicate NoSeparator(s: string) {
    forall i :: 0 <= i < |s| ==> !IsSeparator(s[i])
  }

  predicate IsUpper(c: char) {
    'A' as int <= c as int <= 'Z' as int
  }

  function LowerChar(c: char): char {
    if IsUpper(c) then (c as int + 32) as char else c
  }

  /** `s.toLowerCase()` */
  function Lower(s: string): string {
    seq(|s|, i requires 0 <= i < |s| => LowerChar(s[i]))
  }

  /** `s.replace(/\s+/g, ' ')`: every run of whitespace becomes one space.
      The result has no whitespace but single spaces, keeps a non-space first
      or last character, and adds no other character. */
  function Collapse(s: string): (r: string)
    ensures |r| <= |s| && (|s| > 0 <==> |r| > 0)
    ensures forall i :: 0 <= i < |r| && IsSpace(r[i]) ==> r[i] == ' '
    ensures forall i :: 0 <= i < |r| - 1 ==> !(r[i] == ' ' && r[i + 1] == ' ')
    ensures |s| > 0 && IsSpace(s[0]) ==> r[0] == ' '
    ensures |s| > 0 && !IsSpace(s[0]) ==> r[0] == s[0]
    ensures |s| > 0 && !IsSpace(s[|s| - 1]) ==> r[|r| - 1] == s[|s| - 1]
    ensures forall i :: 0 <= i < |r| && !IsSpace(r[i]) ==> r[i] in s
  {
    if |s| == 0 then ""
    else if IsSpace(s[0]) then
      if |s| > 1 && IsSpace(s[1]) then Collapse(s[1..]) else " " + Collapse(s[1..])
    else [s[0]] + Collapse(s[1..])
  }

  /** The non-whitespace characters of `s`, in order. */
  function NonSpace(s: string): (r: string)
    ensures |r| <= |s|
  {
    if |s| == 0 then ""
    else (if IsSpace(s[0]) then "" else [s[0]]) + NonSpace(s[1..])
  }

  /** Collapsing whitespace keeps every other character, in order. */
  lemma {:induction false} CollapseKeepsNonSpace(s: string)
    ensures NonSpace(Collapse(s)) == NonSpace(s)
  {
    if |s| > 0 {
      CollapseKeepsNonSpace(s[1..]);
      var rest := Collapse(s[1..]);
      if IsSpace(s[0]) {
        assert (" " + rest)[1..] == rest;
      } else {
        assert ([s[0]] + rest)[1..] == rest;
      }
    }
  }

  /** Text that ends in a non-space collapses independently of what follows. */
  lemma {:induction false} CollapseAppend(x: string, y: string)
    requires |x| > 0 && !IsSpace(x[|x| - 1])
    ensures Collapse(x + y) == Collapse(x) + Collapse(y)
  {
    var xs := x[1..];
    if |x| == 1 {
      assert Collapse(x + y) == [x[0]] + Collapse(y) by {
        CollapseStep(x + y);
        assert (x + y)[1..] == y;
      }
      assert Collapse(x) == [x[0]] by {
        CollapseStep(x);
        assert xs == "";
      }
    } else {
      var h := CollapseHead(x);
      assert Collapse(x) == h + Collapse(xs) by {
        CollapseStep(x);
      }
      assert Collapse(x + y) == h + Collapse(xs + y) by {
        CollapseStep(x + y);
        assert (x + y)[0] == x[0] && (x + y)[1] == x[1];
        assert (x + y)[1..] == xs + y;
      }
      CollapseAppend(xs, y);
      ConcatAssoc(h, Collapse(xs), Collapse(y));
    }
  }

  lemma ConcatAssoc(a: string, b: string, c: string)
    ensures a + (b + c) == (a + b) + c
  {
  }

  /** What the first character of `s` contributes to `Collapse(s)`. */
  function CollapseHead(s: string): string
    requires |s| > 0
  {
    if IsSpace(s[0]) then (if |s| > 1 && IsSpace(s[1]) then "" else " ") else [s[0]]
  }

  lemma CollapseStep(s: string)
    requires |s| > 0
    ensures Collapse(s) == CollapseHead(s) + Collapse(s[1..])
  {
  }

  /** A whitespace run in front of a non-space becomes exactly one space. */
  lemma {:induction false} CollapseSpaceRun(w: string, b: string)
    requires |w| > 0 && AllSpace(w) && |b| > 0 && !IsSpace(b[0])
    ensures Collapse(w + b) == " " + Collapse(b)
  {
    assert (w + b)[1..] == w[1..] + b;
    if |w| == 1 {
      assert w[1..] + b == b;
    } else {
      assert (w + b)[1] == w[1];
      CollapseSpaceRun(w[1..], b);
    }
  }

  /** `replace(/\s+/g, ' ')` turns a whitespace run between two non-space
      characters into a single space and leaves both sides as they are. */
  lemma CollapseRun(a: string, w: string, b: string)
    requires |a| > 0 && !IsSpace(a[|a| - 1])
    requires |w| > 0 && AllSpace(w)
    requires |b| > 0 && !IsSpace(b[0])
    ensures Collapse(a + w + b) == Collapse(a) + " " + Collapse(b)
  {
    assert a + w + b == a + (w + b);
    CollapseAppend(a, w + b);
    CollapseSpaceRun(w, b);
  }

  /** A character a tag may hold: no separator, no upper-case letter, and no
      whitespace other than the plain space. */
  predicate TagChar(c: char) {
    !IsSeparator(c) && !IsUpper(c) && (IsSpace(c) ==> c == ' ')
  }

  /** One tag of `formatTagList`'s output: non-empty, trimmed, lower-case,
      without separators and without runs of whitespace. */
  predicate IsTag(t: string) {
    && |t| > 0
    && IsTrimmed(t)
    && (forall i :: 0 <= i < |t| ==> TagChar(t[i]))
    && (forall i :: 0 <= i < |t| - 1 ==> !(t[i] == ' ' && t[i + 1] == ' '))
  }

  /** `segment.trim().replace(/\s+/g, ' ').toLowerCase()` */
  function Canon(segment: string): string {
    Lower(Collapse(Trim(segment)))
  }

  /** The pieces of `s` between single separator characters, none of which
      holds a separator. `s.split(/[,.;\n]+/)` cuts at whole runs of
      separators instead, so where it gives `["a", "b"]` for `"a,,b"` this
      gives `["a", "", "b"]`; the extra pieces are empty and `CleanSegments`
      drops them, as the `filter(Boolean)` after the split does, so the tags
      are the same. */
  function SplitSegments(s: string): (r: seq<string>)
    ensures |r| > 0
    ensures forall i :: 0 <= i < |r| ==> NoSeparator(r[i])
  {
    if |s| == 0 then [""]
    else
      var rest := SplitSegments(s[1..]);
      if IsSeparator(s[0]) then [""] + rest
      else [[s[0]] + rest[0]] + rest[1..]
  }

  /** `.map(canon).filter(Boolean)` over the split pieces. */
  function CleanSegments(segments: seq<string>): (r: seq<string>)
    requires forall i :: 0 <= i < |segments| ==> NoSeparator(segments[i])
    ensures forall i :: 0 <= i < |r| ==> IsTag(r[i])
  {
    if |segments| == 0 then []
    else
      var rest := CleanSegments(segments[1..]);
      var c := Canon(segments[0]);
      if c == "" then rest
      else
        CanonIsTag(segments[0]);
        TagsCons(c, rest);
        [c] + rest
  }

  lemma TagsCons(t: string, rest: seq<string>)
    requires IsTag(t) && forall i :: 0 <= i < |rest| ==> IsTag(rest[i])
    ensures forall i :: 0 <= i < |[t] + rest| ==> IsTag(([t] + rest)[i])
  {
  }

  /** `part.replace(/\r/g, '')` */
  function RemoveCR(s: string): (r: string)
    ensures forall i :: 0 <= i < |r| ==> r[i] != '\r' && r[i] in s
  {
    if |s| == 0 then ""
    else (if s[0] == '\r' then "" else [s[0]]) + RemoveCR(s[1..])
  }

  /** The first `map`/`filter` of `formatTagList`: carriage returns removed,
      empty and whitespace-only parts dropped. */
  function KeptParts(parts: seq<string>): seq<string> {
    if |parts| == 0 then []
    else
      var p := RemoveCR(parts[0]);
      (if |p| > 0 && Trim(p) != "" then [p] else []) + KeptParts(parts[1..])
  }

  /** The tags `formatTagList(...parts)` joins, for parts already passed
      through `stringifyPrompt`. */
  function TagsOf(parts: seq<string>): (r: seq<string>)
    ensures forall i :: 0 <= i < |r| ==> IsTag(r[i])
  {
    CleanSegments(SplitSegments(Join(KeptParts(parts), ", ")))
  }

  /** `formatTagList(...parts)` */
  function FormatTagList(parts: seq<string>): string {
    Join(TagsOf(parts), ", ")
  }

  /** `normalizeText(value)`: the trimmed string, or `None` for a non-string
      or an all-whitespace string. */
  function NormalizeText(v: JValue): (r: Option<string>)
    ensures !v.JStr? ==> r.None?
    ensures v.JStr? ==> (r.None? <==> AllSpace(v.s))
    ensures r.Some? ==> r.value != "" && IsTrimmed(r.value)
  {
    if v.JStr? && Trim(v.s) != "" then Some(Trim(v.s)) else None
  }

  /** `stringifyPrompt(value)`. `JSON.stringify` is the host's serialiser,
      given as `json`; `None` stands for a serialiser that threw. The function
      is total: it never fails. */
  function StringifyPrompt(v: JValue, json: JValue -> Option<string>): (r: string)
    ensures IsNullish(v) ==> r == ""
    ensures v.JStr? ==> r == v.s
    ensures v.JNum? ==> r == IntToString(v.n)
    ensures v.JBool? ==> r == (if v.b then "true" else "false")
    ensures v.JArr? || v.JObj? || v.JMap? ==> r == (if json(v).Some? then json(v).value else "")
  {
    match v
    case JUndefined => ""
    case JNull => ""
    case JStr(s) => s
    case JNum(_) => ToJsString(v)
    case JBool(_) => ToJsString(v)
    case _ => match json(v) case Some(text) => text case None => ""
  }

  /** `stringifyPrompt` of a string-or-null: what `formatTagList` makes of
      the result of `normalizeText`. */
  function OrEmpty(o: Option<string>): string {
    match o case Some(s) => s case None => ""
  }

  // ---------------------------------------------------------------------
  // normalizeText

  /** Normalising a normalised value gives it back. */
  lemma NormalizeTextIdempotent(v: JValue)
    requires NormalizeText(v).Some?
    ensures NormalizeText(JStr(NormalizeText(v).value)) == NormalizeText(v)
  {
    TrimOfTrimmed(NormalizeText(v).value);
  }

  /** The structured-output fields are applied as
      `normalizeText(stringifyPrompt(value)) ?? ''` (ui.js): always a trimmed
      string, `""` for a missing value, the decimal form for a number. */
  lemma AppliedFieldIsTrimmed(v: JValue, json: JValue -> Option<string>)
    ensures var r := OrEmpty(NormalizeText(JStr(StringifyPrompt(v, json))));
            && IsTrimmed(r)
            && (IsNullish(v) ==> r == "")
            && (v.JNum? ==> r == IntToString(v.n))
  {
    if v.JNum? {
      TrimOfTrimmed(IntToString(v.n));
    }
  }

  // ---------------------------------------------------------------------
  // Canonical segments

  /** The trimmed string is a slice of the original, so it adds no character. */
  lemma TrimCharsFrom(s: string)
    ensures forall i :: 0 <= i < |Trim(s)| ==> Trim(s)[i] in s
  {
    var t := TrimStart(s);
    forall i | 0 <= i < |Trim(s)| ensures Trim(s)[i] in s {
      assert Trim(s)[i] == t[i] == s[|s| - |t| + i];
    }
  }

  lemma LowerFacts(s: string)
    ensures |Lower(s)| == |s|
    ensures forall i :: 0 <= i < |s| ==> !IsUpper(Lower(s)[i])
    ensures forall i :: 0 <= i < |s| ==> (IsSpace(Lower(s)[i]) <==> IsSpace(s[i]))
    ensures forall i :: 0 <= i < |s| ==> (IsSeparator(Lower(s)[i]) <==> IsSeparator(s[i]))
    ensures forall i :: 0 <= i < |s| ==> (Lower(s)[i] == ' ' <==> s[i] == ' ')
  {
  }

  /** A piece between separators canonicalises to `""` exactly when it is
      blank, and otherwise to a tag. */
  lemma CanonIsTag(segment: string)
    requires NoSeparator(segment)
    ensures Canon(segment) == "" <==> AllSpace(segment)
    ensures Canon(segment) != "" ==> IsTag(Canon(segment))
  {
    var t := Trim(segment);
    LowerFacts(Collapse(t));
    if t != "" {
      TrimNoSeparator(segment);
      CollapsedIsTag(t);
    }
  }

  lemma TrimNoSeparator(s: string)
    requires NoSeparator(s)
    ensures NoSeparator(Trim(s))
  {
    TrimCharsFrom(s);
  }

  /** Collapsing and lower-casing a trimmed, separator-free, non-empty
      string gives a tag. */
  lemma CollapsedIsTag(t: string)
    requires t != "" && IsTrimmed(t) && NoSeparator(t)
    ensures IsTag(Lower(Collapse(t)))
  {
    var c := Collapse(t);
    forall i | 0 <= i < |c| ensures !IsSeparator(c[i]) {
      if !IsSpace(c[i]) {
        assert c[i] in t;
      }
    }
    LowerIsTag(c);
  }

  lemma LowerIsTag(c: string)
    requires c != "" && IsTrimmed(c) && NoSeparator(c)
    requires forall i :: 0 <= i < |c| && IsSpace(c[i]) ==> c[i] == ' '
    requires forall i :: 0 <= i < |c| - 1 ==> !(c[i] == ' ' && c[i + 1] == ' ')
    ensures IsTag(Lower(c))
  {
    LowerFacts(c);
  }

  /** The collapse of a string whose only whitespace is isolated single
      spaces leaves it unchanged. */
  lemma {:induction false} CollapseOfTagChars(t: string)
    requires forall i :: 0 <= i < |t| ==> (IsSpace(t[i]) ==> t[i] == ' ')
    requires forall i :: 0 <= i < |t| - 1 ==> !(t[i] == ' ' && t[i + 1] == ' ')
    ensures Collapse(t) == t
  {
    if |t| > 0 {
      var rest := t[1..];
      forall i | 0 <= i < |rest| ensures IsSpace(rest[i]) ==> rest[i] == ' ' {
        assert rest[i] == t[i + 1];
      }
      forall i | 0 <= i < |rest| - 1 ensures !(rest[i] == ' ' && rest[i + 1] == ' ') {
        assert rest[i] == t[i + 1] && rest[i + 1] == t[i + 2];
      }
      CollapseOfTagChars(rest);
      assert [t[0]] + rest == t;
      if IsSpace(t[0]) && |t| > 1 {
        assert !IsSpace(t[1]);
      }
    }
  }

  /** Leading spaces in front of a tag canonicalise away. */
  lemma CanonOfPaddedTag(w: string, t: string)
    requires forall i :: 0 <= i < |w| ==> w[i] == ' '
    requires IsTag(t)
    ensures Canon(w + t) == t
  {
    TrimStartOfPadded(w, t);
    TrimEndOfNonSpace(t);
    assert Trim(w + t) == t;
    CollapseOfTagChars(t);
    LowerOfLower(t);
  }

  lemma {:induction false} TrimStartOfPadded(w: string, t: string)
    requires forall i :: 0 <= i < |w| ==> w[i] == ' '
    requires |t| > 0 && !IsSpace(t[0])
    ensures TrimStart(w + t) == t
  {
    if |w| == 0 {
      assert w + t == t;
      TrimStartOfNonSpace(t);
    } else {
      assert (w + t)[1..] == w[1..] + t;
      TrimStartOfPadded(w[1..], t);
    }
  }

  lemma LowerOfLower(t: string)
    requires forall i :: 0 <= i < |t| ==> !IsUpper(t[i])
    ensures Lower(t) == t
  {
  }

  // ---------------------------------------------------------------------
  // Splitting

  lemma {:induction false} SplitOfSeparatorFree(a: string)
    requires NoSeparator(a)
    ensures SplitSegments(a) == [a]
  {
    if |a| > 0 {
      SplitOfSeparatorFree(a[1..]);
      assert [a[0]] + a[1..] == a;
    }
  }

  /** A separator cuts off the piece in front of it. */
  lemma {:induction false} SplitAtSeparator(a: string, c: char, b: string)
    requires NoSeparator(a) && IsSeparator(c)
    ensures SplitSegments(a + [c] + b) == [a] + SplitSegments(b)
  {
    if |a| == 0 {
      assert (a + [c] + b)[1..] == b;
    } else {
      var s := a + [c] + b;
      assert s[0] == a[0] && s[1..] == a[1..] + [c] + b;
      SplitAtSeparator(a[1..], c, b);
      var rest := SplitSegments(s[1..]);
      assert rest[0] == a[1..] && rest[1..] == SplitSegments(b);
      assert [a[0]] + a[1..] == a;
    }
  }

  /** Splitting tags joined with `", "` and canonicalising the pieces gives
      the tags back; `w` is the space each later piece starts with. */
  lemma {:induction false} CleanSplitJoin(w: string, ts: seq<string>)
    requires forall i :: 0 <= i < |w| ==> w[i] == ' '
    requires |ts| > 0
    requires forall i :: 0 <= i < |ts| ==> IsTag(ts[i])
    ensures CleanSegments(SplitSegments(w + Join(ts, ", "))) == ts
    decreases |ts|
  {
    if |ts| == 1 {
      CleanSplitSingle(w, ts);
    } else {
      TagsOfTail(ts);
      CleanSplitJoin(" ", ts[1..]);
      CleanSplitStep(w, ts);
    }
  }

  lemma CleanSplitSingle(w: string, ts: seq<string>)
    requires forall i :: 0 <= i < |w| ==> w[i] == ' '
    requires |ts| == 1 && IsTag(ts[0])
    ensures CleanSegments(SplitSegments(w + Join(ts, ", "))) == ts
  {
    var head := w + ts[0];
    PaddedHead(w, ts[0]);
    SingleTag(ts);
    SplitOfSeparatorFree(head);
    SegmentsCons(head, []);
    CleanStep(head, [], ts[0], []);
  }

  lemma CleanSplitStep(w: string, ts: seq<string>)
    requires forall i :: 0 <= i < |w| ==> w[i] == ' '
    requires |ts| >= 2 && IsTag(ts[0])
    requires CleanSegments(SplitSegments(" " + Join(ts[1..], ", "))) == ts[1..]
    ensures CleanSegments(SplitSegments(w + Join(ts, ", "))) == ts
  {
    var head := w + ts[0];
    PaddedHead(w, ts[0]);
    SplitJoinStep(w, ts);
    var tail := SplitSegments(" " + Join(ts[1..], ", "));
    SegmentsCons(head, tail);
    CleanStep(head, tail, ts[0], ts[1..]);
    ConsTail(ts);
  }

  lemma CleanStep(head: string, tail: seq<string>, t: string, rest: seq<string>)
    requires forall i :: 0 <= i < |tail| ==> NoSeparator(tail[i])
    requires forall i :: 0 <= i < |[head] + tail| ==> NoSeparator(([head] + tail)[i])
    requires Canon(head) == t && t != ""
    requires CleanSegments(tail) == rest
    ensures CleanSegments([head] + tail) == [t] + rest
  {
    CleanCons(head, tail);
  }

  lemma SegmentsCons(head: string, tail: seq<string>)
    requires NoSeparator(head) && forall i :: 0 <= i < |tail| ==> NoSeparator(tail[i])
    ensures forall i :: 0 <= i < |[head] + tail| ==> NoSeparator(([head] + tail)[i])
  {
  }

  lemma SingleTag(ts: seq<string>)
    requires |ts| == 1
    ensures Join(ts, ", ") == ts[0] && [ts[0]] + [] == ts
  {
  }

  lemma ConsTail(ts: seq<string>)
    requires |ts| > 0
    ensures [ts[0]] + ts[1..] == ts
  {
  }

  /** The first piece, padded with spaces, is separator-free and
      canonicalises to the tag. */
  lemma PaddedHead(w: string, t: string)
    requires forall i :: 0 <= i < |w| ==> w[i] == ' '
    requires IsTag(t)
    ensures NoSeparator(w + t) && Canon(w + t) == t
  {
    var head := w + t;
    forall i | 0 <= i < |head| ensures !IsSeparator(head[i]) {
      if i >= |w| { assert head[i] == t[i - |w|]; }
    }
    CanonOfPaddedTag(w, t);
  }

  lemma TagsOfTail(ts: seq<string>)
    requires |ts| > 0
    requires forall i :: 0 <= i < |ts| ==> IsTag(ts[i])
    ensures forall i :: 0 <= i < |ts[1..]| ==> IsTag(ts[1..][i])
  {
  }

  /** The `,` after the first tag ends the first segment. */
  lemma SplitJoinStep(w: string, ts: seq<string>)
    requires |ts| >= 2 && NoSeparator(w + ts[0])
    ensures SplitSegments(w + Join(ts, ", "))
            == [w + ts[0]] + SplitSegments(" " + Join(ts[1..], ", "))
  {
    JoinAfterPad(w, ts);
    SplitAtSeparator(w + ts[0], ',', " " + Join(ts[1..], ", "));
  }

  lemma JoinAfterPad(w: string, ts: seq<string>)
    requires |ts| >= 2
    ensures w + Join(ts, ", ") == (w + ts[0]) + [','] + (" " + Join(ts[1..], ", "))
  {
    assert Join(ts, ", ") == ts[0] + ", " + Join(ts[1..], ", ");
    Regroup(w, ts[0], Join(ts[1..], ", "));
  }

  lemma Regroup(a: string, b: string, c: string)
    ensures a + (b + ", " + c) == (a + b) + [','] + (" " + c)
  {
    assert ", " == [','] + " ";
  }

  lemma {:induction false} CleanCons(segment: string, rest: seq<string>)
    requires forall i :: 0 <= i < |[segment] + rest| ==> NoSeparator(([segment] + rest)[i])
    ensures forall i :: 0 <= i < |rest| ==> NoSeparator(rest[i])
    ensures var c := Canon(segment);
            CleanSegments([segment] + rest) == (if c == "" then [] else [c]) + CleanSegments(rest)
  {
    var segments := [segment] + rest;
    assert segments[1..] == rest;
    assert segments[0] == segment;
  }

  /** `formatTagList` of a string that is already a joined list of tags
      returns exactly those tags: its output is separated by exactly `", "`
      and parses back into the tags it was made of. */
  lemma {:induction false} TagsOfJoinedTags(ts: seq<string>)
    requires forall i :: 0 <= i < |ts| ==> IsTag(ts[i])
    ensures TagsOf([Join(ts, ", ")]) == ts
  {
    var s := Join(ts, ", ");
    if |ts| == 0 {
      TagsOfEmpty();
    } else {
      assert Join(KeptParts([s]), ", ") == "" + s by {
        KeptJoinedTags(ts);
      }
      assert CleanSegments(SplitSegments("" + s)) == ts by {
        CleanSplitJoin("", ts);
      }
    }
  }

  lemma TagsOfEmpty()
    ensures TagsOf([""]) == []
  {
    assert KeptParts([""]) == [];
    assert SplitSegments("") == [""];
    assert CleanSegments([""]) == [];
  }

  /** A non-empty joined list of tags survives the first filter of
      `formatTagList` unchanged. */
  lemma {:induction false} KeptJoinedTags(ts: seq<string>)
    requires |ts| > 0
    requires forall i :: 0 <= i < |ts| ==> IsTag(ts[i])
    ensures KeptParts([Join(ts, ", ")]) == [Join(ts, ", ")]
  {
    var s := Join(ts, ", ");
    JoinedTagsFacts(ts);
    assert RemoveCR(s) == s by { RemoveCROfClean(s); }
    assert Trim(s) != "";
    assert KeptParts([s]) == [s] + KeptParts([]);
  }

  /** A joined list of tags holds no carriage return, and starts with a
      non-space when it is not empty. */
  lemma {:induction false} JoinedTagsFacts(ts: seq<string>)
    requires forall i :: 0 <= i < |ts| ==> IsTag(ts[i])
    ensures var s := Join(ts, ", ");
            && (forall i :: 0 <= i < |s| ==> s[i] != '\r')
            && (|ts| == 0 <==> s == "")
            && (|ts| > 0 ==> !IsSpace(s[0]))
  {
    if |ts| > 1 {
      JoinedTagsFacts(ts[1..]);
      var rest := Join(ts[1..], ", ");
      var s := ts[0] + ", " + rest;
      forall i | 0 <= i < |s| ensures s[i] != '\r' {
        if i >= |ts[0]| + 2 { assert s[i] == rest[i - |ts[0]| - 2]; }
      }
    }
    RemoveCROfClean(Join(ts, ", "));
  }

  lemma {:induction false} RemoveCROfClean(s: string)
    ensures (forall i :: 0 <= i < |s| ==> s[i] != '\r') ==> RemoveCR(s) == s
  {
    if |s| > 0 {
      RemoveCROfClean(s[1..]);
    }
  }

  /** `formatTagList` is idempotent. */
  lemma FormatTagListIdempotent(parts: seq<string>)
    ensures FormatTagList([FormatTagList(parts)]) == FormatTagList(parts)
  {
    TagsOfJoinedTags(TagsOf(parts));
  }

  // ---------------------------------------------------------------------
  // Parts that yield no tag

  /** Every character is whitespace or one of the separators. */
  predicate OnlySeparators(s: string) {
    forall i :: 0 <= i < |s| ==> IsSpace(s[i]) || IsSeparator(s[i])
  }

  /** `formatTagList` gives `""` when every part is empty, whitespace-only,
      or made of separators and whitespace alone (`"."`, `" ;\n"`). */
  lemma {:induction false} FormatTagListOfSeparators(parts: seq<string>)
    requires forall k :: 0 <= k < |parts| ==> OnlySeparators(parts[k])
    ensures FormatTagList(parts) == ""
  {
    var kept := KeptParts(parts);
    KeptOnlySeparators(parts);
    JoinOnlySeparators(kept);
    var segments := SplitSegments(Join(kept, ", "));
    SplitOnlySeparators(Join(kept, ", "));
    CleanOfBlank(segments);
  }

  lemma {:induction false} KeptOnlySeparators(parts: seq<string>)
    requires forall k :: 0 <= k < |parts| ==> OnlySeparators(parts[k])
    ensures forall k :: 0 <= k < |KeptParts(parts)| ==> OnlySeparators(KeptParts(parts)[k])
  {
    if |parts| > 0 {
      var p := RemoveCR(parts[0]);
      assert OnlySeparators(p) by {
        forall i | 0 <= i < |p| ensures IsSpace(p[i]) || IsSeparator(p[i]) {
          var j :| 0 <= j < |parts[0]| && parts[0][j] == p[i];
        }
      }
      forall k | 0 <= k < |parts| - 1 ensures OnlySeparators(parts[1..][k]) {
        assert parts[1..][k] == parts[k + 1];
      }
      KeptOnlySeparators(parts[1..]);
    }
  }

  lemma {:induction false} JoinOnlySeparators(parts: seq<string>)
    requires forall k :: 0 <= k < |parts| ==> OnlySeparators(parts[k])
    ensures OnlySeparators(Join(parts, ", "))
  {
    if |parts| > 1 {
      forall k | 0 <= k < |parts| - 1 ensures OnlySeparators(parts[1..][k]) {
        assert parts[1..][k] == parts[k + 1];
      }
      JoinOnlySeparators(parts[1..]);
      var rest := Join(parts[1..], ", ");
      var j := parts[0] + ", " + rest;
      forall i | 0 <= i < |j| ensures IsSpace(j[i]) || IsSeparator(j[i]) {
        if i < |parts[0]| {
          assert j[i] == parts[0][i];
        } else if i >= |parts[0]| + 2 {
          assert j[i] == rest[i - |parts[0]| - 2];
        }
      }
    }
  }

  /** Splitting a string of separators and whitespace leaves whitespace
      pieces only. */
  lemma {:induction false} SplitOnlySeparators(s: string)
    requires OnlySeparators(s)
    ensures forall k :: 0 <= k < |SplitSegments(s)| ==> AllSpace(SplitSegments(s)[k])
  {
    if |s| > 0 {
      SplitOnlySeparators(s[1..]);
      var rest := SplitSegments(s[1..]);
      if !IsSeparator(s[0]) {
        var first := [s[0]] + rest[0];
        assert AllSpace(first) by {
          forall i | 0 <= i < |first| ensures IsSpace(first[i]) {
            if i > 0 { assert first[i] == rest[0][i - 1]; }
          }
        }
        var r := [first] + rest[1..];
        forall k | 1 <= k < |r| ensures AllSpace(r[k]) {
          assert r[k] == rest[k];
        }
      }
    }
  }

  lemma {:induction false} CleanOfBlank(segments: seq<string>)
    requires forall k :: 0 <= k < |segments| ==> NoSeparator(segments[k]) && AllSpace(segments[k])
    ensures CleanSegments(segments) == []
  {
    if |segments| > 0 {
      CanonIsTag(segments[0]);
      assert forall k :: 0 <= k < |segments| - 1 ==> segments[1..][k] == segments[k + 1];
      CleanOfBlank(segments[1..]);
    }
  }

  // ---------------------------------------------------------------------
  // A leading word survives

  /** A non-empty run of tag characters with no whitespace. */
  predicate IsWord(w: string) {
    |w| > 0 && forall i :: 0 <= i < |w| ==> TagChar(w[i]) && !IsSpace(w[i])
  }

  /** A part that starts with a word gives a tag list that starts with that
      word: the word is neither trimmed, collapsed, lower-cased nor split. */
  lemma {:induction false} FormatTagListLeadingWord(w: string, z: string)
    requires IsWord(w)
    ensures var r := FormatTagList([w + z]);
            |r| >= |w| && r[..|w|] == w
  {
    var tags := TagsOf([w + z]);
    TagsOfWord(w, z);
    assert Join(tags, ", ")[..|tags[0]|] == tags[0] by {
      if |tags| > 1 { JoinEnds(tags, ", "); }
    }
  }

  lemma {:induction false} TagsOfWord(w: string, z: string)
    requires IsWord(w)
    ensures var tags := TagsOf([w + z]);
            |tags| > 0 && |tags[0]| >= |w| && tags[0][..|w|] == w
  {
    var x := w + RemoveCR(z);
    KeptOfWord(w, z);
    assert Join([x], ", ") == x;
    var segments := SplitSegments(x);
    assert segments[0] == w + SplitSegments(RemoveCR(z))[0] by {
      SplitSegmentsPrefix(w, RemoveCR(z));
    }
    CanonPrefix(w, SplitSegments(RemoveCR(z))[0]);
    CleanFirst(segments);
  }

  lemma {:induction false} KeptOfWord(w: string, z: string)
    requires IsWord(w)
    ensures KeptParts([w + z]) == [w + RemoveCR(z)]
  {
    var x := w + RemoveCR(z);
    assert RemoveCR(w + z) == x by {
      RemoveCRAppend(w, z);
      RemoveCROfClean(w);
    }
    assert !AllSpace(x) by { assert x[0] == w[0]; }
    assert [w + z][1..] == [];
  }

  lemma {:induction false} CleanFirst(segments: seq<string>)
    requires |segments| > 0
    requires forall k :: 0 <= k < |segments| ==> NoSeparator(segments[k])
    requires Canon(segments[0]) != ""
    ensures |CleanSegments(segments)| > 0 && CleanSegments(segments)[0] == Canon(segments[0])
  {
  }

  lemma {:induction false} RemoveCRAppend(a: string, b: string)
    ensures RemoveCR(a + b) == RemoveCR(a) + RemoveCR(b)
    decreases |a|
  {
    if |a| > 0 {
      assert (a + b)[1..] == a[1..] + b;
      RemoveCRAppend(a[1..], b);
    } else {
      assert a + b == b;
    }
  }

  lemma {:induction false} SplitSegmentsPrefix(a: string, b: string)
    requires NoSeparator(a)
    ensures SplitSegments(a + b)[0] == a + SplitSegments(b)[0]
    decreases |a|
  {
    if |a| == 0 {
      assert a + b == b;
    } else {
      assert (a + b)[1..] == a[1..] + b;
      assert (a + b)[0] == a[0];
      SplitSegmentsPrefix(a[1..], b);
      assert [a[0]] + (a[1..] + SplitSegments(b)[0]) == a + SplitSegments(b)[0];
    }
  }

  /** `Canon` keeps a leading word. */
  lemma {:induction false} CanonPrefix(w: string, y: string)
    requires IsWord(w)
    ensures |Canon(w + y)| >= |w| && Canon(w + y)[..|w|] == w
  {
    var t := Trim(w + y);
    TrimOfWordStart(w, y);
    var u := t[|w|..];
    assert t == w + u;
    CollapsePrefix(w, u);
    LowerPrefix(w, Collapse(u));
  }

  lemma {:induction false} TrimOfWordStart(w: string, y: string)
    requires IsWord(w)
    ensures |Trim(w + y)| >= |w| && Trim(w + y)[..|w|] == w
  {
    var s := w + y;
    assert TrimStart(s) == s by {
      assert s[0] == w[0];
      TrimStartOfNonSpace(s);
    }
    assert |TrimEnd(s)| >= |w| by {
      assert s[|w| - 1] == w[|w| - 1];
      TrimEndKeeps(s, |w|);
    }
    assert Trim(s) == TrimEnd(s);
    assert s[..|w|] == w;
  }

  lemma {:induction false} LowerPrefix(w: string, v: string)
    requires forall i :: 0 <= i < |w| ==> !IsUpper(w[i])
    ensures Lower(w + v) == w + Lower(v)
  {
    assert forall i :: 0 <= i < |w| ==> LowerChar(w[i]) == w[i];
  }

  /** Trimming the end never cuts into a non-space character. */
  lemma TrimEndKeeps(s: string, n: nat)
    requires 0 < n <= |s| && !IsSpace(s[n - 1])
    ensures |TrimEnd(s)| >= n
  {
  }

  lemma {:induction false} CollapsePrefix(w: string, u: string)
    requires forall i :: 0 <= i < |w| ==> !IsSpace(w[i])
    ensures Collapse(w + u) == w + Collapse(u)
    decreases |w|
  {
    if |w| == 0 {
      assert w + u == u;
    } else {
      assert (w + u)[1..] == w[1..] + u;
      CollapsePrefix(w[1..], u);
      assert [w[0]] + (w[1..] + Collapse(u)) == w + Collapse(u);
    }
  }

  // ---------------------------------------------------------------------
  // A worked example: two parts, mixed case, and all four separators.

  /** A word with neither whitespace nor a separator in it. */
  predicate PlainWord(w: string) {
    |w| > 0 && forall i :: 0 <= i < |w| ==> !IsSpace(w[i]) && !IsSeparator(w[i])
  }

  lemma {:induction false} CanonOfPlainWord(w: string)
    requires PlainWord(w)
    ensures Canon(w) == Lower(w) && Canon([' '] + w) == Lower(w)
  {
    assert !IsSpace(w[0]) && !IsSpace(w[|w| - 1]);
    TrimOfTrimmed(w);
    var s := [' '] + w;
    assert s[1..] == w;
    TrimStartOfNonSpace(w);
    assert TrimStart(s) == w;
    TrimEndOfNonSpace(w);
    CollapsePrefix(w, "");
    assert w + "" == w;
  }

  /** A segment whose canonical form is not empty survives the cleaning. */
  lemma {:induction false} CleanKept(segment: string, rest: seq<string>)
    requires NoSeparator(segment) && forall i :: 0 <= i < |rest| ==> NoSeparator(rest[i])
    requires Canon(segment) != ""
    ensures forall i :: 0 <= i < |[segment] + rest| ==> NoSeparator(([segment] + rest)[i])
    ensures CleanSegments([segment] + rest) == [Canon(segment)] + CleanSegments(rest)
  {
    SegmentsCons(segment, rest);
    CleanCons(segment, rest);
  }

  lemma {:induction false} CleanPlainWord(w: string, rest: seq<string>)
    requires PlainWord(w) && forall i :: 0 <= i < |rest| ==> NoSeparator(rest[i])
    ensures forall i :: 0 <= i < |[w] + rest| ==> NoSeparator(([w] + rest)[i])
    ensures CleanSegments([w] + rest) == [Lower(w)] + CleanSegments(rest)
  {
    CanonOfPlainWord(w);
    CleanKept(w, rest);
  }

  lemma {:induction false} CleanPaddedWord(w: string, rest: seq<string>)
    requires PlainWord(w) && forall i :: 0 <= i < |rest| ==> NoSeparator(rest[i])
    ensures forall i :: 0 <= i < |[[' '] + w] + rest| ==> NoSeparator(([[' '] + w] + rest)[i])
    ensures CleanSegments([[' '] + w] + rest) == [Lower(w)] + CleanSegments(rest)
  {
    PaddedPlainWord(w);
    CleanKept([' '] + w, rest);
  }

  /** A plain word after a space is still free of separators, and its
      canonical form is the lower-cased word. */
  lemma PaddedPlainWord(w: string)
    requires PlainWord(w)
    ensures NoSeparator([' '] + w) && Canon([' '] + w) == Lower(w) && Lower(w) != ""
  {
    CanonOfPlainWord(w);
    assert |Lower(w)| == |w| > 0;
    PaddedNoSeparator(w);
  }

  lemma PaddedNoSeparator(w: string)
    requires NoSeparator(w)
    ensures NoSeparator([' '] + w)
  {
    var padded := [' '] + w;
    forall i | 0 < i < |padded| ensures !IsSeparator(padded[i]) {
      assert padded[i] == w[i - 1];
    }
  }

  lemma {:induction false} SplitOfWords(a: string, b: string, c: string, d: string, e: string)
    requires PlainWord(a) && PlainWord(b) && PlainWord(c) && PlainWord(d) && PlainWord(e)
    ensures SplitSegments((a + ", " + b + ".") + ", " + (c + ";" + d + "\n" + e))
         == [a] + ([[' '] + b] + ([""] + ([[' '] + c] + ([d] + [e]))))
  {
    var t4 := d + ['\n'] + e;
    var t3 := ([' '] + c) + [';'] + t4;
    var t2 := "" + [','] + t3;
    var t1 := ([' '] + b) + ['.'] + t2;
    assert (a + ", " + b + ".") + ", " + (c + ";" + d + "\n" + e) == a + [','] + t1;
    SplitOfSeparatorFree(e);
    SplitAtSeparator(d, '\n', e);
    SplitAtSeparator([' '] + c, ';', t4);
    SplitAtSeparator("", ',', t3);
    SplitAtSeparator([' '] + b, '.', t2);
    SplitAtSeparator(a, ',', t1);
  }

  lemma {:induction false} CleanOfWords(a: string, b: string, c: string, d: string, e: string)
    requires PlainWord(a) && PlainWord(b) && PlainWord(c) && PlainWord(d) && PlainWord(e)
    ensures CleanSegments([a] + ([[' '] + b] + ([""] + ([[' '] + c] + ([d] + [e])))))
         == [Lower(a)] + ([Lower(b)] + ([Lower(c)] + ([Lower(d)] + [Lower(e)])))
  {
    CleanPlainWord(e, []);
    assert [e] + [] == [e];
    assert [Lower(e)] + [] == [Lower(e)];
    CleanPlainWord(d, [e]);
    var s3 := [[' '] + c] + ([d] + [e]);
    CleanPaddedWord(c, [d] + [e]);
    assert Canon("") == "";
    SegmentsCons("", s3);
    CleanCons("", s3);
    CleanPaddedWord(b, [""] + s3);
    CleanPlainWord(a, [[' '] + b] + ([""] + s3));
  }

  lemma {:induction false} KeptPlain(p: string, rest: seq<string>)
    requires |p| > 0 && !IsSpace(p[0]) && forall i :: 0 <= i < |p| ==> p[i] != '\r'
    ensures KeptParts([p] + rest) == [p] + KeptParts(rest)
  {
    RemoveCROfClean(p);
    assert Trim(p) != "" by { assert !AllSpace(p); }
    assert ([p] + rest)[1..] == rest;
  }

  /** `formatTagList('A, B.', 'C;D\nE')` lower-cases the five words and
      separates them by `", "`. */
  lemma {:induction false} FormatTagListOfWords(a: string, b: string, c: string, d: string, e: string)
    requires PlainWord(a) && PlainWord(b) && PlainWord(c) && PlainWord(d) && PlainWord(e)
    ensures FormatTagList([a + ", " + b + ".", c + ";" + d + "\n" + e])
         == Join([Lower(a), Lower(b), Lower(c), Lower(d), Lower(e)], ", ")
  {
    TagsOfWords(a, b, c, d, e);
  }

  lemma {:induction false} TagsOfWords(a: string, b: string, c: string, d: string, e: string)
    requires PlainWord(a) && PlainWord(b) && PlainWord(c) && PlainWord(d) && PlainWord(e)
    ensures TagsOf([a + ", " + b + ".", c + ";" + d + "\n" + e])
         == [Lower(a), Lower(b), Lower(c), Lower(d), Lower(e)]
  {
    var p, q := a + ", " + b + ".", c + ";" + d + "\n" + e;
    var segments := [a] + ([[' '] + b] + ([""] + ([[' '] + c] + ([d] + [e]))));
    KeptJoinOfWords(a, b, c, d, e);
    SplitOfWords(a, b, c, d, e);
    assert CleanSegments(segments) == [Lower(a), Lower(b), Lower(c), Lower(d), Lower(e)] by {
      CleanOfWords(a, b, c, d, e);
      FiveTags(Lower(a), Lower(b), Lower(c), Lower(d), Lower(e));
    }
  }

  lemma {:induction false} KeptJoinOfWords(a: string, b: string, c: string, d: string, e: string)
    requires PlainWord(a) && PlainWord(b) && PlainWord(c) && PlainWord(d) && PlainWord(e)
    ensures Join(KeptParts([a + ", " + b + ".", c + ";" + d + "\n" + e]), ", ")
         == (a + ", " + b + ".") + ", " + (c + ";" + d + "\n" + e)
  {
    var p, q := a + ", " + b + ".", c + ";" + d + "\n" + e;
    assert p[0] == a[0] && q[0] == c[0];
    assert KeptParts([p, q]) == [p, q] by {
      KeptPlain(q, []);
      assert [q] + [] == [q];
      assert KeptParts([]) == [];
      KeptPlain(p, [q]);
      assert [p] + [q] == [p, q];
    }
    assert [p, q][1..] == [q];
  }

  lemma FiveTags(a: string, b: string, c: string, d: string, e: string)
    ensures [a] + ([b] + ([c] + ([d] + [e]))) == [a, b, c, d, e]
  {
  }

  /** The five tags of the example, joined. */
  lemma JoinTagsExample(ts: seq<string>)
    requires ts == ["hello", "world", "foo", "bar", "baz"]
    ensures Join(ts, ", ") == "hello, world, foo, bar, baz"
  {
    JoinExampleWorld();
    JoinStep("hello", ["world", "foo", "bar", "baz"], ", ");
  }

  lemma JoinExampleWorld()
    ensures Join(["world", "foo", "bar", "baz"], ", ") == "world, foo, bar, baz"
  {
    JoinExampleTail();
    JoinStep("world", ["foo", "bar", "baz"], ", ");
  }

  lemma JoinExampleTail()
    ensures Join(["foo", "bar", "baz"], ", ") == "foo, bar, baz"
  {
    JoinStep("bar", ["baz"], ", ");
    assert Join(["bar", "baz"], ", ") == "bar, baz";
    JoinStep("foo", ["bar", "baz"], ", ");
  }

  lemma JoinStep(first: string, rest: seq<string>, sep: string)
    requires |rest| > 0
    ensures Join([first] + rest, sep) == first + sep + Join(rest, sep)
  {
    assert ([first] + rest)[1..] == rest;
  }

  lemma ExampleWords()
    ensures PlainWord("Hello") && PlainWord("World") && PlainWord("foo")
    ensures PlainWord("bar") && PlainWord("baz")
    ensures Lower("Hello") == "hello" && Lower("World") == "world"
    ensures Lower("foo") == "foo" && Lower("bar") == "bar" && Lower("baz") == "baz"
  {
  }

  lemma ExampleParts()
    ensures "Hello" + ", " + "World" + "." == "Hello, World."
    ensures "foo" + ";" + "bar" + "\n" + "baz" == "foo;bar\nbaz"
  {
  }

  /** The example `formatTagList("Hello, World.", "foo;bar\nbaz")`. */
  lemma FormatTagListExample()
    ensures FormatTagList(["Hello, World.", "foo;bar\nbaz"]) == "hello, world, foo, bar, baz"
  {
    ExampleWords();
    ExampleParts();
    FormatTagListOfWords("Hello", "World", "foo", "bar", "baz");
    JoinTagsExample(["hello", "world", "foo", "bar", "baz"]);
  }
}
