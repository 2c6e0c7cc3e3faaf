/** Extension-path derivation (config.js): where the extension is installed,
    read off the pathname of the URL its own `config.js` was loaded from. */
module Config {
  import opened Json
  import Strings

  /** `FALLBACK_EXTENSION_PATH` */
  const FallbackExtensionPath: string := "third-party/advanced-image-gen"

  /** `SETTINGS_KEY`, the slot of the extension's settings in the host's
      settings map. */
  const SettingsKey: string := "advanced_nai_image"

  const ExtensionsMarker: string := "/extensions/"
  const ConfigMarker: string := "/config.js"

  /** `sep` occurs in `s` at position `i`. */
  predicate OccursAt(s: string, sep: string, i: int) {
    0 <= i && i + |sep| <= |s| && s[i..i + |sep|] == sep
  }

  ghost predicate Contains(s: string, sep: string) {
    exists i :: OccursAt(s, sep, i)
  }

  /** `s.indexOf(sep)`, as the position of the first occurrence. */
  function IndexOf(s: string, sep: string): (r: Option<nat>)
    requires |sep| > 0
    ensures r.Some? ==> OccursAt(s, sep, r.value)
    ensures r.Some? ==> forall j :: 0 <= j < r.value ==> !OccursAt(s, sep, j)
    ensures r.None? ==> !Contains(s, sep)
    decreases |s|
  {
    if |s| < |sep| then None
    else if s[..|sep|] == sep then Some(0)
    else
      match IndexOf(s[1..], sep)
      case None =>
        assert forall j :: OccursAt(s, sep, j) ==> j == 0 || OccursAt(s[1..], sep, j - 1) by {
          forall j | OccursAt(s, sep, j) && j > 0 ensures OccursAt(s[1..], sep, j - 1) {
            assert s[1..][j - 1..j - 1 + |sep|] == s[j..j + |sep|];
          }
        }
        None
      case Some(k) =>
        assert s[k + 1..k + 1 + |sep|] == s[1..][k..k + |sep|];
        assert forall j :: 0 < j < k + 1 && OccursAt(s, sep, j) ==> OccursAt(s[1..], sep, j - 1) by {
          forall j | 0 < j < k + 1 && OccursAt(s, sep, j) ensures OccursAt(s[1..], sep, j - 1) {
            assert s[1..][j - 1..j - 1 + |sep|] == s[j..j + |sep|];
          }
        }
        Some(k + 1)
  }

  /** `s.split(sep)` for a non-empty separator: the pieces between the
      occurrences of `sep`, none of which holds `sep`. */
  function Split(s: string, sep: string): (r: seq<string>)
    requires |sep| > 0
    ensures |r| > 0
    ensures forall k :: 0 <= k < |r| ==> !Contains(r[k], sep)
    decreases |s|
  {
    match IndexOf(s, sep)
    case None => [s]
    case Some(i) =>
      assert forall j :: 0 <= j < i ==> !OccursAt(s, sep, j);
      assert !Contains(s[..i], sep) by {
        forall j | OccursAt(s[..i], sep, j) ensures false {
          assert s[..i][j..j + |sep|] == s[j..j + |sep|];
          assert OccursAt(s, sep, j);
        }
      }
      [s[..i]] + Split(s[i + |sep|..], sep)
  }

  /** `deriveExtensionPath()`. The pathname of `import.meta.url` is given as
      `Some(pathname)`; `None` stands for a URL that could not be parsed.
      The result is never empty and holds neither marker. */
  function DeriveExtensionPath(pathname: Option<string>): (r: string)
    ensures r != ""
    ensures !Contains(r, ExtensionsMarker) && !Contains(r, ConfigMarker)
  {
    FallbackHasNoMarker();
    match pathname
    case None => FallbackExtensionPath
    case Some(p) =>
      var pieces := Split(p, ExtensionsMarker);
      var afterExtensions := if |pieces| > 1 then pieces[1] else "";
      var extensionPath := Split(afterExtensions, ConfigMarker)[0];
      assert !Contains(extensionPath, ExtensionsMarker) by {
        if Contains(extensionPath, ExtensionsMarker) {
          ContainsOfPrefix(afterExtensions, ConfigMarker, ExtensionsMarker);
        }
      }
      if extensionPath != "" then extensionPath else FallbackExtensionPath
  }

  lemma FallbackHasNoMarker()
    ensures !Contains(FallbackExtensionPath, ExtensionsMarker)
    ensures !Contains(FallbackExtensionPath, ConfigMarker)
  {
    FallbackSlash();
    FallbackNoExtensionsMarker();
    FallbackNoConfigMarker();
  }

  /** The fallback path has one `/`, at position 11. */
  lemma FallbackSlash()
    ensures forall i :: 0 <= i < |FallbackExtensionPath| && i != 11 ==> FallbackExtensionPath[i] != '/'
    ensures FallbackExtensionPath[11] == '/' && FallbackExtensionPath[12] == 'a'
  {
    var f := FallbackExtensionPath;
    var a := "third-party";
    var b := "advanced-image-gen";
    assert f == a + "/" + b;
    assert '/' !in a && '/' !in b;
    forall i | 0 <= i < |f| && i != 11 ensures f[i] != '/' {
      if i < 11 { assert f[i] == a[i]; } else { assert f[i] == b[i - 12]; }
    }
  }

  lemma FallbackNoExtensionsMarker()
    requires forall i :: 0 <= i < |FallbackExtensionPath| && i != 11 ==> FallbackExtensionPath[i] != '/'
    ensures !Contains(FallbackExtensionPath, ExtensionsMarker)
  {
    var f := FallbackExtensionPath;
    forall i | 0 <= i <= |f| - |ExtensionsMarker| ensures !OccursAt(f, ExtensionsMarker, i) {
      if f[i] == '/' {
        assert f[i..i + |ExtensionsMarker|][11] == f[i + 11];
      } else {
        assert f[i..i + |ExtensionsMarker|][0] == f[i];
      }
    }
  }

  lemma FallbackNoConfigMarker()
    requires forall i :: 0 <= i < |FallbackExtensionPath| && i != 11 ==> FallbackExtensionPath[i] != '/'
    requires FallbackExtensionPath[12] == 'a'
    ensures !Contains(FallbackExtensionPath, ConfigMarker)
  {
    var f := FallbackExtensionPath;
    forall i | 0 <= i <= |f| - |ConfigMarker| ensures !OccursAt(f, ConfigMarker, i) {
      if f[i] == '/' {
        assert f[i..i + |ConfigMarker|][1] == f[12];
      } else {
        assert f[i..i + |ConfigMarker|][0] == f[i];
      }
    }
  }

  /** The first piece of a split is a prefix of the string, so it holds no
      text the string does not hold. */
  lemma {:induction false} ContainsOfPrefix(s: string, sep: string, other: string)
    requires |sep| > 0
    requires Contains(Split(s, sep)[0], other)
    ensures Contains(s, other)
  {
    var first := Split(s, sep)[0];
    assert first == s[..|first|];
    var i :| OccursAt(first, other, i);
    assert s[i..i + |other|] == first[i..i + |other|];
    assert OccursAt(s, other, i);
  }

  /** Joining the pieces of a split with the separator gives the string
      back. */
  lemma {:induction false} SplitJoin(s: string, sep: string)
    requires |sep| > 0
    ensures Strings.Join(Split(s, sep), sep) == s
    decreases |s|
  {
    match IndexOf(s, sep)
    case None =>
    case Some(i) =>
      var rest := s[i + |sep|..];
      SplitJoin(rest, sep);
      assert s == s[..i] + sep + rest;
  }

  /** Splitting on a one-character separator that no part holds gives the
      joined parts back. */
  lemma {:induction false} SplitOfJoin(parts: seq<string>, c: char)
    requires |parts| > 0
    requires forall k :: 0 <= k < |parts| ==> c !in parts[k]
    ensures Split(Strings.Join(parts, [c]), [c]) == parts
  {
    var s := Strings.Join(parts, [c]);
    var p := parts[0];
    assert forall j :: 0 <= j < |p| ==> !OccursAt(s, [c], j) by {
      forall j | 0 <= j < |p| ensures !OccursAt(s, [c], j) {
        if |parts| > 1 {
          assert s[j] == p[j];
        }
        assert s[j..j + 1][0] == s[j];
      }
    }
    if |parts| == 1 {
      assert !Contains(s, [c]);
    } else {
      var rest := Strings.Join(parts[1..], [c]);
      assert s == p + [c] + rest;
      assert OccursAt(s, [c], |p|) by {
        assert s[|p|..|p| + 1] == [c];
      }
      assert IndexOf(s, [c]) == Some(|p|);
      assert s[..|p|] == p;
      assert s[|p| + 1..] == rest;
      forall k | 0 <= k < |parts| - 1 ensures c !in parts[1..][k] {
        assert parts[1..][k] == parts[k + 1];
      }
      SplitOfJoin(parts[1..], c);
    }
  }

  /** A parse failure, and a pathname without `/extensions/`, give the
      fallback path. */
  lemma {:induction false} DeriveFallbacks(pathname: Option<string>)
    requires pathname.None? || !Contains(pathname.value, ExtensionsMarker)
    ensures DeriveExtensionPath(pathname) == FallbackExtensionPath
  {
    if pathname.Some? {
      SplitEmpty(ConfigMarker);
    }
  }

  lemma SplitEmpty(sep: string)
    requires |sep| > 0
    ensures Split("", sep) == [""]
  {
  }

  /** Where the pathname holds `/extensions/`, the result is read off what
      follows its first occurrence: cut where that rest ends or where the
      next `/extensions/` or `/config.js` begins, so the result holds no
      marker and ends at one or at the end. An empty cut, where the rest is
      empty or opens with a marker, gives the fallback path. */
  lemma {:induction false} DeriveFound(p: string)
    requires Contains(p, ExtensionsMarker)
    ensures var r := DeriveExtensionPath(Some(p));
            var rest := p[IndexOf(p, ExtensionsMarker).value + |ExtensionsMarker|..];
            var emptyCut := rest == "" || OccursAt(rest, ExtensionsMarker, 0) || OccursAt(rest, ConfigMarker, 0);
            && (emptyCut ==> r == FallbackExtensionPath)
            && (!emptyCut ==>
                  && 0 < |r| <= |rest| && r == rest[..|r|]
                  && (forall j :: 0 <= j < |r| ==> !OccursAt(rest, ExtensionsMarker, j) && !OccursAt(rest, ConfigMarker, j))
                  && (|r| == |rest| || OccursAt(rest, ExtensionsMarker, |r|) || OccursAt(rest, ConfigMarker, |r|)))
  {
    var rest := p[IndexOf(p, ExtensionsMarker).value + |ExtensionsMarker|..];
    SplitSecond(p, ExtensionsMarker);
    var after := Split(p, ExtensionsMarker)[1];
    var cut := Split(after, ConfigMarker)[0];
    SplitFirst(rest, ExtensionsMarker);
    SplitFirst(after, ConfigMarker);
    PrefixOfPrefix(rest, after, cut);
    forall j | 0 <= j < |cut| && OccursAt(rest, ConfigMarker, j) ensures false {
      NoStraddle(rest, after, j);
    }
  }

  /** A `/config.js` that starts inside the piece before an `/extensions/`
      ends inside it too: the marker holds no `/` after its first
      character. */
  lemma NoStraddle(rest: string, after: string, j: nat)
    requires |after| <= |rest| && after == rest[..|after|]
    requires after == rest || OccursAt(rest, ExtensionsMarker, |after|)
    requires j < |after| && OccursAt(rest, ConfigMarker, j)
    ensures OccursAt(after, ConfigMarker, j)
  {
    if j + |ConfigMarker| > |after| {
      StraddleImpossible(rest, j, |after|);
      assert false;
    }
    assert after[j..j + |ConfigMarker|] == rest[j..j + |ConfigMarker|];
  }

  /** No `/extensions/` starts inside a `/config.js`. */
  lemma StraddleImpossible(rest: string, j: int, a: int)
    requires OccursAt(rest, ConfigMarker, j) && j < a < j + |ConfigMarker|
    ensures !OccursAt(rest, ExtensionsMarker, a)
  {
    assert rest[a] == rest[j..j + |ConfigMarker|][a - j] == ConfigMarker[a - j];
    assert ConfigMarker[a - j] != '/';
  }

  /** The second piece of a split is the first piece of what follows the
      first occurrence of the separator. */
  lemma SplitSecond(p: string, sep: string)
    requires |sep| > 0 && Contains(p, sep)
    ensures var pieces := Split(p, sep);
            |pieces| > 1 && pieces[1] == Split(p[IndexOf(p, sep).value + |sep|..], sep)[0]
  {
  }

  /** A prefix, cut at a `/config.js`, of a prefix cut at an `/extensions/`
      is a prefix cut at one of the two. */
  lemma PrefixOfPrefix(rest: string, after: string, r: string)
    requires |after| <= |rest| && after == rest[..|after|]
    requires after == rest || OccursAt(rest, ExtensionsMarker, |after|)
    requires |r| <= |after| && r == after[..|r|]
    requires r == after || OccursAt(after, ConfigMarker, |r|)
    ensures |r| <= |rest| && r == rest[..|r|]
    ensures |r| == |rest| || OccursAt(rest, ExtensionsMarker, |r|) || OccursAt(rest, ConfigMarker, |r|)
  {
    if r != after {
      assert rest[|r|..|r| + |ConfigMarker|] == after[|r|..|r| + |ConfigMarker|];
    }
  }

  /** The first piece of a split is a prefix of the string that is the whole
      string or is followed by the separator. */
  lemma {:induction false} SplitFirst(t: string, sep: string)
    requires |sep| > 0
    ensures var f := Split(t, sep)[0];
            |f| <= |t| && f == t[..|f|] && (f == t || OccursAt(t, sep, |f|))
    ensures var f := Split(t, sep)[0];
            forall j :: 0 <= j < |f| ==> !OccursAt(t, sep, j)
  {
  }

  /** The layout the extension is installed in: the pathname
      `/scripts/extensions/third-party/foo/config.js` gives
      `third-party/foo`. */
  lemma {:induction false} DeriveExample(p: string)
    requires p == "/scripts" + ExtensionsMarker + "third-party" + "/" + "foo" + ConfigMarker
    ensures DeriveExtensionPath(Some(p)) == "third-party" + "/" + "foo"
  {
    ExampleMarkers(p);
    var rest := p[20..];
    assert Split(p, ExtensionsMarker)[1] == Split(rest, ExtensionsMarker)[0] == rest;
    assert Split(rest, ConfigMarker)[0] == rest[..15];
    assert rest[..15] == "third-party" + "/" + "foo";
  }

  /** Where the markers sit in the example pathname. */
  lemma {:induction false} ExampleMarkers(p: string)
    requires p == "/scripts" + ExtensionsMarker + "third-party" + "/" + "foo" + ConfigMarker
    ensures IndexOf(p, ExtensionsMarker) == Some(8)
    ensures IndexOf(p[20..], ExtensionsMarker).None?
    ensures IndexOf(p[20..], ConfigMarker) == Some(15)
    ensures p[20..][..15] == "third-party" + "/" + "foo"
  {
    ExampleHead(p);
    assert p[20..] == "third-party" + "/" + "foo" + ConfigMarker;
    ExampleRest(p[20..]);
  }

  lemma {:induction false} ExampleHead(p: string)
    requires p == "/scripts" + ExtensionsMarker + "third-party" + "/" + "foo" + ConfigMarker
    ensures IndexOf(p, ExtensionsMarker) == Some(8)
  {
    ExampleNoEarlyMarker(p);
    assert OccursAt(p, ExtensionsMarker, 8);
  }

  lemma {:induction false} ExampleNoEarlyMarker(p: string)
    requires p == "/scripts" + ExtensionsMarker + "third-party" + "/" + "foo" + ConfigMarker
    ensures forall j :: 0 <= j < 8 ==> !OccursAt(p, ExtensionsMarker, j)
  {
    var a := "scripts";
    assert p[..8] == "/" + a;
    assert '/' !in a;
    forall j | 0 <= j < 8 ensures !OccursAt(p, ExtensionsMarker, j) {
      if j == 0 { assert p[..12][1] == 's'; } else { assert p[j..j + 12][0] == p[j] == a[j - 1]; }
    }
  }

  lemma {:induction false} ExampleRest(rest: string)
    requires rest == "third-party" + "/" + "foo" + ConfigMarker
    ensures IndexOf(rest, ExtensionsMarker).None?
    ensures IndexOf(rest, ConfigMarker) == Some(15)
    ensures rest[..15] == "third-party" + "/" + "foo"
  {
    var b := "third-party";
    var c := "foo";
    assert '/' !in b && '/' !in c;
    forall j | 0 <= j < |rest| && j != 11 && j != 15 ensures rest[j] != '/' {
      if j < 11 { assert rest[j] == b[j]; }
      else if j < 15 { assert rest[j] == c[j - 12]; }
      else { assert rest[j] == ConfigMarker[j - 15]; }
    }
    forall j | 0 <= j <= |rest| - |ExtensionsMarker| ensures !OccursAt(rest, ExtensionsMarker, j) {
      if j == 11 { assert rest[j..j + 12][11] == rest[22] == '.'; } else { assert rest[j..j + 12][0] == rest[j]; }
    }
    assert OccursAt(rest, ConfigMarker, 15);
    forall j | 0 <= j < 15 ensures !OccursAt(rest, ConfigMarker, j) {
      if j == 11 { assert rest[j..j + 10][1] == rest[12] == 'f'; } else { assert rest[j..j + 10][0] == rest[j]; }
    }
  }
}
