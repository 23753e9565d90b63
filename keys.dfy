/**
 * How the domain layer names things in the flat Redis key space, how it takes
 * key names apart again (`getNodeName`, `getMetaName`), and which keys a
 * `KEYS` glob pattern selects.
 */
module Keys {
  import opened JsText

  predicate NoColon(s: string)
  {
    ':' !in s
  }

  // ---------------------------------------------------------------------------
  // Key names

  /** The hash holding a feature's toggle value: `toggle:<app>:<feature>`. */
  function ToggleKey(app: string, feature: string): string
  {
    "toggle:" + app + ":" + feature
  }

  /** The hash holding a feature's metadata: `meta:<app>:<feature>`. */
  function MetaKey(app: string, feature: string): string
  {
    "meta:" + app + ":" + feature
  }

  /** The list of a feature's audit records: `audit:<app>:<feature>`. */
  function FeatureAuditKey(app: string, feature: string): string
  {
    "audit:" + app + ":" + feature
  }

  /** The list of an application's own audit records: `audit:<app>`. */
  function AppAuditKey(app: string): string
  {
    "audit:" + app
  }

  /** The list of registered application names. */
  const ApplicationsKey: string := "applications"

  /** `KEYS` pattern for every toggle hash of an application. */
  function TogglePattern(app: string): string
  {
    "toggle:" + app + ":*"
  }

  /** `KEYS` pattern for every metadata hash of an application. */
  function MetaPattern(app: string): string
  {
    "meta:" + app + ":*"
  }

  /** `KEYS` pattern `deleteApplication` purges: `*:<app>:*`. */
  function PurgePattern(app: string): string
  {
    "*:" + app + ":*"
  }

  // ---------------------------------------------------------------------------
  // Taking key names apart

  /** `splitKey[i]`, where JavaScript reads `undefined` past the end. */
  function Segment(parts: seq<string>, i: nat): string
  {
    if i < |parts| then parts[i] else "undefined"
  }

  /** `getNodeName`: the last `:`-separated segment of a key. */
  function NodeName(key: string): string
  {
    var parts := Split(key, ':');
    parts[|parts| - 1]
  }

  /** The node name is the key's longest suffix without ':'. */
  lemma NodeNameIsLastSuffix(key: string)
    ensures ':' !in NodeName(key) && |NodeName(key)| <= |key|
    ensures NodeName(key) == key[|key| - |NodeName(key)|..]
    ensures |NodeName(key)| < |key| ==> key[|key| - |NodeName(key)| - 1] == ':'
  {
    SplitLastSegment(key, ':');
  }

  /**
   * `getMetaName`: always a three-segment metadata key, made of the key's
   * second and third segments (`undefined` for a missing one); for a
   * three-segment key it ends in the same name as the key.
   */
  function MetaName(key: string): (r: string)
    ensures Split(r, ':') == ["meta", Segment(Split(key, ':'), 1), Segment(Split(key, ':'), 2)]
    ensures |Split(key, ':')| == 3 ==> NodeName(r) == NodeName(key)
  {
    var parts := Split(key, ':');
    var a, f := Segment(parts, 1), Segment(parts, 2);
    assert "meta:" + a + ":" + f == "meta" + ":" + a + ":" + f;
    SplitThreeSegments("meta", a, f);
    "meta:" + a + ":" + f
  }

  /** A three-segment key splits back into its segments. */
  lemma SplitThreeSegments(p: string, a: string, f: string)
    requires NoColon(p) && NoColon(a) && NoColon(f)
    ensures Split(p + ":" + a + ":" + f, ':') == [p, a, f]
  {
    var parts := [p, a, f];
    assert Join(parts[2..], ':') == f;
    assert Join(parts[1..], ':') == a + ":" + f;
    assert Join(parts, ':') == p + ":" + (a + ":" + f);
    assert p + ":" + a + ":" + f == p + ":" + (a + ":" + f);
    SplitJoin(parts, ':');
  }

  /**
   * For names without ':', the toggle key of a feature names its metadata key,
   * and both keys end in the feature name.
   */
  lemma {:induction false} FeatureKeyNames(app: string, feature: string)
    requires NoColon(app) && NoColon(feature)
    ensures MetaName(ToggleKey(app, feature)) == MetaKey(app, feature)
    ensures NodeName(ToggleKey(app, feature)) == feature
    ensures NodeName(MetaKey(app, feature)) == feature
  {
    assert ToggleKey(app, feature) == "toggle" + ":" + app + ":" + feature;
    assert MetaKey(app, feature) == "meta" + ":" + app + ":" + feature;
    SplitThreeSegments("toggle", app, feature);
    SplitThreeSegments("meta", app, feature);
  }

  /** For names without ':', a toggle key determines its application and feature. */
  lemma {:induction false} ToggleKeyInjective(a: string, f: string, a': string, f': string)
    requires NoColon(a) && NoColon(f) && NoColon(a') && NoColon(f')
    requires ToggleKey(a, f) == ToggleKey(a', f')
    ensures a == a' && f == f'
  {
    assert ToggleKey(a, f) == "toggle" + ":" + a + ":" + f;
    assert ToggleKey(a', f') == "toggle" + ":" + a' + ":" + f';
    SplitThreeSegments("toggle", a, f);
    SplitThreeSegments("toggle", a', f');
  }

  /**
   * With a ':' inside the feature name, `getMetaName` cuts the name short:
   * the toggle key of feature `b:c` names the metadata key of feature `b`.
   */
  lemma MetaNameTruncates()
    ensures MetaName(ToggleKey("a", "b:c")) == MetaKey("a", "b")
    ensures MetaKey("a", "b") != MetaKey("a", "b:c")
  {
    var parts := ["toggle", "a", "b", "c"];
    assert Join(parts, ':') == ToggleKey("a", "b:c") by {
      assert Join(parts[3..], ':') == "c";
      assert Join(parts[2..], ':') == "b:c";
      assert Join(parts[1..], ':') == "a:b:c";
    }
    forall i | 0 <= i < |parts| ensures ':' !in parts[i] {
    }
    SplitJoin(parts, ':');
    assert |MetaKey("a", "b")| != |MetaKey("a", "b:c")|;
  }

  /** The key families never collide: they differ in their first letters. */
  lemma {:induction false} KeyFamiliesDisjoint(a: string, f: string, a': string, f': string, a'': string)
    ensures ToggleKey(a, f) != MetaKey(a', f')
    ensures ToggleKey(a, f) != FeatureAuditKey(a', f') && ToggleKey(a, f) != AppAuditKey(a'')
    ensures MetaKey(a, f) != FeatureAuditKey(a', f') && MetaKey(a, f) != AppAuditKey(a'')
    ensures ToggleKey(a, f) != ApplicationsKey && MetaKey(a, f) != ApplicationsKey
    ensures FeatureAuditKey(a, f) != ApplicationsKey && AppAuditKey(a'') != ApplicationsKey
  {
    assert ToggleKey(a, f)[0] == 't' && MetaKey(a', f')[0] == 'm';
    assert FeatureAuditKey(a', f')[0] == 'a' && AppAuditKey(a'')[0] == 'a';
    assert FeatureAuditKey(a, f)[1] == 'u' && AppAuditKey(a'')[1] == 'u' && ApplicationsKey[1] == 'p';
  }

  /** An application's own audit list is never a feature's audit list when its name has no ':'. */
  lemma {:induction false} AuditKeysDisjoint(app: string, a: string, f: string)
    requires NoColon(app)
    ensures AppAuditKey(app) != FeatureAuditKey(a, f)
  {
    if |app| == |a| + 1 + |f| {
      assert FeatureAuditKey(a, f)[6 + |a|] == ':';
      assert AppAuditKey(app)[6 + |a|] == app[|a|];
    }
  }

  /** With a ':' in an application name, its own audit list is a feature's audit list. */
  lemma AuditKeysCollide()
    ensures AppAuditKey("x:y") == FeatureAuditKey("x", "y")
  {
  }

  // ---------------------------------------------------------------------------
  // Glob patterns of the KEYS command

  /** The pattern characters Redis treats specially. */
  predicate NoGlobMeta(s: string)
  {
    forall i :: 0 <= i < |s| ==> s[i] != '*' && s[i] != '?' && s[i] != '[' && s[i] != '\\'
  }

  /** Redis glob matching for `*` (any run of characters) and `?` (one character). */
  function Glob(p: string, s: string): bool
    decreases |p| + |s|
  {
    if p == [] then s == []
    else if p[0] == '*' then Glob(p[1..], s) || (s != [] && Glob(p, s[1..]))
    else s != [] && (p[0] == '?' || p[0] == s[0]) && Glob(p[1..], s[1..])
  }

  predicate OccursAt(lit: string, s: string, i: int)
  {
    0 <= i && i + |lit| <= |s| && s[i..i + |lit|] == lit
  }

  /** `lit` is a contiguous part of `s`. */
  predicate Occurs(lit: string, s: string)
  {
    exists i :: 0 <= i <= |s| && OccursAt(lit, s, i)
  }

  lemma {:induction false} GlobStarMatchesAll(s: string)
    ensures Glob("*", s)
    decreases |s|
  {
    if s != [] {
      GlobStarMatchesAll(s[1..]);
    }
  }

  /** A pattern starting with literal characters matches exactly the strings starting with them. */
  lemma {:induction false} GlobLiteral(lit: string, q: string, s: string)
    requires NoGlobMeta(lit)
    ensures Glob(lit + q, s) <==> |lit| <= |s| && s[..|lit|] == lit && Glob(q, s[|lit|..])
    decreases |lit|
  {
    if lit == [] {
      assert lit + q == q;
    } else {
      var p := lit + q;
      assert p[0] == lit[0] && p[1..] == lit[1..] + q;
      if s != [] {
        GlobLiteral(lit[1..], q, s[1..]);
        if |lit| <= |s| {
          assert s[1..][|lit| - 1..] == s[|lit|..];
          assert s[..|lit|] == [s[0]] + s[1..][..|lit| - 1];
          assert lit == [lit[0]] + lit[1..];
        }
      }
    }
  }

  /** A leading `*` matches when the rest matches some suffix. */
  lemma {:induction false} GlobStar(q: string, s: string)
    ensures Glob("*" + q, s) <==> exists i :: 0 <= i <= |s| && Glob(q, s[i..])
    decreases |s|
  {
    var p := "*" + q;
    assert p[0] == '*' && p[1..] == q;
    assert s[0..] == s;
    if s != [] {
      GlobStar(q, s[1..]);
      forall i | 1 <= i <= |s| ensures s[1..][i - 1..] == s[i..] {
      }
      if exists i :: 0 <= i <= |s| && Glob(q, s[i..]) {
        var i :| 0 <= i <= |s| && Glob(q, s[i..]);
        if i > 0 {
          assert Glob(q, s[1..][i - 1..]);
        }
      }
    }
  }

  /** `lit*` matches the strings that start with `lit`. */
  lemma GlobPrefix(lit: string, s: string)
    requires NoGlobMeta(lit)
    ensures Glob(lit + "*", s) <==> |lit| <= |s| && s[..|lit|] == lit
  {
    GlobLiteral(lit, "*", s);
    if |lit| <= |s| {
      GlobStarMatchesAll(s[|lit|..]);
    }
  }

  /** `*lit*` matches the strings that contain `lit`. */
  lemma GlobInfix(lit: string, s: string)
    requires NoGlobMeta(lit)
    ensures Glob("*" + lit + "*", s) <==> Occurs(lit, s)
  {
    assert "*" + lit + "*" == "*" + (lit + "*");
    GlobStar(lit + "*", s);
    forall i | 0 <= i <= |s| ensures Glob(lit + "*", s[i..]) <==> OccursAt(lit, s, i) {
      GlobPrefix(lit, s[i..]);
      if |lit| <= |s[i..]| {
        assert s[i..][..|lit|] == s[i..i + |lit|];
      }
    }
  }

  /** The scan pattern of an application selects the keys starting with its toggle prefix. */
  lemma TogglePatternMatches(app: string, key: string)
    requires NoGlobMeta(app)
    ensures Glob(TogglePattern(app), key) <==> |"toggle:" + app + ":"| <= |key| && key[..|"toggle:" + app + ":"|] == "toggle:" + app + ":"
  {
    var lit := "toggle:" + app + ":";
    assert TogglePattern(app) == lit + "*";
    assert NoGlobMeta(lit) by {
      forall i | 0 <= i < |lit| ensures lit[i] != '*' && lit[i] != '?' && lit[i] != '[' && lit[i] != '\\' {
        if 7 <= i < 7 + |app| {
          assert lit[i] == app[i - 7];
        }
      }
    }
    GlobPrefix(lit, key);
  }

  /**
   * For names without ':' or pattern characters, the toggle scan of `app`
   * selects the toggle key of `(a, f)` exactly when `a` is `app`, and never
   * selects a metadata key.
   */
  lemma {:induction false} ToggleScanSelects(app: string, a: string, f: string)
    requires NoColon(app) && NoGlobMeta(app) && NoColon(a)
    ensures Glob(TogglePattern(app), ToggleKey(a, f)) <==> a == app
    ensures !Glob(TogglePattern(app), MetaKey(a, f))
  {
    var lit := "toggle:" + app + ":";
    var key := ToggleKey(a, f);
    TogglePatternMatches(app, key);
    TogglePatternMatches(app, MetaKey(a, f));
    assert MetaKey(a, f)[0] == 'm' && lit[0] == 't';
    if |a| < |app| {
      if |lit| <= |key| {
        assert key[..|lit|][7 + |a|] == ':';
        assert lit[7 + |a|] == app[|a|];
      }
    } else if |a| > |app| {
      assert |lit| <= |key|;
      assert key[..|lit|][7 + |app|] == a[|app|];
      assert lit[7 + |app|] == ':';
    } else {
      assert key[..|lit|] == "toggle:" + a + ":";
      if key[..|lit|] == lit {
        assert a == key[..|lit|][7..7 + |a|] == lit[7..7 + |app|] == app;
      }
    }
  }

  /** The characters of a three-segment key, position by position. */
  lemma ThreeSegmentsAt(p: string, a: string, f: string, j: int)
    requires 0 <= j < |p + ":" + a + ":" + f|
    ensures j < |p| ==> (p + ":" + a + ":" + f)[j] == p[j]
    ensures |p| < j < |p| + 1 + |a| ==> (p + ":" + a + ":" + f)[j] == a[j - |p| - 1]
    ensures |p| + 1 + |a| < j ==> (p + ":" + a + ":" + f)[j] == f[j - |p| - 2 - |a|]
  {
  }

  /** Where the colons of a three-segment key are. */
  lemma ColonsOfThreeSegments(p: string, a: string, f: string, j: int)
    requires NoColon(p) && NoColon(a) && NoColon(f)
    requires 0 <= j < |p + ":" + a + ":" + f| && (p + ":" + a + ":" + f)[j] == ':'
    ensures j == |p| || j == |p| + 1 + |a|
  {
    ThreeSegmentsAt(p, a, f, j);
  }

  lemma TwoSegmentsAt(p: string, a: string, j: int)
    requires 0 <= j < |p + ":" + a|
    ensures j < |p| ==> (p + ":" + a)[j] == p[j]
    ensures |p| < j ==> (p + ":" + a)[j] == a[j - |p| - 1]
  {
  }

  /** A `:<app>:` literal never occurs in a key with a single ':'. */
  lemma {:induction false} NoDelimitedNameInTwoSegments(app: string, p: string, a: string)
    requires NoColon(p) && NoColon(a)
    ensures !Occurs(":" + app + ":", p + ":" + a)
  {
    var lit := ":" + app + ":";
    var s := p + ":" + a;
    forall i | 0 <= i <= |s| ensures !OccursAt(lit, s, i) {
      if i + |lit| <= |s| {
        TwoSegmentsAt(p, a, i);
        TwoSegmentsAt(p, a, i + |app| + 1);
        assert lit[0] == ':' && lit[|app| + 1] == ':';
      }
    }
  }

  lemma NoGlobMetaPurgeLiteral(app: string)
    requires NoGlobMeta(app)
    ensures NoGlobMeta(":" + app + ":")
  {
    var lit := ":" + app + ":";
    forall i | 0 <= i < |lit| ensures lit[i] != '*' && lit[i] != '?' && lit[i] != '[' && lit[i] != '\\' {
      if 1 <= i < 1 + |app| {
        assert lit[i] == app[i - 1];
      }
    }
  }

  /**
   * For names without ':' or pattern characters, `*:<app>:*` selects a
   * three-segment key (`toggle:a:f`, `meta:a:f`, `audit:a:f`) exactly when its
   * middle segment is `app`, and never a two-segment key such as `audit:app`.
   */
  lemma {:induction false} PurgePatternSelects(app: string, p: string, a: string, f: string)
    requires NoColon(app) && NoGlobMeta(app) && NoColon(p) && NoColon(a) && NoColon(f)
    ensures Glob(PurgePattern(app), p + ":" + a + ":" + f) <==> a == app
    ensures !Glob(PurgePattern(app), p + ":" + a)
  {
    var lit := ":" + app + ":";
    var s := p + ":" + a + ":" + f;
    var s2 := p + ":" + a;
    assert PurgePattern(app) == "*" + lit + "*";
    NoGlobMetaPurgeLiteral(app);
    GlobInfix(lit, s);
    GlobInfix(lit, s2);
    if Occurs(lit, s) {
      var i :| 0 <= i <= |s| && OccursAt(lit, s, i);
      assert s[i] == lit[0] == ':';
      assert s[i + |app| + 1] == lit[|app| + 1] == ':';
      ColonsOfThreeSegments(p, a, f, i);
      ColonsOfThreeSegments(p, a, f, i + |app| + 1);
      assert i == |p| && |app| == |a|;
      forall k | 0 <= k < |app| ensures app[k] == a[k] {
        assert lit[1 + k] == app[k];
        assert s[i..i + |lit|][1 + k] == s[i + 1 + k];
        ThreeSegmentsAt(p, a, f, i + 1 + k);
      }
    }
    if a == app {
      assert s[|p|..|p| + |lit|] == lit;
      assert OccursAt(lit, s, |p|);
    }
    NoDelimitedNameInTwoSegments(app, p, a);
  }

  /**
   * The name is not escaped before it goes into the pattern: an application
   * named `*` selects the three-segment keys of every application.
   */
  lemma {:induction false} StarNamePurgesEveryApplication(p: string, a: string, f: string)
    ensures Glob(PurgePattern("*"), p + ":" + a + ":" + f)
  {
    GlobStarMatchesAll(f);
    StarColonPrefix("*", a, f);
    assert "*:" + "*" == "*:*";
    StarColonPrefix("*:*", p, a + ":" + f);
    assert p + ":" + a + ":" + f == p + ":" + (a + ":" + f);
    assert "*:" + "*:*" == PurgePattern("*");
  }

  /** If `q` matches `y`, then `*:q` matches any `x:y`. */
  lemma StarColonPrefix(q: string, x: string, y: string)
    requires Glob(q, y)
    ensures Glob("*:" + q, x + ":" + y)
  {
    var s := x + ":" + y;
    var t := s[|x|..];
    assert t == ":" + y && t[..1] == ":" && t[1..] == y;
    GlobLiteral(":", q, t);
    GlobStar(":" + q, s);
    assert 0 <= |x| <= |s| && Glob(":" + q, s[|x|..]);
    assert "*:" + q == "*" + (":" + q);
  }

  /** Every literal character of a pattern appears in each string it matches. */
  lemma {:induction false} GlobNeedsLiteral(p: string, s: string, c: char)
    requires c != '*' && c != '?' && c in p && Glob(p, s)
    ensures c in s
    decreases |p| + |s|
  {
    if p[0] == '*' {
      if Glob(p[1..], s) {
        assert c in p[1..];
        GlobNeedsLiteral(p[1..], s, c);
      } else {
        GlobNeedsLiteral(p, s[1..], c);
      }
    } else if p[0] != c {
      assert c in p[1..];
      GlobNeedsLiteral(p[1..], s[1..], c);
    }
  }

  /** Whatever the name, the purge pattern never selects the `applications` list. */
  lemma PurgeSkipsApplications(app: string)
    ensures !Glob(PurgePattern(app), ApplicationsKey)
  {
    assert PurgePattern(app)[1] == ':';
    assert ':' !in ApplicationsKey;
    if Glob(PurgePattern(app), ApplicationsKey) {
      GlobNeedsLiteral(PurgePattern(app), ApplicationsKey, ':');
    }
  }
}
