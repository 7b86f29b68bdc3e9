/**
 * How src/http.js turns the file name of a route module into the URL path
 * it is served at: drop the last three characters, drop the routes
 * directory by its length, turn backslashes into slashes, turn every
 * `[name]` into `:name`, remove the first `/index`, and use `/` for an
 * empty result.
 */
module RoutePath {
  import opened Wrappers
  import opened JsString

  // ---------------------------------------------------------------
  // s.replace(/\[(\w+)\]/gi, ':$1')
  // ---------------------------------------------------------------

  /** The characters `\w` matches (the `i` flag does not change them). */
  predicate IsWordChar(c: char) {
    ('a' <= c <= 'z') || ('A' <= c <= 'Z') || ('0' <= c <= '9') || c == '_'
  }

  /** A whole match of `\[(\w+)\]`: a non-empty name of word characters in brackets. */
  predicate IsParamToken(t: string) {
    |t| >= 3 && t[0] == '[' && t[|t| - 1] == ']'
    && forall i :: 1 <= i < |t| - 1 ==> IsWordChar(t[i])
  }

  /** Length of the run of word characters that `s` starts with. */
  function WordRun(s: string): (n: nat)
    ensures n <= |s|
  {
    if |s| > 0 && IsWordChar(s[0]) then 1 + WordRun(s[1..]) else 0
  }

  /** WordRun stops exactly at the first character that is not a word character. */
  lemma {:induction false} WordRunSpec(s: string)
    ensures forall i :: 0 <= i < WordRun(s) ==> IsWordChar(s[i])
    ensures WordRun(s) < |s| ==> !IsWordChar(s[WordRun(s)])
  {
    if |s| > 0 && IsWordChar(s[0]) {
      WordRunSpec(s[1..]);
      assert forall i :: 1 <= i < WordRun(s) ==> s[i] == s[1..][i - 1];
    }
  }

  /**
   * Length of the match of the pattern at the start of `s`, or 0 when the
   * pattern does not match there.
   */
  function ParamTokenAt(s: string): (k: nat)
    ensures k <= |s|
    ensures k == 0 || (3 <= k && s[0] == '[' && s[k - 1] == ']')
  {
    if |s| > 0 && s[0] == '[' then
      var n := WordRun(s[1..]);
      if n > 0 && n + 1 < |s| && s[n + 1] == ']' then n + 2 else 0
    else 0
  }

  /** What ParamTokenAt finds is a parameter token. */
  lemma ParamTokenAtSound(s: string)
    ensures ParamTokenAt(s) > 0 ==> IsParamToken(s[..ParamTokenAt(s)])
  {
    if |s| > 0 {
      WordRunSpec(s[1..]);
    }
  }

  /** Whenever some prefix of `s` is a parameter token, ParamTokenAt finds exactly that prefix. */
  lemma ParamTokenAtFinds(s: string, j: nat)
    requires j <= |s| && IsParamToken(s[..j])
    ensures ParamTokenAt(s) == j
  {
    var n := WordRun(s[1..]);
    WordRunSpec(s[1..]);
    forall i | 0 <= i < j - 2 ensures IsWordChar(s[1..][i]) {
      assert s[1..][i] == s[..j][i + 1];
    }
    assert s[1..][j - 2] == s[..j][j - 1];
  }

  /** The global rewrite: every parameter token `[name]` becomes `:name`, scanning left to right. */
  function RewriteParams(s: string): (r: string)
    decreases |s|
  {
    if s == [] then []
    else
      var k := ParamTokenAt(s);
      if k > 0 then [':'] + s[1..k - 1] + RewriteParams(s[k..])
      else [s[0]] + RewriteParams(s[1..])
  }

  /** A string without `[` is left as it is. */
  lemma {:induction false} RewriteParamsNoBracket(s: string)
    requires '[' !in s
    ensures RewriteParams(s) == s
  {
    if s != [] {
      assert s[0] != '[';
      assert '[' !in s[1..];
      RewriteParamsNoBracket(s[1..]);
    }
  }

  /**
   * Matching at the start of `a` is not affected by what follows, when
   * what follows starts with a character that can neither continue a
   * name nor close one.
   */
  lemma ParamTokenAtAppend(a: string, b: string)
    requires a != []
    requires b == [] || (!IsWordChar(b[0]) && b[0] != ']')
    ensures ParamTokenAt(a + b) == ParamTokenAt(a)
  {
    var ab := a + b;
    var k := ParamTokenAt(a);
    ParamTokenAtSound(a);
    ParamTokenAtSound(ab);
    if k > 0 {
      assert ab[..k] == a[..k];
      ParamTokenAtFinds(ab, k);
    } else {
      var k' := ParamTokenAt(ab);
      forall j | |a| < j <= |ab| ensures !IsParamToken(ab[..j]) {
        assert ab[..j][|a|] == b[0];
      }
      assert k' <= |a|;
      assert ab[..k'] == a[..k'];
      if k' > 0 { ParamTokenAtFinds(a, k'); }
    }
  }

  /**
   * The rewrite works piecewise: it can be applied to `a` and to `b`
   * separately when `b` starts with a character that breaks any match.
   */
  lemma {:induction false} RewriteParamsAppend(a: string, b: string)
    requires b == [] || (!IsWordChar(b[0]) && b[0] != ']')
    ensures RewriteParams(a + b) == RewriteParams(a) + RewriteParams(b)
    decreases |a|, 1
  {
    if a == [] {
      assert a + b == b;
    } else if ParamTokenAt(a) > 0 {
      RewriteParamsAppendToken(a, b);
    } else {
      RewriteParamsAppendCopy(a, b);
    }
  }

  /** RewriteParamsAppend when `a` starts with a parameter token. */
  lemma {:induction false} RewriteParamsAppendToken(a: string, b: string)
    requires a != [] && ParamTokenAt(a) > 0
    requires b == [] || (!IsWordChar(b[0]) && b[0] != ']')
    ensures RewriteParams(a + b) == RewriteParams(a) + RewriteParams(b)
    decreases |a|, 0
  {
    var ab := a + b;
    var k := ParamTokenAt(a);
    ParamTokenAtSound(a);
    assert ab[..k] == a[..k];
    assert ab[k..] == a[k..] + b;
    assert ab[1..k - 1] == a[1..k - 1];
    RewriteParamsAppend(a[k..], b);
    RewriteParamsAtToken(a, k);
    RewriteParamsAtToken(ab, k);
  }

  /** RewriteParamsAppend when the first character of `a` is copied. */
  lemma {:induction false} RewriteParamsAppendCopy(a: string, b: string)
    requires a != [] && ParamTokenAt(a) == 0
    requires b == [] || (!IsWordChar(b[0]) && b[0] != ']')
    ensures RewriteParams(a + b) == RewriteParams(a) + RewriteParams(b)
    decreases |a|, 0
  {
    ParamTokenAtAppend(a, b);
    TailOfAppend(a, b);
    RewriteParamsCopyStep(a + b);
    RewriteParamsAppend(a[1..], b);
    RewriteParamsCopyStep(a);
    ConsAssociative(a[0], RewriteParams(a[1..]), RewriteParams(b));
  }

  /** Sequence algebra: the head and tail of `a + b` when `a` is non-empty. */
  lemma TailOfAppend(a: string, b: string)
    requires a != []
    ensures (a + b)[0] == a[0] && (a + b)[1..] == a[1..] + b
  {
  }

  /** Sequence algebra: a leading character regroups with a concatenation. */
  lemma ConsAssociative(x: char, r: string, t: string)
    ensures [x] + (r + t) == ([x] + r) + t
  {
  }

  /** One step of the scan when no token starts here: the first character is copied. */
  lemma RewriteParamsCopyStep(s: string)
    requires s != [] && ParamTokenAt(s) == 0
    ensures RewriteParams(s) == [s[0]] + RewriteParams(s[1..])
  {
  }

  /** A parameter token at the start becomes `:` and its name; the rest is rewritten on its own. */
  lemma RewriteParamsAtToken(s: string, t: nat)
    requires t <= |s| && IsParamToken(s[..t])
    ensures RewriteParams(s) == [':'] + s[1..t - 1] + RewriteParams(s[t..])
  {
    ParamTokenAtFinds(s, t);
    RewriteParamsTokenStep(s, t);
  }

  /** One step of the scan when a token of length `k` starts here. */
  lemma RewriteParamsTokenStep(s: string, k: nat)
    requires s != [] && k > 0 && ParamTokenAt(s) == k
    ensures RewriteParams(s) == [':'] + s[1..k - 1] + RewriteParams(s[k..])
  {
  }

  /** A parameter token becomes `:` and its name, whatever follows it. */
  lemma RewriteParamsToken(w: string, b: string)
    requires w != [] && forall i :: 0 <= i < |w| ==> IsWordChar(w[i])
    ensures RewriteParams("[" + w + "]" + b) == ":" + w + RewriteParams(b)
  {
    var s := "[" + w + "]" + b;
    var t := |w| + 2;
    assert s[..t] == "[" + w + "]" && s[1..t - 1] == w && s[t..] == b;
    RewriteParamsAtToken(s, t);
  }

  /** Every `[name]` segment becomes `:name`, wherever it stands. */
  lemma RewriteParamsSegment(a: string, w: string, b: string)
    requires w != [] && forall i :: 0 <= i < |w| ==> IsWordChar(w[i])
    ensures RewriteParams(a + "[" + w + "]" + b) == RewriteParams(a) + ":" + w + RewriteParams(b)
  {
    var rest := "[" + w + "]" + b;
    Regroup(a, "[", w, "]", b);
    assert rest[0] == '[';
    RewriteParamsAppend(a, rest);
    RewriteParamsToken(w, b);
    Regroup(RewriteParams(a), ":", w, "", RewriteParams(b));
  }

  /** Sequence algebra: the split of a path around a bracketed segment regroups. */
  lemma Regroup(x: string, o: string, w: string, c: string, y: string)
    ensures x + o + w + c + y == x + (o + w + c + y)
  {
  }

  /** The rewrite introduces no character other than `:`. */
  lemma {:induction false} RewriteParamsKeepsOut(s: string, c: char)
    requires c !in s && c != ':'
    ensures c !in RewriteParams(s)
    decreases |s|
  {
    if s != [] {
      var k := ParamTokenAt(s);
      if k > 0 {
        var name, rest := s[1..k - 1], s[k..];
        forall i | 0 <= i < |name| ensures name[i] != c { assert name[i] == s[i + 1]; }
        forall i | 0 <= i < |rest| ensures rest[i] != c { assert rest[i] == s[i + k]; }
        RewriteParamsKeepsOut(rest, c);
      } else {
        var rest := s[1..];
        forall i | 0 <= i < |rest| ensures rest[i] != c { assert rest[i] == s[i + 1]; }
        RewriteParamsKeepsOut(rest, c);
      }
    }
  }

  // ---------------------------------------------------------------
  // The whole chain
  // ---------------------------------------------------------------

  /**
   * The rewrites applied after the directory and extension are gone:
   * separators, parameters, the first `/index`, and the empty default.
   */
  function RelativeRoute(rel: string): (path: string)
    ensures path != []
  {
    var slashed := ReplaceChar(rel, '\\', '/');
    var named := RewriteParams(slashed);
    var stripped := ReplaceFirst(named, "/index", "");
    if stripped == [] then "/" else stripped
  }

  /** The URL path of the route module at `file`, below the routes directory `dir`. */
  function DerivePath(dir: string, file: string): (path: string)
    ensures path != []
  {
    RelativeRoute(SubstringFrom(Substring(file, 0, |file| - 3), |dir|))
  }

  /** For a file below `dir` with a three-character extension, only the part in between matters. */
  lemma DerivePathRelative(dir: string, rel: string, ext: string)
    requires |ext| == 3
    ensures DerivePath(dir, dir + rel + ext) == RelativeRoute(rel)
  {
    SubstringDropsSuffix(dir + rel, ext);
    SubstringFromSkipsPrefix(dir, rel);
  }

  /** No derived path contains a backslash. */
  lemma DerivePathNoBackslash(dir: string, file: string)
    ensures '\\' !in DerivePath(dir, file)
  {
    var rel := SubstringFrom(Substring(file, 0, |file| - 3), |dir|);
    var slashed := ReplaceChar(rel, '\\', '/');
    ReplaceCharRemoves(rel, '\\', '/');
    RewriteParamsKeepsOut(slashed, '\\');
    ReplaceFirstChars(RewriteParams(slashed), "/index", "", '\\');
  }

  /** No `/index` starts in `kept + "/index"` before the trailing one. */
  predicate NoEarlierIndex(kept: string) {
    forall j :: 0 <= j < |kept| ==> !OccursAt(kept + "/index", "/index", j)
  }

  /** A trailing `/index` is removed when no earlier `/index` occurs. */
  lemma ReplaceFirstTrailingIndex(kept: string)
    requires NoEarlierIndex(kept)
    ensures ReplaceFirst(kept + "/index", "/index", "") == kept
  {
    assert kept + "/index" + "" == kept + "/index";
    ReplaceFirstAt(kept, "/index", "", "");
    assert kept + "" + "" == kept;
  }

  /** Without the letter `x`, no `/index` can start early. */
  lemma NoEarlierIndexWithoutX(kept: string)
    requires 'x' !in kept
    ensures NoEarlierIndex(kept)
  {
    forall j | 0 <= j < |kept| ensures !OccursAt(kept + "/index", "/index", j) {
      assert "/index"[5] == 'x';
    }
  }

  /** Sequence algebra: string concatenation is associative. */
  lemma StringAssociative(x: string, y: string, z: string)
    ensures x + (y + z) == (x + y) + z
  {
  }

  /**
   * A module named `index` below a directory with one `[name]` segment is
   * served at that directory, with the segment as a named parameter.
   */
  lemma RelativeRouteParamIndex(pre: string, w: string, post: string)
    requires w != [] && forall i :: 0 <= i < |w| ==> IsWordChar(w[i])
    requires '\\' !in pre && '\\' !in post && '[' !in pre && '[' !in post
    requires NoEarlierIndex(pre + ":" + w + post)
    ensures RelativeRoute(pre + "[" + w + "]" + (post + "/index")) == pre + ":" + w + post
  {
    var tail := post + "/index";
    var rel := pre + "[" + w + "]" + tail;
    var kept := pre + ":" + w + post;
    assert '\\' !in rel;
    ReplaceCharAbsent(rel, '\\', '/');
    assert '[' !in tail;
    RewriteParamsSegment(pre, w, tail);
    RewriteParamsNoBracket(pre);
    RewriteParamsNoBracket(tail);
    StringAssociative(pre + ":" + w, post, "/index");
    ReplaceFirstTrailingIndex(kept);
  }

  /**
   * The same for the whole file name: `dir + "/guilds/[guild]/members/index.js"`
   * is served at `/guilds/:guild/members`.
   */
  lemma DerivePathParamIndex(dir: string, pre: string, w: string, post: string, ext: string)
    requires w != [] && forall i :: 0 <= i < |w| ==> IsWordChar(w[i])
    requires '\\' !in pre && '\\' !in post && '[' !in pre && '[' !in post
    requires NoEarlierIndex(pre + ":" + w + post)
    requires |ext| == 3
    ensures DerivePath(dir, dir + (pre + "[" + w + "]" + (post + "/index")) + ext) == pre + ":" + w + post
  {
    DerivePathRelative(dir, pre + "[" + w + "]" + (post + "/index"), ext);
    RelativeRouteParamIndex(pre, w, post);
  }

  /**
   * `dir + "/guilds/[guild]/members/index.js"` is served at
   * `/guilds/:guild/members` (the names are spelled in pieces, as the
   * segments the derivation works on).
   */
  lemma DerivePathGuildsExample(dir: string)
    ensures DerivePath(dir, dir + ("/guilds/" + "[" + "guild" + "]" + ("/members" + "/index")) + ".js")
      == "/guilds/" + ":" + "guild" + "/members"
  {
    NoEarlierIndexWithoutX("/guilds/" + ":" + "guild" + "/members");
    DerivePathParamIndex(dir, "/guilds/", "guild", "/members", ".js");
  }

  /**
   * A route whose file path starts with `/index` loses that prefix, and
   * only that one: any later `/index` in `rest` stays. With nothing left
   * the route is `/`.
   */
  lemma RelativeRouteIndexPrefix(rest: string)
    requires '\\' !in rest && '[' !in rest
    ensures RelativeRoute("/index" + rest) == if rest == [] then "/" else rest
  {
    var rel := "/index" + rest;
    assert '\\' !in rel && '[' !in rel;
    ReplaceCharAbsent(rel, '\\', '/');
    RewriteParamsNoBracket(rel);
    ReplaceFirstMarked([], "/index", "", rest, 4);
    assert [] + "/index" + rest == rel;
  }

  /** Only the first `/index` goes: `index/index` is served at `/index`. */
  lemma RelativeRouteFirstIndexOnly()
    ensures RelativeRoute("/index" + "/index") == "/index"
  {
    RelativeRouteIndexPrefix("/index");
  }

  /**
   * The removal is textual, not by path segment: a module whose name
   * merely starts with `index` (`indexes`) is served at a path that does
   * not start with `/` (`es`).
   */
  lemma RelativeRouteIndexIsText(rest: string)
    requires rest != [] && rest[0] != '/'
    requires '\\' !in rest && '[' !in rest
    ensures RelativeRoute("/index" + rest)[0] != '/'
  {
    RelativeRouteIndexPrefix(rest);
  }

  /** `dir + "/index.js"` is served at `/`. */
  lemma DerivePathRootExample(dir: string)
    ensures DerivePath(dir, dir + "/index" + ".js") == "/"
  {
    assert "/index" + "" == "/index";
    DerivePathRelative(dir, "/index", ".js");
    RelativeRouteIndexPrefix("");
  }

  /**
   * Windows and POSIX separators give the same route: a path is served
   * where its `/`-separated spelling is.
   */
  lemma RelativeRouteSeparators(rel: string)
    ensures RelativeRoute(rel) == RelativeRoute(ReplaceChar(rel, '\\', '/'))
  {
    var slashed := ReplaceChar(rel, '\\', '/');
    ReplaceCharRemoves(rel, '\\', '/');
    ReplaceCharAbsent(slashed, '\\', '/');
  }
}
