/**
 * The JavaScript string built-ins that src/http.js calls: `trim`,
 * `substring`, a global one-character `replace`, and `replace` with a
 * string pattern (which rewrites only the first occurrence).
 * Strings are sequences of characters; lengths count characters.
 */
module JsString {
  import opened Wrappers

  // ---------------------------------------------------------------
  // String.prototype.trim
  // ---------------------------------------------------------------

  /** The characters `trim` removes: ECMAScript WhiteSpace and LineTerminator. */
  predicate IsTrimmable(c: char) {
    var n := c as int;
    n == 0x09 || n == 0x0A || n == 0x0B || n == 0x0C || n == 0x0D
    || n == 0x20 || n == 0xA0 || n == 0x1680
    || (0x2000 <= n <= 0x200A)
    || n == 0x2028 || n == 0x2029 || n == 0x202F || n == 0x205F
    || n == 0x3000 || n == 0xFEFF
  }

  /** True when every character of `s` is removed by `trim`. */
  predicate AllTrimmable(s: string) {
    forall i :: 0 <= i < |s| ==> IsTrimmable(s[i])
  }

  /** True when `s` neither starts nor ends with a trimmable character. */
  predicate IsTrimmed(s: string) {
    s == [] || (!IsTrimmable(s[0]) && !IsTrimmable(s[|s| - 1]))
  }

  /** Length of the longest all-whitespace prefix of `s`. */
  function LeadingSpace(s: string): (n: nat)
    ensures n <= |s|
    ensures forall i :: 0 <= i < n ==> IsTrimmable(s[i])
    ensures n < |s| ==> !IsTrimmable(s[n])
  {
    if |s| > 0 && IsTrimmable(s[0]) then 1 + LeadingSpace(s[1..])
    else 0
  }

  /** Length of the longest all-whitespace suffix of `s`. */
  function TrailingSpace(s: string): (n: nat)
    ensures n <= |s|
    ensures forall i :: |s| - n <= i < |s| ==> IsTrimmable(s[i])
    ensures n < |s| ==> !IsTrimmable(s[|s| - 1 - n])
  {
    if |s| > 0 && IsTrimmable(s[|s| - 1]) then 1 + TrailingSpace(s[..|s| - 1])
    else 0
  }

  /** `s.trim()`: `s` without its leading and trailing whitespace. */
  function Trim(s: string): (r: string)
  {
    var rest := s[LeadingSpace(s)..];
    rest[..|rest| - TrailingSpace(rest)]
  }

  /** What Trim keeps starts and ends with a non-whitespace character. */
  lemma TrimIsTrimmed(s: string)
    ensures IsTrimmed(Trim(s))
  {
    var rest := s[LeadingSpace(s)..];
    var t := TrailingSpace(rest);
    var r := Trim(s);
    if r != [] {
      assert r[0] == rest[0];
      assert r[|r| - 1] == rest[|rest| - 1 - t];
    }
  }

  /**
   * Trim removes exactly a whitespace prefix and a whitespace suffix, and
   * what it keeps starts and ends with a non-whitespace character.
   */
  lemma TrimShape(s: string)
    ensures var lo := LeadingSpace(s);
      && lo + |Trim(s)| <= |s|
      && Trim(s) == s[lo..lo + |Trim(s)|]
      && (forall i :: 0 <= i < lo ==> IsTrimmable(s[i]))
      && (forall i :: lo + |Trim(s)| <= i < |s| ==> IsTrimmable(s[i]))
      && IsTrimmed(Trim(s))
  {
    var lo := LeadingSpace(s);
    var rest := s[lo..];
    var t := TrailingSpace(rest);
    var r := Trim(s);
    assert |r| == |s| - lo - t;
    assert r == s[lo..lo + |r|];
    forall i | lo + |r| <= i < |s| ensures IsTrimmable(s[i]) {
      assert s[i] == rest[i - lo];
    }
    TrimIsTrimmed(s);
  }

  /**
   * Reference definition of trimming: whenever `s` is a whitespace run,
   * a trimmed middle and a whitespace run, Trim gives that middle.
   */
  lemma TrimOfPadded(pre: string, mid: string, post: string)
    requires AllTrimmable(pre) && AllTrimmable(post)
    requires IsTrimmed(mid)
    ensures Trim(pre + mid + post) == mid
  {
    var s := pre + mid + post;
    var lo := LeadingSpace(s);
    if mid == [] {
      assert AllTrimmable(s) by {
        forall i | 0 <= i < |s| ensures IsTrimmable(s[i]) {
          if i < |pre| { assert s[i] == pre[i]; } else { assert s[i] == post[i - |pre|]; }
        }
      }
      assert lo == |s|;
    } else {
      assert s[|pre|] == mid[0];
      assert forall i :: 0 <= i < |pre| ==> s[i] == pre[i];
      assert lo == |pre|;
      var rest := s[lo..];
      assert rest == mid + post;
      var t := TrailingSpace(rest);
      assert rest[|mid| - 1] == mid[|mid| - 1];
      assert forall i :: 0 <= i < |post| ==> rest[|mid| + i] == post[i];
      assert t == |post|;
      assert rest[..|rest| - t] == mid;
    }
  }

  /** `"  Alice  ".trim()` is `"Alice"`. */
  lemma TrimExample()
    ensures Trim("  Alice  ") == "Alice"
  {
    assert AllTrimmable("  ");
    TrimOfPadded("  ", "Alice", "  ");
    assert "  " + "Alice" + "  " == "  Alice  ";
  }

  /** A string is its own trim exactly when it is already trimmed. */
  lemma TrimFixpoint(s: string)
    ensures Trim(s) == s <==> IsTrimmed(s)
  {
    TrimShape(s);
    if IsTrimmed(s) {
      TrimOfPadded([], s, []);
      assert [] + s + [] == s;
    }
  }

  /** Trimming twice is trimming once. */
  lemma TrimIdempotent(s: string)
    ensures Trim(Trim(s)) == Trim(s)
  {
    TrimShape(s);
    TrimFixpoint(Trim(s));
  }

  // ---------------------------------------------------------------
  // String.prototype.substring
  // ---------------------------------------------------------------

  /** An index argument of `substring`, clamped into `0..len`. */
  function ClampIndex(i: int, len: nat): (r: nat)
    ensures r <= len
    ensures 0 <= i <= len ==> r == i
  {
    if i < 0 then 0 else if i > len then len else i
  }

  /**
   * `s.substring(start, end)`: both indices are clamped to the string,
   * and they are swapped when `start` is the larger one.
   */
  function Substring(s: string, start: int, end: int): (r: string)
  {
    var a, b := ClampIndex(start, |s|), ClampIndex(end, |s|);
    if a <= b then s[a..b] else s[b..a]
  }

  /** `s.substring(start)`: from `start` to the end of the string. */
  function SubstringFrom(s: string, start: int): (r: string)
  {
    Substring(s, start, |s|)
  }

  /** Dropping the last `|suffix|` characters of `prefix + suffix` gives `prefix`. */
  lemma SubstringDropsSuffix(prefix: string, suffix: string)
    ensures Substring(prefix + suffix, 0, |prefix + suffix| - |suffix|) == prefix
  {
    assert (prefix + suffix)[0..|prefix|] == prefix;
  }

  /** Skipping `|prefix|` characters of `prefix + rest` gives `rest`. */
  lemma SubstringFromSkipsPrefix(prefix: string, rest: string)
    ensures SubstringFrom(prefix + rest, |prefix|) == rest
  {
    assert (prefix + rest)[|prefix|..|prefix + rest|] == rest;
  }

  // ---------------------------------------------------------------
  // s.replace(/x/g, y) for a single character x
  // ---------------------------------------------------------------

  /** Every occurrence of `from` replaced by `to`. */
  function ReplaceChar(s: string, from: char, to: char): (r: string)
    ensures |r| == |s|
    ensures forall i :: 0 <= i < |s| ==> r[i] == (if s[i] == from then to else s[i])
  {
    if s == [] then []
    else [if s[0] == from then to else s[0]] + ReplaceChar(s[1..], from, to)
  }

  /** A string without `from` is left as it is. */
  lemma ReplaceCharAbsent(s: string, from: char, to: char)
    requires from !in s
    ensures ReplaceChar(s, from, to) == s
  {
  }

  /** After a global replacement, `from` no longer occurs (when it differs from `to`). */
  lemma ReplaceCharRemoves(s: string, from: char, to: char)
    requires from != to
    ensures from !in ReplaceChar(s, from, to)
  {
    var r := ReplaceChar(s, from, to);
    forall i | 0 <= i < |r| ensures r[i] != from { }
  }

  // ---------------------------------------------------------------
  // indexOf, and s.replace(pattern, replacement) for a string pattern
  // ---------------------------------------------------------------

  /** Pattern `p` occurs in `s` starting at index `j`. */
  predicate OccursAt(s: string, p: string, j: int) {
    0 <= j && j + |p| <= |s| && s[j..j + |p|] == p
  }

  /** The first occurrence of `p` in `s` at index `from` or later. */
  function IndexFrom(s: string, p: string, from: nat): (r: Option<nat>)
    requires from <= |s|
    decreases |s| - from
    ensures r.Some? ==> from <= r.value && OccursAt(s, p, r.value)
    ensures r.Some? ==> forall j :: from <= j < r.value ==> !OccursAt(s, p, j)
    ensures r.None? ==> forall j :: from <= j <= |s| ==> !OccursAt(s, p, j)
  {
    if OccursAt(s, p, from) then Some(from)
    else if from == |s| then None
    else IndexFrom(s, p, from + 1)
  }

  /** `s.indexOf(p)`, with `None` for -1. */
  function IndexOf(s: string, p: string): (r: Option<nat>)
    ensures r.Some? ==> OccursAt(s, p, r.value)
    ensures r.Some? ==> forall j :: 0 <= j < r.value ==> !OccursAt(s, p, j)
    ensures r.None? ==> forall j :: 0 <= j <= |s| ==> !OccursAt(s, p, j)
  {
    IndexFrom(s, p, 0)
  }

  /**
   * `s.replace(p, rep)` with a string pattern and a replacement containing
   * no `$` (JavaScript would expand `$&` and the like): only the first
   * occurrence is replaced.
   */
  function ReplaceFirst(s: string, p: string, rep: string): (r: string)
  {
    match IndexOf(s, p)
    case None => s
    case Some(i) => s[..i] + rep + s[i + |p|..]
  }

  /**
   * When `p` first occurs right after `a`, ReplaceFirst swaps that one
   * occurrence and leaves everything after it, later occurrences included.
   */
  lemma ReplaceFirstAt(a: string, p: string, rep: string, b: string)
    requires forall j :: 0 <= j < |a| ==> !OccursAt(a + p + b, p, j)
    ensures ReplaceFirst(a + p + b, p, rep) == a + rep + b
  {
    var s := a + p + b;
    assert OccursAt(s, p, |a|) by { assert s[|a|..|a| + |p|] == p; }
    var i := IndexOf(s, p);
    assert i == Some(|a|);
    assert s[..|a|] == a;
    assert s[|a| + |p|..] == b;
  }

  /**
   * A cheap way to meet ReplaceFirstAt's condition: some character of the
   * pattern appears neither in `a` nor earlier in the pattern itself.
   */
  lemma ReplaceFirstMarked(a: string, p: string, rep: string, b: string, k: nat)
    requires k < |p| && p[k] !in a && p[k] !in p[..k]
    ensures ReplaceFirst(a + p + b, p, rep) == a + rep + b
  {
    var s := a + p + b;
    forall j | 0 <= j < |a| ensures !OccursAt(s, p, j) {
      if j + k < |a| {
        assert s[j + k] == a[j + k];
      } else {
        assert s[j + k] == p[..k][j + k - |a|];
      }
      assert s[j..j + |p|][k] == s[j + k];
    }
    ReplaceFirstAt(a, p, rep, b);
  }

  /** When `p` does not occur at all, ReplaceFirst changes nothing. */
  lemma ReplaceFirstAbsent(s: string, p: string, rep: string)
    requires forall j :: 0 <= j <= |s| ==> !OccursAt(s, p, j)
    ensures ReplaceFirst(s, p, rep) == s
  {
  }

  /** ReplaceFirst introduces no character absent from both `s` and `rep`. */
  lemma ReplaceFirstChars(s: string, p: string, rep: string, c: char)
    requires c !in s && c !in rep
    ensures c !in ReplaceFirst(s, p, rep)
  {
    match IndexOf(s, p)
    case None =>
    case Some(i) =>
      var r := s[..i] + rep + s[i + |p|..];
      forall k | 0 <= k < |r| ensures r[k] != c {
        if k < i { assert r[k] == s[k]; }
        else if k < i + |rep| { assert r[k] == rep[k - i]; }
        else { assert r[k] == s[k - i - |rep| + i + |p|]; }
      }
  }

  // ---------------------------------------------------------------
  // s.toUpperCase(), on the ASCII letters
  // ---------------------------------------------------------------

  predicate IsAsciiLower(c: char) {
    'a' <= c <= 'z'
  }

  /** The upper-case partner of an ASCII lower-case letter; any other character unchanged. */
  function UpperChar(c: char): (u: char)
    ensures !IsAsciiLower(u)
    ensures IsAsciiLower(c) ==> 'A' <= u <= 'Z' && u as int + 32 == c as int
    ensures !IsAsciiLower(c) ==> u == c
  {
    if IsAsciiLower(c) then (c as int - 32) as char else c
  }

  /** No ASCII lower-case letter in `s`. */
  predicate NoAsciiLower(s: string) {
    forall i :: 0 <= i < |s| ==> !IsAsciiLower(s[i])
  }

  function ToUpperCase(s: string): (r: string)
    ensures |r| == |s|
  {
    if s == [] then [] else [UpperChar(s[0])] + ToUpperCase(s[1..])
  }

  /** Character by character, `ToUpperCase` is `UpperChar`. */
  lemma {:induction false} ToUpperCaseAt(s: string, i: nat)
    requires i < |s|
    ensures ToUpperCase(s)[i] == UpperChar(s[i])
    decreases i
  {
    if i > 0 {
      ToUpperCaseAt(s[1..], i - 1);
    }
  }

  /** The result holds no lower-case ASCII letter. */
  lemma ToUpperCaseNoLower(s: string)
    ensures NoAsciiLower(ToUpperCase(s))
  {
    forall i | 0 <= i < |s| ensures !IsAsciiLower(ToUpperCase(s)[i]) {
      ToUpperCaseAt(s, i);
    }
  }

  /** `ToUpperCase` leaves `s` unchanged exactly when `s` holds no lower-case ASCII letter. */
  lemma ToUpperCaseFixpoint(s: string)
    ensures ToUpperCase(s) == s <==> NoAsciiLower(s)
  {
    if NoAsciiLower(s) {
      forall i | 0 <= i < |s| ensures ToUpperCase(s)[i] == s[i] {
        ToUpperCaseAt(s, i);
      }
    } else {
      ToUpperCaseNoLower(s);
    }
  }

  /** Upper-casing twice is upper-casing once. */
  lemma ToUpperCaseIdempotent(s: string)
    ensures ToUpperCase(ToUpperCase(s)) == ToUpperCase(s)
  {
    ToUpperCaseNoLower(s);
    ToUpperCaseFixpoint(ToUpperCase(s));
  }

  /** Two names that differ only in ASCII case upper-case to the same name. */
  lemma ToUpperCaseIgnoresCase(s: string, t: string)
    requires |s| == |t|
    requires forall i :: 0 <= i < |s| ==> UpperChar(s[i]) == UpperChar(t[i])
    ensures ToUpperCase(s) == ToUpperCase(t)
  {
    forall i | 0 <= i < |s| ensures ToUpperCase(s)[i] == ToUpperCase(t)[i] {
      ToUpperCaseAt(s, i);
      ToUpperCaseAt(t, i);
    }
  }
}
