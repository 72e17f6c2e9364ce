/**
 * The JavaScript string operations the parser relies on: `startsWith`, a
 * regular-expression substring test, `join`, `replace` of a literal string,
 * `trim`, and `length` (which counts UTF-16 code units).
 */
module Strings {
  import opened Wrappers

  /** JavaScript truthiness of a string: everything but the empty string. */
  predicate NonEmpty(s: string)
  {
    s != ""
  }

  /** `s.startsWith(prefix)`. */
  predicate StartsWith(s: string, prefix: string)
  {
    |prefix| <= |s| && s[..|prefix|] == prefix
  }

  /** `/pat/.test(s)` for a pattern of plain characters: some suffix of `s` starts with `pat`. */
  predicate Contains(s: string, pat: string)
    decreases |s|
  {
    StartsWith(s, pat) || (|s| > 0 && Contains(s[1..], pat))
  }

  /** The search `Contains` performs finds exactly the positions at which `pat` occurs. */
  lemma {:induction false} ContainsIff(s: string, pat: string)
    ensures Contains(s, pat) <==> exists i :: 0 <= i <= |s| && StartsWith(s[i..], pat)
    decreases |s|
  {
    assert s[0..] == s;
    if |s| > 0 {
      ContainsIff(s[1..], pat);
      assert forall j :: 0 <= j <= |s| - 1 ==> s[1..][j..] == s[j + 1..];
      if exists i :: 0 <= i <= |s| && StartsWith(s[i..], pat) {
        var i :| 0 <= i <= |s| && StartsWith(s[i..], pat);
        if i > 0 {
          assert StartsWith(s[1..][i - 1..], pat);
        }
      }
    }
  }

  /** A text that contains `p + q` contains `p`: so `@testdox` also contains `@test`. */
  lemma {:induction false} ContainsLonger(s: string, p: string, q: string)
    requires Contains(s, p + q)
    ensures Contains(s, p)
    decreases |s|
  {
    if StartsWith(s, p + q) {
      assert s[..|p|] == (p + q)[..|p|] == p;
    } else {
      ContainsLonger(s[1..], p, q);
    }
  }

  /** A prefix test cannot straddle a character the pattern does not contain. */
  lemma StartsWithAcross(a: string, c: char, b: string, pat: string)
    requires c !in pat
    ensures StartsWith(a + [c] + b, pat) == StartsWith(a, pat)
  {
    var w := a + [c] + b;
    if |pat| <= |a| {
      assert w[..|pat|] == a[..|pat|];
    } else if |pat| <= |w| {
      assert w[..|pat|][|a|] == c;
    }
  }

  /** Searching a text glued from `a` and `b` by a separator the pattern lacks searches each part. */
  lemma {:induction false} ContainsAcross(a: string, c: char, b: string, pat: string)
    requires |pat| > 0 && c !in pat
    ensures Contains(a + [c] + b, pat) <==> Contains(a, pat) || Contains(b, pat)
    decreases |a|
  {
    var w := a + [c] + b;
    StartsWithAcross(a, c, b, pat);
    if a == [] {
      assert w[1..] == b;
    } else {
      assert w[1..] == a[1..] + [c] + b;
      ContainsAcross(a[1..], c, b, pat);
    }
  }

  /** `parts.join(sep)`. */
  function Join(parts: seq<string>, sep: string): string
  {
    if |parts| == 0 then ""
    else if |parts| == 1 then parts[0]
    else parts[0] + sep + Join(parts[1..], sep)
  }

  /** A pattern without the separator occurs in the joined text exactly when it occurs in one of the parts. */
  lemma {:induction false} ContainsJoin(parts: seq<string>, c: char, pat: string)
    requires |pat| > 0 && c !in pat
    ensures Contains(Join(parts, [c]), pat) <==> exists i :: 0 <= i < |parts| && Contains(parts[i], pat)
  {
    if |parts| == 0 {
      assert !StartsWith("", pat);
    } else if |parts| > 1 {
      ContainsJoin(parts[1..], c, pat);
      ContainsAcross(parts[0], c, Join(parts[1..], [c]), pat);
      assert parts[0] + [c] + Join(parts[1..], [c]) == Join(parts, [c]);
      assert forall i :: 1 <= i < |parts| ==> parts[i] == parts[1..][i - 1];
    }
  }

  /** The first index at which `pat` occurs in `s` (`s.indexOf(pat)`, with -1 as `None`). */
  function IndexOf(s: string, pat: string): (r: Option<nat>)
    decreases |s|
    ensures r.Some? ==> r.value <= |s| && StartsWith(s[r.value..], pat)
    ensures r.Some? ==> forall j :: 0 <= j < r.value ==> !StartsWith(s[j..], pat)
    ensures r.None? ==> forall j :: 0 <= j <= |s| ==> !StartsWith(s[j..], pat)
  {
    if StartsWith(s, pat) then
      assert s[0..] == s;
      Some(0)
    else if |s| == 0 then
      assert s[0..] == s;
      None
    else
      var r := IndexOf(s[1..], pat);
      assert forall j :: 1 <= j <= |s| ==> s[j..] == s[1..][j - 1..];
      assert s[0..] == s;
      match r
      case Some(i) => Some(i + 1)
      case None => None
  }

  /** `s.replace(pat, rep)` with a literal string pattern: only the first occurrence is replaced. */
  function ReplaceFirst(s: string, pat: string, rep: string): (r: string)
  {
    match IndexOf(s, pat)
    case None => s
    case Some(i) => s[..i] + rep + s[i + |pat|..]
  }

  /** On a text that starts with the pattern, removing the first occurrence removes that prefix. */
  lemma ReplaceFirstPrefix(s: string, pat: string)
    requires StartsWith(s, pat)
    ensures ReplaceFirst(s, pat, "") == s[|pat|..]
  {
    assert s[0..] == s;
    assert s[..0] == [];
  }

  /**
   * ECMAScript's white space and line terminators: the characters matched by
   * `\s` in a regular expression and removed by `trim()`.
   */
  predicate IsSpace(c: char)
  {
    var n := c as int;
    (0x09 <= n <= 0x0D) || n == 0x20 || n == 0xA0 || n == 0x1680
    || (0x2000 <= n <= 0x200A) || n == 0x2028 || n == 0x2029
    || n == 0x202F || n == 0x205F || n == 0x3000 || n == 0xFEFF
  }

  /** `s.trimStart()`: drops the leading white space and nothing else. */
  function TrimStart(s: string): (r: string)
    decreases |s|
    ensures |r| <= |s| && r == s[|s| - |r|..]
    ensures forall i :: 0 <= i < |s| - |r| ==> IsSpace(s[i])
    ensures r == [] || !IsSpace(r[0])
  {
    if |s| > 0 && IsSpace(s[0]) then TrimStart(s[1..]) else s
  }

  /** `s.trimEnd()`: drops the trailing white space and nothing else. */
  function TrimEnd(s: string): (r: string)
    decreases |s|
    ensures |r| <= |s| && r == s[..|r|]
    ensures forall i :: |r| <= i < |s| ==> IsSpace(s[i])
    ensures r == [] || !IsSpace(r[|r| - 1])
  {
    if |s| > 0 && IsSpace(s[|s| - 1]) then TrimEnd(s[..|s| - 1]) else s
  }

  /** `s.trim()`. */
  function Trim(s: string): string
  {
    TrimEnd(TrimStart(s))
  }

  /** Trimming white space followed by a word that neither starts nor ends with white space leaves the word. */
  lemma TrimSpacesThenWord(s: string, i: nat)
    requires i < |s|
    requires forall k :: 0 <= k < i ==> IsSpace(s[k])
    requires !IsSpace(s[i]) && !IsSpace(s[|s| - 1])
    ensures Trim(s) == s[i..]
  {
    var t := TrimStart(s);
    var d := |s| - |t|;
    assert d == i;
    assert TrimEnd(t) == t by {
      assert t[|t| - 1] == s[|s| - 1];
    }
  }

  /** The number of UTF-16 code units that encode `c`. */
  function Utf16Units(c: char): nat
  {
    if c as int >= 0x10000 then 2 else 1
  }

  /** `s.length`: JavaScript counts UTF-16 code units, so characters outside the BMP count twice. */
  function Utf16Length(s: string): (n: nat)
    ensures |s| <= n <= 2 * |s|
    ensures n == |s| <==> forall i :: 0 <= i < |s| ==> s[i] as int < 0x10000
  {
    if s == [] then 0
    else
      var n := Utf16Units(s[0]) + Utf16Length(s[1..]);
      assert forall i :: 1 <= i < |s| ==> s[i] == s[1..][i - 1];
      n
  }
}
