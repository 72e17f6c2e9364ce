/**
 * `parseAnnotation`: the arguments of `@depends` found in a declaration's
 * comments. The global regular-expression match of `@depends\s+[^\n\s]+`
 * is modelled by a scanner that tries each position from left to right and
 * resumes after each match.
 */
module DocComments {
  import opened Wrappers
  import opened Seqs
  import opened Strings
  import opened Ast

  /** The annotation that `parseAnnotation` looks for by default (and the only one it is used with). */
  const DependsTag: string := "@depends"

  /** The end of the run of white space that starts at `i`. */
  function SkipSpace(s: string, i: nat): (j: nat)
    requires i <= |s|
    decreases |s| - i
    ensures i <= j <= |s|
    ensures forall k :: i <= k < j ==> IsSpace(s[k])
    ensures j == |s| || !IsSpace(s[j])
  {
    if i < |s| && IsSpace(s[i]) then SkipSpace(s, i + 1) else i
  }

  /** The end of the run of non-white-space that starts at `i`. */
  function SkipToken(s: string, i: nat): (j: nat)
    requires i <= |s|
    decreases |s| - i
    ensures i <= j <= |s|
    ensures forall k :: i <= k < j ==> !IsSpace(s[k])
    ensures j == |s| || IsSpace(s[j])
  {
    if i < |s| && !IsSpace(s[i]) then SkipToken(s, i + 1) else i
  }

  /** One match: the tag starts at `start`, its argument occupies `token .. end`. */
  datatype Match = Match(start: nat, token: nat, end: nat)

  /**
   * `m` is the greedy match of `@depends\s+[^\n\s]+` that starts at
   * `m.start`: the tag, a non-empty run of white space, then a non-empty run
   * of other characters reaching up to white space or the end of the text.
   */
  ghost predicate IsMatch(s: string, m: Match)
  {
    && m.start + |DependsTag| < m.token < m.end <= |s|
    && s[m.start..m.start + |DependsTag|] == DependsTag
    && (forall k :: m.start + |DependsTag| <= k < m.token ==> IsSpace(s[k]))
    && (forall k :: m.token <= k < m.end ==> !IsSpace(s[k]))
    && (m.end == |s| || IsSpace(s[m.end]))
  }

  /** A match is the greedy one the scanner computes: tag, maximal white space, maximal argument. */
  lemma MatchIsComputed(s: string, m: Match)
    requires IsMatch(s, m)
    ensures StartsWith(s[m.start..], DependsTag)
    ensures m.token == SkipSpace(s, m.start + |DependsTag|)
    ensures m.end == SkipToken(s, m.token)
  {
    assert s[m.start..][..|DependsTag|] == s[m.start..m.start + |DependsTag|];
    var b := SkipSpace(s, m.start + |DependsTag|);
    assert !IsSpace(s[m.token]);
    assert b < |s| ==> !IsSpace(s[b]);
    var e := SkipToken(s, m.token);
    assert e < |s| ==> IsSpace(s[e]);
    assert m.end < |s| ==> IsSpace(s[m.end]);
  }

  /** Greedy matching leaves no choice: at most one match starts at a position. */
  lemma MatchUnique(s: string, m1: Match, m2: Match)
    requires IsMatch(s, m1) && IsMatch(s, m2) && m1.start == m2.start
    ensures m1 == m2
  {
    MatchIsComputed(s, m1);
    MatchIsComputed(s, m2);
  }

  /** The match that starts at `p`, if one does. */
  function MatchAt(s: string, p: nat): (r: Option<Match>)
    requires p <= |s|
    ensures r.Some? ==> r.value.start == p && IsMatch(s, r.value)
    ensures r.None? ==> forall m: Match :: m.start == p ==> !IsMatch(s, m)
  {
    assert forall m: Match | m.start == p && IsMatch(s, m) ::
      StartsWith(s[p..], DependsTag) && m.token == SkipSpace(s, p + |DependsTag|) by {
      forall m: Match | m.start == p && IsMatch(s, m)
        ensures StartsWith(s[p..], DependsTag) && m.token == SkipSpace(s, p + |DependsTag|)
      {
        MatchIsComputed(s, m);
      }
    }
    if StartsWith(s[p..], DependsTag) then
      var a := p + |DependsTag|;
      assert s[p..][..|DependsTag|] == s[p..a];
      var b := SkipSpace(s, a);
      if a < b < |s| then
        Some(Match(p, b, SkipToken(s, b)))
      else
        None
    else
      None
  }

  /** The scanner finds every match at the position where it starts. */
  lemma MatchAtFinds(s: string, m: Match)
    requires IsMatch(s, m)
    ensures MatchAt(s, m.start) == Some(m)
  {
    MatchUnique(s, m, MatchAt(s, m.start).value);
  }

  /**
   * The matches of a global search that resumes at `from` (JavaScript's
   * `lastIndex`): each one starts where the previous one ended or later.
   */
  function Spans(s: string, from: nat): (r: seq<Match>)
    requires from <= |s|
    decreases |s| - from
    ensures forall i :: 0 <= i < |r| ==> from <= r[i].start < r[i].token < r[i].end <= |s|
    ensures forall i, j :: 0 <= i < j < |r| ==> r[i].end <= r[j].start
  {
    if from == |s| then []
    else
      match MatchAt(s, from)
      case Some(m) => [m] + Spans(s, m.end)
      case None => Spans(s, from + 1)
  }

  /** Every result of the search is a match. */
  lemma {:induction false} SpansSound(s: string, from: nat)
    requires from <= |s|
    ensures forall i :: 0 <= i < |Spans(s, from)| ==> IsMatch(s, Spans(s, from)[i])
    decreases |s| - from
  {
    if from < |s| {
      match MatchAt(s, from)
      case Some(m) =>
        SpansSound(s, m.end);
        assert Spans(s, from) == [m] + Spans(s, m.end);
      case None =>
        SpansSound(s, from + 1);
    }
  }

  /** Position `p` begins a match or lies strictly inside one of those in `r`. */
  ghost predicate Covered(r: seq<Match>, p: nat)
  {
    exists i :: 0 <= i < |r| && r[i].start <= p < r[i].end
  }

  /** Putting a match in front keeps what a list of matches contains or covers. */
  lemma CoveredCons(m0: Match, rest: seq<Match>, x: Match, p: nat)
    requires x in rest || Covered(rest, p)
    ensures x in [m0] + rest || Covered([m0] + rest, p)
  {
    if x !in rest {
      var i :| 0 <= i < |rest| && rest[i].start <= p < rest[i].end;
      assert ([m0] + rest)[i + 1] == rest[i];
    }
  }

  /**
   * The search misses no match: every match starting at `from` or later
   * either is one of the results or starts inside one of them (matches do
   * not overlap).
   */
  lemma {:induction false} SpansComplete(s: string, from: nat, p: nat)
    requires from <= p <= |s| && MatchAt(s, p).Some?
    ensures MatchAt(s, p).value in Spans(s, from) || Covered(Spans(s, from), p)
    decreases |s| - from
  {
    var r := Spans(s, from);
    match MatchAt(s, from)
    case Some(m0) =>
      assert r == [m0] + Spans(s, m0.end);
      if p == from {
        assert r[0] == m0;
      } else if p < m0.end {
        assert r[0].start <= p < r[0].end;
      } else {
        SpansComplete(s, m0.end, p);
        CoveredCons(m0, Spans(s, m0.end), MatchAt(s, p).value, p);
      }
    case None =>
      SpansComplete(s, from + 1, p);
  }

  /** The texts `comment.match(pattern)` returns, in order. */
  function MatchedTexts(s: string): (r: seq<string>)
  {
    var spans := Spans(s, 0);
    seq(|spans|, i requires 0 <= i < |spans| => s[spans[i].start..spans[i].end])
  }

  /** What becomes of one matched text: the tag is replaced by nothing and the rest trimmed. */
  function Clean(text: string): string
  {
    Trim(ReplaceFirst(text, DependsTag, ""))
  }

  /** No character of `s` is white space. */
  predicate NoSpace(s: string)
  {
    forall k :: 0 <= k < |s| ==> !IsSpace(s[k])
  }

  /** Trimming a slice made of white space and then a word leaves the word. */
  lemma TrimSlice(s: string, lo: nat, tok: nat, hi: nat)
    requires lo < tok < hi <= |s|
    requires forall k :: lo <= k < tok ==> IsSpace(s[k])
    requires !IsSpace(s[tok]) && !IsSpace(s[hi - 1])
    ensures Trim(s[lo..hi]) == s[tok..hi]
  {
    var w := s[lo..hi];
    var i := tok - lo;
    forall k | 0 <= k < i ensures IsSpace(w[k]) {
      assert w[k] == s[lo + k];
    }
    assert w[i] == s[tok] && w[|w| - 1] == s[hi - 1];
    TrimSpacesThenWord(w, i);
    assert w[i..] == s[tok..hi];
  }

  /** Cleaning a matched text leaves exactly the match's argument. */
  lemma CleanMatch(s: string, m: Match)
    requires IsMatch(s, m)
    ensures Clean(s[m.start..m.end]) == s[m.token..m.end]
  {
    var n := |DependsTag|;
    var text := s[m.start..m.end];
    assert text[..n] == s[m.start..m.start + n];
    ReplaceFirstPrefix(text, DependsTag);
    assert text[n..] == s[m.start + n..m.end];
    TrimSlice(s, m.start + n, m.token, m.end);
  }

  /** Cleaning the matched texts gives the arguments of the matches, in order. */
  lemma CleanedTexts(comment: string)
    ensures var spans := Spans(comment, 0);
      var cleaned := Map(MatchedTexts(comment), Clean);
      && |cleaned| == |spans|
      && forall i :: 0 <= i < |spans| ==> cleaned[i] == comment[spans[i].token..spans[i].end]
  {
    var spans := Spans(comment, 0);
    SpansSound(comment, 0);
    forall i | 0 <= i < |spans|
      ensures Map(MatchedTexts(comment), Clean)[i] == comment[spans[i].token..spans[i].end]
    {
      CleanMatch(comment, spans[i]);
    }
  }

  /** A comment has a match exactly when the search finds one. */
  lemma SomeMatchIffSpans(comment: string)
    ensures Spans(comment, 0) == [] <==> forall m :: !IsMatch(comment, m)
  {
    SpansSound(comment, 0);
    if Spans(comment, 0) != [] {
      assert IsMatch(comment, Spans(comment, 0)[0]);
    }
    if exists m :: IsMatch(comment, m) {
      var m :| IsMatch(comment, m);
      MatchUnique(comment, m, MatchAt(comment, m.start).value);
      SpansComplete(comment, 0, m.start);
    }
  }

  /** The argument of each match is non-empty and free of white space. */
  lemma ArgumentsAreWords(comment: string)
    ensures var spans := Spans(comment, 0);
      forall i :: 0 <= i < |spans| ==>
        comment[spans[i].token..spans[i].end] != [] && NoSpace(comment[spans[i].token..spans[i].end])
  {
    var spans := Spans(comment, 0);
    SpansSound(comment, 0);
    forall i | 0 <= i < |spans|
      ensures NoSpace(comment[spans[i].token..spans[i].end])
    {
      var w := comment[spans[i].token..spans[i].end];
      assert forall k :: 0 <= k < |w| ==> w[k] == comment[spans[i].token + k];
    }
  }

  /** No cleaned text is empty, so the `!!match` filter keeps them all. */
  lemma CleanedKept(comment: string)
    ensures var cleaned := Map(MatchedTexts(comment), Clean);
      Filter(cleaned, NonEmpty) == cleaned
  {
    var cleaned := Map(MatchedTexts(comment), Clean);
    CleanedTexts(comment);
    ArgumentsAreWords(comment);
    assert forall i :: 0 <= i < |cleaned| ==> NonEmpty(cleaned[i]);
  }

  /**
   * The arguments of `@depends` in one comment (the `match` helper of
   * `parseAnnotation`): one per match, in left-to-right order, each the
   * whole run of non-white-space after the tag and its white space. Every
   * entry is non-empty and free of white space, and a comment yields none
   * exactly when no `@depends` in it is followed by white space and then
   * an argument.
   */
  function CommentTokens(comment: string): (r: seq<string>)
    ensures var spans := Spans(comment, 0);
      && |r| == |spans|
      && forall i :: 0 <= i < |r| ==> r[i] == comment[spans[i].token..spans[i].end]
    ensures forall i :: 0 <= i < |r| ==> r[i] != [] && NoSpace(r[i])
    ensures r == [] <==> forall m :: !IsMatch(comment, m)
  {
    var cleaned := Map(MatchedTexts(comment), Clean);
    CleanedTexts(comment);
    ArgumentsAreWords(comment);
    SomeMatchIffSpans(comment);
    CleanedKept(comment);
    Filter(cleaned, NonEmpty)
  }

  /** `match` of one comment; what `reduce` concatenates. */
  function CommentArguments(c: Comment): seq<string>
  {
    CommentTokens(c.value)
  }

  /**
   * `parseAnnotation` with its default annotation `@depends`: absent exactly
   * when the declaration has no comments, and otherwise the arguments of
   * each comment, concatenated in comment order.
   */
  function ParseAnnotation(declaration: Declaration): (r: Option<seq<string>>)
    ensures r.None? <==> declaration.leadingComments.None?
    ensures declaration.leadingComments.Some? ==>
      r.value == Flatten(Map(declaration.leadingComments.value, CommentArguments))
    ensures declaration.leadingComments.Some? ==>
      forall x :: x in r.value ==> x != [] && NoSpace(x)
  {
    match declaration.leadingComments
    case None => None
    case Some(comments) =>
      FoldConcatFlattens(comments, CommentArguments, []);
      var all := Map(comments, CommentArguments);
      assert forall x :: x in Flatten(all) ==> x != [] && NoSpace(x) by {
        forall x | x in Flatten(all) ensures x != [] && NoSpace(x) {
          var i :| 0 <= i < |all| && x in all[i];
        }
      }
      Some(FoldConcat(comments, CommentArguments, []))
  }
}
