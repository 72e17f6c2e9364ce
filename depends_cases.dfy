/**
 * What `parseAnnotation` yields for the comment shapes a test file uses:
 * a comment with one `@depends name`, a comment without any tag, and a
 * tag glued to the following word. Each is stated for every text of that
 * shape rather than for one literal comment.
 */
module DependsCases {
  import opened Wrappers
  import opened Seqs
  import opened Strings
  import opened Ast
  import opened DocComments

  /** No match starts at a character other than `@`. */
  lemma NoTagAt(s: string, p: nat)
    requires p < |s| && s[p] != '@'
    ensures MatchAt(s, p) == None
  {
    assert DependsTag[0] == '@';
  }

  /** The search passes over text without `@` finding nothing. */
  lemma {:induction false} SpansSkipNoTag(s: string, from: nat, p: nat)
    requires from <= p <= |s|
    requires forall k :: from <= k < p ==> s[k] != '@'
    ensures Spans(s, from) == Spans(s, p)
    decreases p - from
  {
    if from < p {
      NoTagAt(s, from);
      SpansSkipNoTag(s, from + 1, p);
    }
  }

  /** `@depends`, white space and a word form a match at the tag. */
  lemma SingleMatch(a: string, w: string, t: string, b: string)
    requires |w| > 0 && forall k :: 0 <= k < |w| ==> IsSpace(w[k])
    requires t != [] && NoSpace(t)
    requires b == [] || IsSpace(b[0])
    ensures var n := |a| + |DependsTag| + |w|;
      MatchAt(a + DependsTag + w + t + b, |a|) == Some(Match(|a|, n, n + |t|))
  {
    var s := a + DependsTag + w + t + b;
    var n := |DependsTag|;
    var m := Match(|a|, |a| + n + |w|, |a| + n + |w| + |t|);
    assert s[|a|..|a| + n] == DependsTag;
    assert forall k :: |a| + n <= k < m.token ==> s[k] == w[k - |a| - n];
    assert forall k :: m.token <= k < m.end ==> s[k] == t[k - m.token];
    assert m.end < |s| ==> s[m.end] == b[0];
    assert IsMatch(s, m);
    MatchAtFinds(s, m);
  }

  /** `@`-free text keeps its characters at the front of a concatenation. */
  lemma NoTagFront(x: string, y: string)
    requires '@' !in x
    ensures forall k :: 0 <= k < |x| ==> (x + y)[k] != '@'
  {
  }

  /** `@`-free text keeps its characters at the back of a concatenation. */
  lemma NoTagBack(x: string, y: string)
    requires '@' !in y
    ensures forall k :: |x| <= k < |x + y| ==> (x + y)[k] != '@'
  {
    assert forall k :: |x| <= k < |x + y| ==> (x + y)[k] == y[k - |x|];
  }

  /** A match with no `@` before or after it is the only one the search finds. */
  lemma SpansLone(s: string, m: Match)
    requires m.start < m.end <= |s| && MatchAt(s, m.start) == Some(m)
    requires forall k :: 0 <= k < m.start ==> s[k] != '@'
    requires forall k :: m.end <= k < |s| ==> s[k] != '@'
    ensures Spans(s, 0) == [m]
  {
    SpansSkipNoTag(s, 0, m.start);
    SpansSkipNoTag(s, m.end, |s|);
    assert Spans(s, m.start) == [m] + Spans(s, m.end);
  }

  /** The same, for a text split once before the match and once after it. */
  lemma SpansLoneSplit(s: string, x: string, y: string, u: string, v: string, m: Match)
    requires s == x + y && s == u + v && '@' !in x && '@' !in v
    requires m.start == |x| && m.end == |u| && m.start < m.end
    requires MatchAt(s, m.start) == Some(m)
    ensures Spans(s, 0) == [m]
  {
    NoTagFront(x, y);
    NoTagBack(u, v);
    SpansLone(s, m);
  }

  /** The search over a comment with exactly one tag finds that one match. */
  lemma SingleSpans(s: string, a: string, w: string, t: string, b: string)
    requires s == a + DependsTag + w + t + b
    requires '@' !in a && '@' !in b
    requires |w| > 0 && forall k :: 0 <= k < |w| ==> IsSpace(w[k])
    requires t != [] && NoSpace(t)
    requires b == [] || IsSpace(b[0])
    ensures var n := |a| + |DependsTag| + |w|;
      Spans(s, 0) == [Match(|a|, n, n + |t|)]
  {
    var n := |a| + |DependsTag| + |w|;
    var m := Match(|a|, n, n + |t|);
    SingleMatch(a, w, t, b);
    var rest := DependsTag + w + t + b;
    var front := a + DependsTag + w + t;
    assert s == a + rest;
    assert s == front + b;
    SpansLoneSplit(s, a, rest, front, b, m);
  }

  /** A comment with one `@depends` followed by white space and a word yields that word. */
  lemma SingleDepends(s: string, a: string, w: string, t: string, b: string)
    requires s == a + DependsTag + w + t + b
    requires '@' !in a && '@' !in b
    requires |w| > 0 && forall k :: 0 <= k < |w| ==> IsSpace(w[k])
    requires t != [] && NoSpace(t)
    requires b == [] || IsSpace(b[0])
    ensures CommentTokens(s) == [t]
  {
    var n := |a| + |DependsTag| + |w|;
    SingleSpans(s, a, w, t, b);
    assert s[n..n + |t|] == t;
  }

  /** A comment without `@` names no dependencies. */
  lemma NoTagNoDepends(s: string)
    requires '@' !in s
    ensures CommentTokens(s) == []
  {
    SpansSkipNoTag(s, 0, |s|);
  }

  /** No match starts at a tag that is directly followed by a non-space character. */
  lemma GluedNoMatch(s: string, a: string, t: string)
    requires s == a + DependsTag + t
    requires t != [] && !IsSpace(t[0])
    ensures MatchAt(s, |a|) == None
  {
    var q := |a| + |DependsTag|;
    assert s[q] == t[0];
    assert SkipSpace(s, q) == q;
  }

  /** A search over text with no `@` but at one position where no match starts finds nothing. */
  lemma {:induction false} SpansMissOne(s: string, p: nat)
    requires p < |s| && MatchAt(s, p) == None
    requires forall k :: 0 <= k < p ==> s[k] != '@'
    requires forall k :: p + 1 <= k < |s| ==> s[k] != '@'
    ensures Spans(s, 0) == []
  {
    SpansSkipNoTag(s, 0, p);
    SpansSkipNoTag(s, p + 1, |s|);
  }

  /**
   * `@depends` glued to the next word (`@dependsFoo`) is not the tag: the
   * pattern needs white space after it.
   */
  lemma GluedTagNoDepends(s: string, a: string, t: string)
    requires s == a + DependsTag + t
    requires '@' !in a && '@' !in t
    requires t != [] && !IsSpace(t[0])
    ensures CommentTokens(s) == []
  {
    GluedNoMatch(s, a, t);
    var at := a + [DependsTag[0]];
    var tail := DependsTag[1..] + t;
    assert '@' !in DependsTag[1..];
    assert s == a + (DependsTag + t) && s == at + tail;
    NoTagFront(a, DependsTag + t);
    NoTagBack(at, tail);
    SpansMissOne(s, |a|);
  }

  /**
   * A test method whose only doc comment reads `... @depends name ...`
   * depends on `name` and nothing else.
   */
  lemma SingleCommentDepends(d: Declaration, s: string, a: string, w: string, t: string, b: string)
    requires d.leadingComments == Some([Comment(s)])
    requires s == a + DependsTag + w + t + b
    requires '@' !in a && '@' !in b
    requires |w| > 0 && forall k :: 0 <= k < |w| ==> IsSpace(w[k])
    requires t != [] && NoSpace(t)
    requires b == [] || IsSpace(b[0])
    ensures ParseAnnotation(d) == Some([t])
  {
    SingleDepends(s, a, w, t, b);
    assert Map([Comment(s)], CommentArguments) == [[t]];
    assert Flatten([[t]]) == [t];
  }
}
