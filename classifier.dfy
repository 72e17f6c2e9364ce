/** Which class members are tests: `isAnnotationTest` and `isTest`. */
module Classifier {
  import opened Wrappers
  import opened Seqs
  import opened Strings
  import opened Ast

  /** The documentation marker searched for in the comments. */
  const TestMarker: string := "@test"

  /** The name prefix that makes a method a test. */
  const TestPrefix: string := "test"

  /** `comment.value`. */
  function CommentValue(c: Comment): string
  {
    c.value
  }

  /**
   * `isAnnotationTest`: the comments' texts, joined by newlines, contain
   * `@test`; a declaration without comments is not an annotation test.
   */
  predicate IsAnnotationTest(declaration: Declaration)
  {
    match declaration.leadingComments
    case None => false
    case Some(comments) => Contains(Join(Map(comments, CommentValue), "\n"), TestMarker)
  }

  /** Some comment of `comments`, taken on its own, contains `@test`. */
  predicate SomeCommentMarked(comments: seq<Comment>)
  {
    exists i :: 0 <= i < |comments| && Contains(comments[i].value, TestMarker)
  }

  /** `isTest`: a method whose comments mark it as a test, or whose name starts with `test`. */
  predicate IsTest(declaration: Declaration)
  {
    if declaration.kind != "method" then false
    else if IsAnnotationTest(declaration) then true
    else StartsWith(GetName(declaration.name), TestPrefix)
  }

  /**
   * Joining with newlines cannot create or hide a marker, since `@test` holds
   * no newline: the joined search succeeds exactly when one comment holds it.
   */
  lemma AnnotationTestIff(declaration: Declaration)
    ensures IsAnnotationTest(declaration)
      <==> declaration.leadingComments.Some? && SomeCommentMarked(declaration.leadingComments.value)
  {
    if declaration.leadingComments.Some? {
      var comments := declaration.leadingComments.value;
      var values := Map(comments, CommentValue);
      ContainsJoin(values, '\n', TestMarker);
      assert forall i :: 0 <= i < |comments| ==> values[i] == comments[i].value;
    }
  }

  /**
   * The classification rule: only a `method` qualifies, and it qualifies
   * exactly when its name starts with `test` (case-sensitively) or one of its
   * comments contains `@test`.
   */
  lemma IsTestIff(declaration: Declaration)
    ensures IsTest(declaration) <==>
      && declaration.kind == "method"
      && (|| StartsWith(GetName(declaration.name), TestPrefix)
          || (declaration.leadingComments.Some? && SomeCommentMarked(declaration.leadingComments.value)))
  {
    AnnotationTestIff(declaration);
  }

  /** The marker is matched as a substring: a method documented with `@testdox` is a test too. */
  lemma TestdoxMarksTest(declaration: Declaration, i: nat)
    requires declaration.kind == "method" && declaration.leadingComments.Some?
    requires i < |declaration.leadingComments.value|
    requires Contains(declaration.leadingComments.value[i].value, "@testdox")
    ensures IsTest(declaration)
  {
    assert "@testdox" == TestMarker + "dox";
    ContainsLonger(declaration.leadingComments.value[i].value, TestMarker, "dox");
    AnnotationTestIff(declaration);
  }
}
