# vscode-phpunit test parser, modelled in Dafny

The VS Code PHPUnit extension finds the tests in a PHP file with
`src/phpunit/parser.ts`. The `php-parser` library turns the file into a
syntax tree. `parse` then walks that tree with `travel` and returns one
`TestCase` per test method:

- a class member is a test when it is a `method` whose name starts with `test`,
  or whose doc comments contain `@test`;
- each test case carries the class name, the namespace name when there is one,
  the qualified class (`Namespace\Class`) and the id (`Namespace\Class::method`);
- it carries the `@depends` arguments found in its comments;
- it carries a start and an end position taken from the declaration's location.

The model takes the tree as its input. It is a datatype holding the parts of a
php-parser node that the walk reads.

Modules, in dependency order:

- `Wrappers`: `Option`.
- `Seqs`: `Map`, `Filter`, `Flatten` and a left fold of concatenations, with their laws.
- `Strings`: the JavaScript string operations the parser relies on:
  - `startsWith`, `includes`-style search, `join`;
  - `replace` of the first occurrence;
  - `trim`, with JavaScript's white-space set;
  - `length` in UTF-16 code units.
- `Ast`: names, comments, locations, declarations and the nodes the walk tells apart.
- `Names`: `generateQualifiedClazz` and `generateId`.
- `Classifier`: `isAnnotationTest` and `isTest`.
- `DocComments`: `parseAnnotation`. The global match of `@depends\s+[^\n\s]+` is
  modelled in three parts:
  - a declarative predicate saying what a match is (`IsMatch`);
  - a scanner that tries each position and resumes after each match, as a
    global regular-expression match does (`MatchAt`, `Spans`);
  - proofs that the scanner finds exactly the matches: sound, complete, and
    unique at each position.
- `TestCases`: the `TestCase` record and its constructor.
- `Walker`: `travel` and `parse`, with a specification of the walk:
  1. a test case is in the result exactly when it is built from a test member of
     a class reached from the root;
  2. the path to that class runs through container nodes only;
  3. the namespace used is the innermost enclosing one.
- `DependsCases`: whole-comment consequences of `parseAnnotation`. They cover:
  - a comment with one `@depends name`;
  - a comment without any tag;
  - a tag glued to the next word (`@dependsFoo`).

## Model

| member | source | states |
|---|---|---|
| Seqs.Filter | src/phpunit/parser.ts:24 | `Array.prototype.filter`: keeps exactly the elements satisfying the predicate and never lengthens the sequence; when every element passes, the result is the input. |
| Seqs.FilterConcat | src/phpunit/parser.ts:78 | Filtering distributes over concatenation, so `filter` keeps the surviving elements in their original order and multiplicity. |
| Seqs.FoldConcatFlattens | src/phpunit/parser.ts:56-58 | A `reduce` of `acc.concat(f(x))` from `acc` equals `acc` followed by the concatenation, in order, of `f` over the elements. |
| Strings.ContainsIff | src/phpunit/parser.ts:30 | The substring search used for `/@test/.test(...)` succeeds exactly when the pattern occurs at some position. |
| Strings.ContainsJoin | src/phpunit/parser.ts:30 | Searching texts joined by a character that the pattern does not contain finds the pattern exactly when one of the texts contains it. |
| Strings.IndexOf | src/phpunit/parser.ts:50 | The position `String.prototype.replace` rewrites is the first occurrence of the pattern; none is returned when the pattern does not occur. |
| Strings.ReplaceFirstPrefix | src/phpunit/parser.ts:50 | Replacing the tag at the start of a matched text by the empty string leaves the text after the tag. |
| Strings.TrimStart | src/phpunit/parser.ts:50 | `trim` at the front removes exactly the maximal run of JavaScript white space: the result is a suffix, everything removed is white space, and the result does not start with white space. |
| Strings.TrimEnd | src/phpunit/parser.ts:50 | `trim` at the back removes exactly the maximal trailing run of white space: the result is a prefix and does not end with white space. |
| Strings.TrimSpacesThenWord | src/phpunit/parser.ts:50 | Trimming white space followed by a word that has no white space at either end leaves the word. |
| Strings.Utf16Length | src/phpunit/parser.ts:117 | `source.length` counts UTF-16 code units: between one and two per character, and exactly one per character only when every character lies in the Basic Multilingual Plane. |
| Ast.GetName | src/phpunit/parser.ts:15-17 | `getName` returns the string the name stands for: the name itself when it is a plain string, or the `name` of a nested name node. |
| Names.QualifiedClazz | src/phpunit/parser.ts:23-25 | The qualified name is the class alone when the namespace is absent or empty. It is `namespace\class` when both are non-empty, and the namespace alone when the class name is empty. |
| Names.IdDeterminesMethod | src/phpunit/parser.ts:19-21 | Two ids `qualifiedClazz::method` with the same qualified class are equal exactly when the method names are equal. |
| Names.IdInjective | src/phpunit/parser.ts:19-21 | For colon-free qualified class names, equal ids mean the same qualified class and the same method. |
| Names.QualifiedClazzHasNoColon | src/phpunit/parser.ts:23-25 | Qualifying colon-free names gives a colon-free name. |
| Classifier.AnnotationTestIff | src/phpunit/parser.ts:27-31 | `isAnnotationTest` holds exactly when the declaration has comments and one of them, taken alone, contains `@test`. Joining the comments with newlines neither creates nor hides a marker. |
| Classifier.IsTestIff | src/phpunit/parser.ts:33-43 | `isTest` holds exactly for a declaration of kind `method` whose name starts with `test` (case-sensitively) or whose comments contain `@test`. |
| Classifier.TestdoxMarksTest | src/phpunit/parser.ts:30 | Because `@test` is matched as a substring, a method documented with `@testdox` counts as a test. |
| DocComments.SkipSpace | src/phpunit/parser.ts:46 | `\s+` greedily: the position reached is preceded by white space only and is followed by a non-space character or the end of the text. |
| DocComments.SkipToken | src/phpunit/parser.ts:46 | `[^\n\s]+` greedily: the characters covered contain no white space, and what follows is white space or the end of the text. |
| DocComments.MatchIsComputed | src/phpunit/parser.ts:46 | Every match of the pattern is the greedy one: the tag, then the maximal white space, then the maximal run of other characters. |
| DocComments.MatchUnique | src/phpunit/parser.ts:46 | At most one match starts at any position. |
| DocComments.MatchAt | src/phpunit/parser.ts:46 | The scanner at a position returns a match starting there when one exists, and returns nothing when no match starts there. |
| DocComments.MatchAtFinds | src/phpunit/parser.ts:46 | Every match is the one the scanner returns at its start. |
| DocComments.Spans | src/phpunit/parser.ts:49 | The global match resumes after each match: results lie after the starting position, inside the text, and in increasing order without overlap. |
| DocComments.SpansSound | src/phpunit/parser.ts:49 | Everything the global match returns is a match of the pattern. |
| DocComments.SpansComplete | src/phpunit/parser.ts:49 | The global match misses no match: every match at or after the starting position is returned or begins inside a returned one. |
| DocComments.CleanMatch | src/phpunit/parser.ts:50 | Replacing the tag in a matched text and trimming it leaves exactly the match's argument. |
| DocComments.CleanedTexts | src/phpunit/parser.ts:49-50 | Cleaning the matched texts gives the matches' arguments, one per match, in order. |
| DocComments.SomeMatchIffSpans | src/phpunit/parser.ts:49 | The global match returns nothing exactly when the comment has no match (`comment.match(pattern) \|\| []` is empty). |
| DocComments.ArgumentsAreWords | src/phpunit/parser.ts:46 | The argument of every match is non-empty and contains no white space. |
| DocComments.CleanedKept | src/phpunit/parser.ts:51 | The `!!match` filter drops nothing from the cleaned texts of a comment, since none of them is empty. |
| DocComments.CommentTokens | src/phpunit/parser.ts:48-52 | `match(comment)` returns the arguments of the comment's matches, in order, one per match. Every entry is non-empty and free of white space, so the `!!match` filter drops nothing. The result is empty exactly when the comment has no match. |
| DocComments.ParseAnnotation | src/phpunit/parser.ts:45-59 | `parseAnnotation` is absent exactly when the declaration has no comments. Otherwise it is the concatenation, in comment order, of each comment's arguments, all non-empty and free of white space. |
| DependsCases.SpansSkipNoTag | src/phpunit/parser.ts:49 | The global match passes over text without `@` and finds nothing there. |
| DependsCases.SingleDepends | src/phpunit/parser.ts:48-52 | A comment whose only `@` starts `@depends`, followed by white space and a word, yields exactly that word. |
| DependsCases.SingleCommentDepends | src/phpunit/parser.ts:45-59 | A method with a single such comment has `depends == [word]`. |
| DependsCases.NoTagNoDepends | src/phpunit/parser.ts:48-52 | A comment without `@` yields no arguments. |
| DependsCases.GluedNoMatch | src/phpunit/parser.ts:46 | No match starts at a tag that a non-space character follows directly. |
| DependsCases.GluedTagNoDepends | src/phpunit/parser.ts:46 | `@depends` followed directly by another word, with no white space between, yields no arguments. |
| TestCases.NewTestCase | src/phpunit/parser.ts:100-118 | The constructor sets names via `getName` and the namespace exactly when one is given. The qualified class and id agree with `generateQualifiedClazz` and `generateId`. `depends` is `parseAnnotation(declaration)`, so it is absent exactly when there are no comments. The start is the location's start line and column. The end stays on the start line. Its character is 0 when no source was captured and otherwise the source's length in UTF-16 code units. |
| TestCases.DistinctMethodsDistinctIds | src/phpunit/parser.ts:106-110 | Two constructed test cases of the same class and namespace have equal ids exactly when their methods are equal. |
| TestCases.IdIdentifiesTest | src/phpunit/parser.ts:106-110 | For colon-free names, equal ids of constructed test cases mean the same qualified class and the same method. |
| Walker.Travel | src/phpunit/parser.ts:61-88 | `travel` returns `undefined` exactly for a use group and for a node without children or class body. |
| Walker.TravelChildrenYields | src/phpunit/parser.ts:82-86 | The `reduce` over the children appends, in child order, what each child yields, with `?? []` for an absent result. |
| Walker.TravelContainer | src/phpunit/parser.ts:82-86 | A program, namespace or block yields the concatenation of what its children yield, under the namespace the node sets. |
| Walker.SiblingsIndependent | src/phpunit/parser.ts:70-72 | Assigning `namespace` inside one call does not leak to its siblings, which are walked with the outer namespace. |
| Walker.ClassYieldsItsTests | src/phpunit/parser.ts:74-80 | A class yields one test case per test member, in body order, built with the class and the namespace in scope. The abstract flag changes nothing. |
| Walker.InYield | src/phpunit/parser.ts:83-86 | A test case is in what a list of siblings yields exactly when one sibling yields it. |
| Walker.InClassCases | src/phpunit/parser.ts:77-79 | A test case is among a class's results exactly when it is built from one of the class's test members. |
| Walker.LocateStep | src/phpunit/parser.ts:70-72 | Descending into a child enters it under the namespace the parent sets. |
| Walker.TravelSound | src/phpunit/parser.ts:61-88 | Every test case the walk yields is built from a test member of a class reached from the node, under the innermost enclosing namespace. |
| Walker.TravelComplete | src/phpunit/parser.ts:61-88 | Every test member of every class reached from the node through container nodes yields its test case. |
| Walker.TravelSpec | src/phpunit/parser.ts:61-88 | From any node other than a use group or leaf, the walk yields a sequence. A test case is in it exactly when built from a test member of a class reached through container nodes, under the innermost enclosing namespace. |
| Walker.TravelWellFormed | src/phpunit/parser.ts:61-118 | Every test case the walk yields carries the given file name, and its qualified class and id agree with its parts. |
| Walker.Parse | src/phpunit/parser.ts:127-131 | `parse` returns `undefined` exactly when the root is a use group or a node without children. |
| Walker.ParseSpec | src/phpunit/parser.ts:127-131 | `parse` of a program yields a sequence. A test case is in it exactly when it is made from a test member of a class reached from the root, under its innermost enclosing namespace, or none outside every namespace. Every such test case is well formed and carries the given file name. |
| Walker.NoTestsYieldsEmpty | src/phpunit/parser.ts:127-131 | `parse` of a program without test members yields an empty sequence, not `undefined`. |

## Left out

- Lexing and parsing PHP (`Engine`, `parseCode`, lines 1-13 and 128 of
  `src/phpunit/parser.ts`) are left out: php-parser is a separate library.
  `Walker.Parse` takes the tree that php-parser would build. Its option object
  (positions, source capture, doc extraction) is assumed to be in effect.
- The tree is a datatype with the parts the walk reads. A `Block` stands for any
  node with a `children` array. A `Leaf` stands for any node without one
  (interfaces, traits, functions, statements). The walk checks `'children' in
  ast` and so does not descend into those.
- `TestCase.toJSON` (lines 120-124) is left out. It only copies fields.
- `DocComments.ParseAnnotation`: the source's `annotation` parameter defaults to
  `@depends` and is only called that way. The model fixes it, so regular
  expressions built from other annotations are not modelled.
- `DocComments.Spans`: JavaScript regular-expression matching in general is not
  modelled. The scanner is written for this one pattern and proved equal to its
  meaning. A zero-length match, where `match` advances by one, cannot happen
  for this pattern.
- `Walker.Travel`: when a node is both a namespace and a holder of children, the
  namespace is re-bound for that node's subtree only. This is what happens in the
  source, because `namespace` is a parameter of each call.
- `TestCases.NewTestCase`: positions are php-parser's numbers taken as they are.
  `loc` is required by the source's `!` and is a mandatory field here. Ids are
  unique only per class, not proved unique per file: two classes with the same
  qualified name in one file would share ids.
- Where `parser.ts` and its test file `parser.test.ts` disagree, the model
  follows the code:
  - members of abstract classes are not excluded (`Walker.ClassYieldsItsTests`
    proves the flag is ignored);
  - structured PHP attributes, `@dataProvider` and `@testdox` arguments are not
    collected;
  - the end position stays on the start line, with the source length as its
    character;
  - test cases are not grouped into suites;
  - an absent namespace is `None`, not the empty string.
