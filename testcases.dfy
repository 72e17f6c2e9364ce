/** The `TestCase` record and its constructor. */
module TestCases {
  import opened Wrappers
  import opened Strings
  import opened Ast
  import opened Names
  import opened DocComments

  /** An editor position: `line` as php-parser counts it, `character` a column. */
  datatype Position = Position(line: int, character: int)

  /** The annotations a test case carries; `depends` is absent when the method has no comments. */
  datatype Annotations = Annotations(depends: Option<seq<string>>)

  /**
   * One test method. The fields are set once, by `NewTestCase`; `methodName`
   * is the source's `method` field (`method` is a keyword here).
   */
  datatype TestCase = TestCase(
    filename: string,
    id: string,
    qualifiedClazz: string,
    namespace: Option<string>,
    clazz: string,
    methodName: string,
    start: Position,
    end: Position,
    annotations: Annotations)

  /** The relations between the fields that every constructed test case satisfies. */
  ghost predicate WellFormed(t: TestCase)
  {
    && t.qualifiedClazz == QualifiedClazz(t.clazz, t.namespace)
    && t.id == Id(t.qualifiedClazz, t.methodName)
    && t.end.line == t.start.line
    && t.end.character >= 0
  }

  /**
   * The `TestCase` constructor, for a method `declaration` of the class named
   * `clazz`, under the namespace named `namespace` when there is one. The
   * end position keeps the start line; its character is the length of the
   * captured source text, in UTF-16 code units, or 0 when none was captured.
   */
  function NewTestCase(filename: string, declaration: Declaration, clazz: Name, namespace: Option<Name>): (t: TestCase)
    ensures WellFormed(t)
    ensures t.filename == filename
    ensures t.clazz == GetName(clazz) && t.methodName == GetName(declaration.name)
    ensures t.namespace.None? <==> namespace.None?
    ensures namespace.Some? ==> t.namespace == Some(GetName(namespace.value))
    ensures t.namespace.None? || t.namespace.value == "" ==> t.qualifiedClazz == t.clazz
    ensures t.namespace.Some? && t.namespace.value != "" && t.clazz != "" ==>
      t.qualifiedClazz == t.namespace.value + Separator + t.clazz
    ensures t.annotations.depends == ParseAnnotation(declaration)
    ensures t.annotations.depends.None? <==> declaration.leadingComments.None?
    ensures t.start == Position(declaration.loc.start.line, declaration.loc.start.column)
    ensures declaration.loc.source.None? ==> t.end.character == 0
    ensures declaration.loc.source.Some? ==> t.end.character == Utf16Length(declaration.loc.source.value)
  {
    var ns := match namespace case Some(n) => Some(GetName(n)) case None => None;
    var clazzName := GetName(clazz);
    var methodName := GetName(declaration.name);
    var qualified := QualifiedClazz(clazzName, ns);
    var loc := declaration.loc;
    TestCase(
      filename,
      Id(qualified, methodName),
      qualified,
      ns,
      clazzName,
      methodName,
      Position(loc.start.line, loc.start.column),
      Position(loc.start.line, match loc.source case Some(src) => Utf16Length(src) case None => 0),
      Annotations(ParseAnnotation(declaration)))
  }

  /** Two well-formed test cases of the same class with different methods have different ids. */
  lemma DistinctMethodsDistinctIds(t1: TestCase, t2: TestCase)
    requires WellFormed(t1) && WellFormed(t2)
    requires t1.clazz == t2.clazz && t1.namespace == t2.namespace
    ensures t1.id == t2.id <==> t1.methodName == t2.methodName
  {
    IdDeterminesMethod(t1.qualifiedClazz, t1.methodName, t2.methodName);
  }

  /**
   * With colon-free class and namespace names (as PHP names are), equal ids
   * mean the same qualified class and the same method.
   */
  lemma IdIdentifiesTest(t1: TestCase, t2: TestCase)
    requires WellFormed(t1) && WellFormed(t2)
    requires ':' !in t1.clazz && ':' !in t2.clazz
    requires t1.namespace.Some? ==> ':' !in t1.namespace.value
    requires t2.namespace.Some? ==> ':' !in t2.namespace.value
    ensures t1.id == t2.id <==> t1.qualifiedClazz == t2.qualifiedClazz && t1.methodName == t2.methodName
  {
    QualifiedClazzHasNoColon(t1.clazz, t1.namespace);
    QualifiedClazzHasNoColon(t2.clazz, t2.namespace);
    IdInjective(t1.qualifiedClazz, t1.methodName, t2.qualifiedClazz, t2.methodName);
  }
}
