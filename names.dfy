/** Test identity: the namespace-qualified class name and the test id built from it. */
module Names {
  import opened Wrappers
  import opened Seqs
  import opened Strings

  /** The namespace separator. */
  const Separator: string := "\\"

  /**
   * `generateQualifiedClazz`: the namespace and the class, each dropped when
   * absent or empty, joined by a backslash. An absent namespace behaves like
   * the empty string, both being falsy.
   */
  function QualifiedClazz(clazz: string, namespace: Option<string>): (r: string)
    ensures namespace.None? || namespace.value == "" ==> r == clazz
    ensures namespace.Some? && namespace.value != "" && clazz != "" ==> r == namespace.value + Separator + clazz
    ensures namespace.Some? && namespace.value != "" && clazz == "" ==> r == namespace.value
  {
    var parts := [namespace.GetOr(""), clazz];
    assert parts[1..] == [clazz] && parts[1..][1..] == [];
    var kept := Filter(parts, NonEmpty);
    assert Filter([clazz], NonEmpty) == if NonEmpty(clazz) then [clazz] else [] by {
      assert [clazz][1..] == [];
    }
    assert kept == (if NonEmpty(parts[0]) then [parts[0]] else []) + Filter([clazz], NonEmpty);
    assert |kept| == 2 ==> Join(kept, Separator) == kept[0] + Separator + kept[1] by {
      if |kept| == 2 {
        assert kept[1..] == [kept[1]];
      }
    }
    Join(kept, Separator)
  }

  /** `generateId`. */
  function Id(qualifiedClazz: string, methodName: string): string
  {
    qualifiedClazz + "::" + methodName
  }

  /** Within one class the id determines the method: different methods get different ids. */
  lemma IdDeterminesMethod(qualifiedClazz: string, name1: string, name2: string)
    ensures Id(qualifiedClazz, name1) == Id(qualifiedClazz, name2) <==> name1 == name2
  {
    var p := qualifiedClazz + "::";
    if Id(qualifiedClazz, name1) == Id(qualifiedClazz, name2) {
      assert name1 == Id(qualifiedClazz, name1)[|p|..];
      assert name2 == Id(qualifiedClazz, name2)[|p|..];
    }
  }

  /**
   * When the qualified class names hold no colon (PHP names cannot), the id
   * determines both the qualified class and the method.
   */
  lemma IdInjective(q1: string, m1: string, q2: string, m2: string)
    requires ':' !in q1 && ':' !in q2
    ensures Id(q1, m1) == Id(q2, m2) <==> q1 == q2 && m1 == m2
  {
    var id1, id2 := Id(q1, m1), Id(q2, m2);
    if id1 == id2 {
      assert forall i :: 0 <= i < |q1| ==> id1[i] == q1[i];
      assert forall i :: 0 <= i < |q2| ==> id2[i] == q2[i];
      assert id1[|q1|] == ':' && id2[|q2|] == ':';
      assert q1 == id1[..|q1|];
      assert q2 == id2[..|q2|];
      IdDeterminesMethod(q1, m1, m2);
    }
  }

  /** Qualifying colon-free names yields a colon-free name, so `IdInjective` applies to every test id. */
  lemma QualifiedClazzHasNoColon(clazz: string, namespace: Option<string>)
    requires ':' !in clazz
    requires namespace.Some? ==> ':' !in namespace.value
    ensures ':' !in QualifiedClazz(clazz, namespace)
  {
  }
}
