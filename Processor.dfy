/**
 * The annotation processor: in every round in which it still considers itself in
 * its first round, it parses the source file of every class annotated with
 * `@GenerateBuilder`, regenerates the class's two builders by editing the parsed
 * source in place, and writes the result back. The file system and the compiler's
 * messages are outside the model: a file arrives as its parsed contents, or as
 * nothing when reading it failed, and what would be written is returned.
 */
module Processor {
  import opened Wrappers
  import opened Formatter
  import opened Roaster
  import opened BuilderHelpers
  import opened Synthesis

  /** An element of the round annotated with `@GenerateBuilder`: its qualified name,
      its superclass as the compiler prints it, and the contents of its source file
      (`None` when reading the file failed with an `IOException`). */
  datatype Element = Element(qualifiedName: string, superclass: string, source: Option<ClassValue>)

  /** The qualified names of all annotated elements of the round: every element's
      name, and nothing else. */
  function AnnotatedNames(elements: seq<Element>): (r: set<string>)
    ensures forall i :: 0 <= i < |elements| ==> elements[i].qualifiedName in r
    ensures forall n :: n in r ==> exists i :: 0 <= i < |elements| && elements[i].qualifiedName == n
  {
    set i | 0 <= i < |elements| :: elements[i].qualifiedName
  }

  /** The elements of the next round: every file that was written is read back as
      written, the others as before. */
  function Reread(elements: seq<Element>, written: seq<Option<ClassValue>>): (r: seq<Element>)
    requires |written| == |elements|
    ensures |r| == |elements|
    ensures forall i :: 0 <= i < |r| ==>
      r[i].qualifiedName == elements[i].qualifiedName && r[i].superclass == elements[i].superclass
    ensures forall i :: 0 <= i < |r| ==> r[i].source == if written[i].Some? then written[i] else elements[i].source
  {
    seq(|elements|, i requires 0 <= i < |elements| =>
      if written[i].Some? then elements[i].(source := written[i]) else elements[i])
  }

  /** Every readable file holds a class with non-empty names and distinct nested names. */
  predicate WellFormedRound(elements: seq<Element>) {
    forall i :: 0 <= i < |elements| && elements[i].source.Some? ==>
      WellNamed(elements[i].source.value) && DistinctNames(elements[i].source.value.nested)
  }

  class BuilderGeneratorProcessor {
    var firstRound: bool
    /** `System.lineSeparator()`. */
    const lineSeparator: string
    /** What `Class.forName` and `Collection.class.isAssignableFrom` report, by class name. */
    const classpath: map<string, bool>

    constructor (lineSeparator: string, classpath: map<string, bool>)
      ensures firstRound
      ensures this.lineSeparator == lineSeparator && this.classpath == classpath
    {
      firstRound := true;
      this.lineSeparator := lineSeparator;
      this.classpath := classpath;
    }

    /** The body of the loop of `process` for one parsed class: both builders are
        removed if present and generated anew, member by member. */
    method Generate(javaClass: JavaClass, superclass: string, annotatedClasses: set<string>)
      requires WellNamed(javaClass.Value())
      modifies javaClass
      ensures javaClass.Value() ==
        Regenerate(lineSeparator, classpath, old(javaClass.Value()), superclass, annotatedClasses)
    {
      GenerateAbstractBuilder(javaClass, superclass, annotatedClasses);
      GenerateConcreteBuilder(javaClass);
    }

    /** The abstract builder replaces any previous one. */
    method GenerateAbstractBuilder(javaClass: JavaClass, superclass: string, annotatedClasses: set<string>)
      requires WellNamed(javaClass.Value())
      modifies javaClass
      ensures Values(javaClass.nested) == Replace(old(Values(javaClass.nested)),
        AbstractBuilder(lineSeparator, classpath, javaClass.name, javaClass.fields,
          ExtendsClause(superclass, annotatedClasses)))
    {
      var name := javaClass.name;
      var abstractName := AbstractBuilderName(name);
      RemovePrevious(javaClass, abstractName);

      var extendsAnnotatedClass := "";
      if superclass in annotatedClasses {
        var parentClassSimpleName := ParentSimpleName(superclass);
        ExtendsParentFormatted(parentClassSimpleName);
        extendsAnnotatedClass := Format(ExtendsParentFormat, [parentClassSimpleName]).value;
      }
      assert extendsAnnotatedClass == ExtendsClause(superclass, annotatedClasses);

      AddAbstractBuilder(javaClass, extendsAnnotatedClass);
    }

    /** A new abstract builder, filled member by member, goes last. */
    method AddAbstractBuilder(javaClass: JavaClass, extendsAnnotatedClass: string)
      requires WellNamed(javaClass.Value())
      modifies javaClass
      ensures Values(javaClass.nested) == old(Values(javaClass.nested)) +
        [AbstractBuilder(lineSeparator, classpath, javaClass.name, javaClass.fields, extendsAnnotatedClass)]
    {
      var name := javaClass.name;
      ghost var n1 := javaClass.nested;
      ghost var v1 := Values(n1);
      var abstractBuilder := javaClass.AddNestedType(AbstractBuilderName(name),
        AbstractBuilderClassTemplate(name, extendsAnnotatedClass));
      assert abstractBuilder !in n1;
      AddAbstractBuilderMethods(abstractBuilder, javaClass.fields, extendsAnnotatedClass);
      assert abstractBuilder.Value() ==
        AbstractBuilder(lineSeparator, classpath, name, javaClass.fields, extendsAnnotatedClass);
      assert javaClass.nested == n1 + [abstractBuilder];
      assert Values(n1) == v1;
      ValuesAppend(n1, abstractBuilder);
    }

    /** The setters, then the element adders, then (without an annotated parent) the
        root methods. */
    method AddAbstractBuilderMethods(abstractBuilder: NestedType, fields: seq<Field>, extendsAnnotatedClass: string)
      requires NamedFields(fields) && abstractBuilder.methods == []
      modifies abstractBuilder
      ensures abstractBuilder.fields == old(abstractBuilder.fields)
      ensures abstractBuilder.methods == Setters(lineSeparator, fields) + AddTos(lineSeparator, classpath, fields) +
        (if extendsAnnotatedClass == "" then RootMethods() else [])
    {
      ghost var setters, adders := Setters(lineSeparator, fields), AddTos(lineSeparator, classpath, fields);
      AddSetters(abstractBuilder, fields);
      assert abstractBuilder.methods == setters;
      AddElementAdders(abstractBuilder, fields);
      if extendsAnnotatedClass == "" {
        AddRootMethods(abstractBuilder);
      } else {
        assert setters + adders + [] == setters + adders;
      }
    }

    /** A setter for each field, in field order. */
    method AddSetters(abstractBuilder: NestedType, fields: seq<Field>)
      requires NamedFields(fields)
      modifies abstractBuilder
      ensures abstractBuilder.fields == old(abstractBuilder.fields)
      ensures abstractBuilder.methods == old(abstractBuilder.methods) + Setters(lineSeparator, fields)
    {
      var i := 0;
      while i < |fields|
        invariant 0 <= i <= |fields|
        invariant abstractBuilder.fields == old(abstractBuilder.fields)
        invariant abstractBuilder.methods == old(abstractBuilder.methods) + Setters(lineSeparator, fields[..i])
      {
        abstractBuilder.AddMethod(Setter(lineSeparator, fields[i]));
        assert fields[..i + 1][..i] == fields[..i];
        i := i + 1;
      }
      assert fields[..|fields|] == fields;
    }

    /** An element adder for each collection field, in field order. */
    method AddElementAdders(abstractBuilder: NestedType, fields: seq<Field>)
      requires NamedFields(fields)
      modifies abstractBuilder
      ensures abstractBuilder.fields == old(abstractBuilder.fields)
      ensures abstractBuilder.methods == old(abstractBuilder.methods) + AddTos(lineSeparator, classpath, fields)
    {
      var i := 0;
      while i < |fields|
        invariant 0 <= i <= |fields|
        invariant abstractBuilder.fields == old(abstractBuilder.fields)
        invariant abstractBuilder.methods == old(abstractBuilder.methods) + AddTos(lineSeparator, classpath, fields[..i])
      {
        var attribute := fields[i];
        assert fields[..i + 1][..i] == fields[..i];
        if IsCollection(classpath, attribute.fieldType) {
          abstractBuilder.AddMethod(AddTo(lineSeparator, attribute));
        }
        i := i + 1;
      }
      assert fields[..|fields|] == fields;
    }

    /** `build`, `getThisBuilder` and `getObj`, abstract. */
    method AddRootMethods(abstractBuilder: NestedType)
      modifies abstractBuilder
      ensures abstractBuilder.fields == old(abstractBuilder.fields)
      ensures abstractBuilder.methods == old(abstractBuilder.methods) + RootMethods()
    {
      var roots := RootMethods();
      abstractBuilder.AddMethod(roots[0]);
      abstractBuilder.AddMethod(roots[1]);
      abstractBuilder.AddMethod(roots[2]);
      assert roots == [roots[0], roots[1], roots[2]];
    }

    /** The concrete builder replaces any previous one. */
    method GenerateConcreteBuilder(javaClass: JavaClass)
      requires |javaClass.name| > 0
      modifies javaClass
      ensures Values(javaClass.nested) == Replace(old(Values(javaClass.nested)), ConcreteBuilder(javaClass.name))
    {
      var name := javaClass.name;
      var concreteBuilderName := ConcreteBuilderName(name);
      RemovePrevious(javaClass, concreteBuilderName);
      AddConcreteBuilder(javaClass);
    }

    /** A new concrete builder, filled member by member, goes last. */
    static method AddConcreteBuilder(javaClass: JavaClass)
      requires |javaClass.name| > 0
      modifies javaClass
      ensures Values(javaClass.nested) == old(Values(javaClass.nested)) + [ConcreteBuilder(javaClass.name)]
    {
      var name := javaClass.name;
      ghost var n2 := javaClass.nested;
      ghost var v2 := Values(n2);
      var concreteBuilder := javaClass.AddNestedType(ConcreteBuilderName(name), ConcreteBuilderClassTemplate(name));
      assert concreteBuilder !in n2;
      FillConcreteBuilder(concreteBuilder, name);
      assert javaClass.nested == n2 + [concreteBuilder];
      assert Values(n2) == v2;
      ValuesAppend(n2, concreteBuilder);
    }

    /** The field holding the object under construction, then the root methods
        implemented over it. */
    static method FillConcreteBuilder(concreteBuilder: NestedType, name: string)
      requires |name| > 0
      requires concreteBuilder.Value() == TypeValue(ConcreteBuilderName(name), ConcreteBuilderClassTemplate(name), [], [])
      modifies concreteBuilder
      ensures concreteBuilder.Value() == ConcreteBuilder(name)
    {
      var createdObjectAttributeName := Decapitalize(name);
      concreteBuilder.AddField(FieldDecl(Private, createdObjectAttributeName, name, "new " + name + "()"));
      var methods := ConcreteMethods(name, createdObjectAttributeName);
      concreteBuilder.AddMethod(methods[0]);
      concreteBuilder.AddMethod(methods[1]);
      concreteBuilder.AddMethod(methods[2]);
      assert methods == [methods[0], methods[1], methods[2]];
    }

    /** `if (hasNestedType(n)) removeNestedType(getNestedType(n))`. */
    static method RemovePrevious(javaClass: JavaClass, n: string)
      modifies javaClass
      ensures Values(javaClass.nested) == RemoveNamed(old(Values(javaClass.nested)), n)
      ensures forall t :: t in javaClass.nested ==> t in old(javaClass.nested)
    {
      ghost var ns := javaClass.nested;
      ghost var vs := Values(ns);
      ValuesAt(ns);
      assert Names(vs) == NestedNames(ns);
      if javaClass.HasNestedType(n) {
        var t := javaClass.GetNestedType(n);
        ghost var k := IndexOf(ns, t);
        assert k == IndexOf(Names(vs), n);
        javaClass.RemoveNestedType(t);
        assert Values(ns) == vs;
        ValuesRemoveAt(ns, k);
      }
    }

    /** What the first round writes back to the file of element `e`: the class with
        its builders regenerated, or nothing when the file could not be read. */
    function Rewritten(e: Element, annotatedClasses: set<string>): Option<ClassValue>
      requires e.source.Some? ==> WellNamed(e.source.value)
    {
      if e.source.Some? then Some(Regenerate(lineSeparator, classpath, e.source.value, e.superclass, annotatedClasses))
      else None
    }

    /** What the first round writes back to the files of `elements`, in order. */
    function Rewrites(elements: seq<Element>, annotatedClasses: set<string>): seq<Option<ClassValue>>
      requires forall i :: 0 <= i < |elements| && elements[i].source.Some? ==> WellNamed(elements[i].source.value)
    {
      if elements == [] then []
      else
        var last := |elements| - 1;
        Rewrites(elements[..last], annotatedClasses) + [Rewritten(elements[last], annotatedClasses)]
    }

    /** The file of every element is rewritten on its own: entry `i` depends on
        element `i` alone. */
    lemma {:induction false} RewritesAt(elements: seq<Element>, annotatedClasses: set<string>)
      requires forall i :: 0 <= i < |elements| && elements[i].source.Some? ==> WellNamed(elements[i].source.value)
      ensures |Rewrites(elements, annotatedClasses)| == |elements|
      ensures forall i :: 0 <= i < |elements| ==> Rewrites(elements, annotatedClasses)[i] == Rewritten(elements[i], annotatedClasses)
      decreases |elements|
    {
      if elements != [] {
        var init := elements[..|elements| - 1];
        RewritesAt(init, annotatedClasses);
        forall i | 0 <= i < |init|
          ensures Rewrites(elements, annotatedClasses)[i] == Rewritten(elements[i], annotatedClasses)
        {
          assert init[i] == elements[i];
        }
      }
    }

    /** One file read back as it was written is regenerated to the same contents. */
    lemma RewrittenStable(e: Element, annotatedClasses: set<string>)
      requires e.source.Some? ==> WellNamed(e.source.value) && DistinctNames(e.source.value.nested)
      ensures var w := Rewritten(e, annotatedClasses);
        var reread := if w.Some? then e.(source := w) else e;
        (reread.source.Some? ==> WellNamed(reread.source.value) && DistinctNames(reread.source.value.nested)) &&
        Rewritten(reread, annotatedClasses) == w
    {
      if e.source.Some? {
        var c := e.source.value;
        RegenerateIdempotent(lineSeparator, classpath, c, e.superclass, annotatedClasses);
        RegenerateDistinct(lineSeparator, classpath, c, e.superclass, annotatedClasses);
      }
    }

    /** Since every round regenerates, the next round reads back what this one wrote
        and writes exactly the same again: repeated rounds are harmless. */
    lemma RoundsStable(elements: seq<Element>)
      requires WellFormedRound(elements)
      ensures |Rewrites(elements, AnnotatedNames(elements))| == |elements|
      ensures var annotated := AnnotatedNames(elements);
        var w := Rewrites(elements, annotated);
        var next := Reread(elements, w);
        WellFormedRound(next) && AnnotatedNames(next) == annotated && Rewrites(next, annotated) == w
    {
      var annotated := AnnotatedNames(elements);
      RewritesAt(elements, annotated);
      var w := Rewrites(elements, annotated);
      var next := Reread(elements, w);
      forall i | 0 <= i < |next|
        ensures next[i].source.Some? ==> WellNamed(next[i].source.value) && DistinctNames(next[i].source.value.nested)
      {
        RewrittenStable(elements[i], annotated);
      }
      assert AnnotatedNames(next) == annotated;
      RewritesAt(next, annotated);
      forall i | 0 <= i < |next| ensures Rewrites(next, annotated)[i] == w[i] {
        RewrittenStable(elements[i], annotated);
      }
    }

    /** The body of the loop of `process` for one element: parse its file, regenerate
        both builders in the parsed source, and give back what is written. */
    method RewriteFile(e: Element, annotatedClasses: set<string>) returns (entry: Option<ClassValue>)
      requires e.source.Some? ==> WellNamed(e.source.value)
      ensures entry == Rewritten(e, annotatedClasses)
    {
      entry := None;
      if e.source.Some? {
        var javaClass := Parse(e.source.value);
        Generate(javaClass, e.superclass, annotatedClasses);
        entry := Some(javaClass.Value());
      }
    }

    /** `process`: claims the annotation; in what it considers its first round it
        regenerates the builders of every annotated class whose file could be read,
        finding annotated parents among the names of all annotated elements, and
        returns what it writes back to each file (`None`: the file is not written).
        The flag is cleared only in a round that is already not the first, so it
        never is: every round regenerates. */
    method Process(elements: seq<Element>) returns (claimed: bool, written: seq<Option<ClassValue>>)
      requires forall i :: 0 <= i < |elements| && elements[i].source.Some? ==> WellNamed(elements[i].source.value)
      modifies this
      ensures claimed
      ensures firstRound == old(firstRound)
      ensures written == if old(firstRound) then Rewrites(elements, AnnotatedNames(elements)) else seq(|elements|, i => None)
    {
      written := [];
      if firstRound {
        var annotatedClasses := AnnotatedNames(elements);
        var k := 0;
        while k < |elements|
          invariant 0 <= k <= |elements|
          invariant firstRound == old(firstRound)
          invariant written == Rewrites(elements[..k], annotatedClasses)
        {
          var entry := RewriteFile(elements[k], annotatedClasses);
          written := written + [entry];
          assert elements[..k + 1][..k] == elements[..k];
          k := k + 1;
        }
        assert elements[..|elements|] == elements;
      } else {
        written := seq(|elements|, i => None);
        firstRound := false;
      }
      claimed := true;
    }
  }
}
