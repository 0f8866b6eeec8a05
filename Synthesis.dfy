/**
 * What one pass of the generator does to one annotated class, stated on values:
 * the members of the abstract builder (a setter per field, an `addTo…` method
 * per collection field, and the three abstract root methods unless the parent
 * class gets builders too), the concrete builder, and the class with both
 * builders regenerated. `Processor` performs the same edits on the mutable
 * source model and is proved to produce exactly `Regenerate`.
 */
module Synthesis {
  import opened Wrappers
  import opened Strings
  import opened Formatter
  import opened Roaster
  import opened BuilderHelpers
  import JavaElements

  /** Every name the generator capitalises or decapitalises is non-empty, as Java
      identifiers are. */
  predicate WellNamed(c: ClassValue) {
    |c.name| > 0 && NamedFields(c.fields)
  }

  predicate NamedFields(fields: seq<Field>) {
    forall i :: 0 <= i < |fields| ==> |fields[i].name| > 0
  }

  /** No two nested types share a name, as Java requires of member types. */
  predicate DistinctNames(ts: seq<TypeValue>) {
    forall i, j :: 0 <= i < j < |ts| ==> ts[i].name != ts[j].name
  }

  /** The statement every generated builder method ends with. */
  const ReturnThisBuilder := "return getThisBuilder();"

  // ---------------------------------------------------------------------------
  // The supertype clause of the abstract builder

  /** Empty unless the superclass is itself annotated; then the abstract builder
      extends the parent's abstract builder, named after the parent's simple name. */
  function ExtendsClause(superclass: string, annotated: set<string>): string
  {
    if superclass in annotated then
      var parentSimpleName := ParentSimpleName(superclass);
      ExtendsParentFormatted(parentSimpleName);
      Format(ExtendsParentFormat, [parentSimpleName]).value
    else
      ""
  }

  /** The clause is empty exactly when the superclass is not annotated, and otherwise
      names the parent's abstract builder with the same type parameters. */
  lemma ExtendsClauseSpec(superclass: string, annotated: set<string>)
    ensures ExtendsClause(superclass, annotated) == "" <==> superclass !in annotated
    ensures superclass in annotated ==>
      ExtendsClause(superclass, annotated) == " extends " + AbstractBuilderName(ParentSimpleName(superclass)) + "<T, B>"
  {
    if superclass in annotated {
      ExtendsParentFormatted(ParentSimpleName(superclass));
    }
  }

  // ---------------------------------------------------------------------------
  // The abstract builder's methods

  /** The setter of field `f`: `public B f(T f)`, which sets the property on the
      object under construction and returns the builder. */
  function Setter(ls: string, f: Field): MethodSource
    requires |f.name| > 0
  {
    var setterName := "set" + Capitalize(f.name) + "(" + f.name + ")";
    var body := "getObj()." + setterName + ";" + ls + ReturnThisBuilder;
    MethodSource(Public, false, f.name, "B", [Parameter(f.fieldType.qualifiedNameWithGenerics, f.name)], Some(body), [])
  }

  /** A setter is a public, concrete, unannotated method named after the field, taking
      the field's type and returning the builder; its body calls the bean setter on
      the object under construction, then returns the builder. */
  lemma SetterShape(ls: string, f: Field)
    requires |f.name| > 0
    ensures var m := Setter(ls, f);
      m.visibility == Public && !m.isAbstract && m.annotations == [] &&
      m.name == f.name && m.returnType == "B" &&
      m.parameters == [Parameter(f.fieldType.qualifiedNameWithGenerics, f.name)] &&
      m.body == Some("getObj()." + JavaElements.Set(ls, f.name) + ReturnThisBuilder)
  {
    var setterName := "set" + Capitalize(f.name) + "(" + f.name + ")";
    assert Capitalize(f.name) == [UpperChar(f.name[0])] + f.name[1..];
    assert "getObj()." + setterName + ";" + ls + ReturnThisBuilder ==
      "getObj()." + JavaElements.Set(ls, f.name) + ReturnThisBuilder;
  }

  /** One setter per field, in field order. */
  function Setters(ls: string, fields: seq<Field>): (r: seq<MethodSource>)
    requires NamedFields(fields)
    ensures |r| == |fields|
  {
    if fields == [] then []
    else Setters(ls, fields[..|fields| - 1]) + [Setter(ls, fields[|fields| - 1])]
  }

  /** The `i`-th setter is the setter of the `i`-th field. */
  lemma {:induction false} SettersAt(ls: string, fields: seq<Field>)
    requires NamedFields(fields)
    ensures forall i :: 0 <= i < |fields| ==> Setters(ls, fields)[i] == Setter(ls, fields[i])
    decreases |fields|
  {
    if fields != [] {
      var init := fields[..|fields| - 1];
      SettersAt(ls, init);
      assert forall i :: 0 <= i < |init| ==> init[i] == fields[i];
    }
  }

  /** The element adder of collection field `f`: `public B addToF(E fElement)`, which
      adds to the collection returned by the object's getter. */
  function AddTo(ls: string, f: Field): MethodSource
    requires |f.name| > 0
  {
    var body := "getObj().get" + Capitalize(f.name) + "().add(" + f.name + "Element" + ");" + ls + ReturnThisBuilder;
    MethodSource(Public, false, "addTo" + Capitalize(f.name), "B", [Parameter(ElementType(f.fieldType), f.name + "Element")],
      Some(body), [])
  }

  /** An element adder is a public, concrete, unannotated method `addTo` + the
      capitalised field name, taking one element of the collection's element type and
      returning the builder; its body adds the element to the collection returned by
      the getter, then returns the builder. */
  lemma AddToShape(ls: string, f: Field)
    requires |f.name| > 0
    ensures var m := AddTo(ls, f);
      m.visibility == Public && !m.isAbstract && m.annotations == [] &&
      m.name == "addTo" + JavaElements.Capitalize(f.name) && m.returnType == "B" &&
      m.parameters == [Parameter(ElementType(f.fieldType), f.name + "Element")] &&
      m.body == Some("getObj()." + JavaElements.Get(f.name) + "." + JavaElements.Add(f.name + "Element") + ls +
        ReturnThisBuilder)
  {
    CapitalizeAgrees(f.name);
    assert "getObj().get" + Capitalize(f.name) + "().add(" + f.name + "Element" + ");" + ls + ReturnThisBuilder ==
      "getObj()." + JavaElements.Get(f.name) + "." + JavaElements.Add(f.name + "Element") + ls + ReturnThisBuilder;
  }

  /** One element adder per collection field, in field order. */
  function AddTos(ls: string, classpath: map<string, bool>, fields: seq<Field>): (r: seq<MethodSource>)
    requires NamedFields(fields)
    ensures |r| <= |fields|
  {
    if fields == [] then []
    else
      var init, last := fields[..|fields| - 1], fields[|fields| - 1];
      var r0 := AddTos(ls, classpath, init);
      if IsCollection(classpath, last.fieldType) then r0 + [AddTo(ls, last)] else r0
  }

  /** Every collection field gets an element adder. */
  lemma {:induction false} AddTosForCollections(ls: string, classpath: map<string, bool>, fields: seq<Field>)
    requires NamedFields(fields)
    ensures forall i :: 0 <= i < |fields| && IsCollection(classpath, fields[i].fieldType) ==>
      AddTo(ls, fields[i]) in AddTos(ls, classpath, fields)
    decreases |fields|
  {
    if fields != [] {
      var init := fields[..|fields| - 1];
      AddTosForCollections(ls, classpath, init);
      assert forall i :: 0 <= i < |init| ==> init[i] == fields[i];
    }
  }

  /** Every element adder belongs to a collection field. */
  lemma {:induction false} AddTosOnlyCollections(ls: string, classpath: map<string, bool>, fields: seq<Field>)
    requires NamedFields(fields)
    ensures forall m :: m in AddTos(ls, classpath, fields) ==>
      exists i :: 0 <= i < |fields| && IsCollection(classpath, fields[i].fieldType) && m == AddTo(ls, fields[i])
  {
    if fields != [] {
      var init := fields[..|fields| - 1];
      AddTosOnlyCollections(ls, classpath, init);
      forall m | m in AddTos(ls, classpath, fields)
        ensures exists i :: 0 <= i < |fields| && IsCollection(classpath, fields[i].fieldType) && m == AddTo(ls, fields[i])
      {
        if m in AddTos(ls, classpath, init) {
          var i :| 0 <= i < |init| && IsCollection(classpath, init[i].fieldType) && m == AddTo(ls, init[i]);
          assert init[i] == fields[i];
        } else {
          assert m == AddTo(ls, fields[|fields| - 1]);
        }
      }
    }
  }

  /** `build`, `getThisBuilder` and `getObj`, abstract, in this order. */
  function RootMethods(): seq<MethodSource>
  {
    [MethodSource(Public, true, "build", "T", [], None, []),
     MethodSource(Public, true, "getThisBuilder", "B", [], None, []),
     MethodSource(Public, true, "getObj", "T", [], None, [])]
  }

  /** The root methods are three public abstract methods without parameters:
      `T build()`, `B getThisBuilder()` and `T getObj()`. */
  lemma RootMethodsShape()
    ensures var r := RootMethods();
      |r| == 3 && (forall m :: m in r ==> m.isAbstract && m.visibility == Public && m.parameters == []) &&
      [r[0].name, r[1].name, r[2].name] == ["build", "getThisBuilder", "getObj"] &&
      [r[0].returnType, r[1].returnType, r[2].returnType] == ["T", "B", "T"]
  {
  }

  /** The abstract builder of class `x` with supertype clause `ext`, complete. */
  function AbstractBuilder(ls: string, classpath: map<string, bool>, x: string, fields: seq<Field>, ext: string): TypeValue
    requires |x| > 0 && NamedFields(fields)
  {
    TypeValue(AbstractBuilderName(x), AbstractBuilderClassTemplate(x, ext), [],
      Setters(ls, fields) + AddTos(ls, classpath, fields) + (if ext == "" then RootMethods() else []))
  }

  /** The abstract builder is named and declared by its templates, has no fields, and
      its methods begin with one setter per field, in field order. */
  lemma AbstractBuilderShape(ls: string, classpath: map<string, bool>, x: string, fields: seq<Field>, ext: string)
    requires |x| > 0 && NamedFields(fields)
    ensures var t := AbstractBuilder(ls, classpath, x, fields, ext);
      t.name == AbstractBuilderName(x) && t.declaration == AbstractBuilderClassTemplate(x, ext) && t.fields == [] &&
      |t.methods| >= |fields| && t.methods[..|fields|] == Setters(ls, fields)
  {
    var ms := AbstractBuilder(ls, classpath, x, fields, ext).methods;
    assert ms == Setters(ls, fields) + (AddTos(ls, classpath, fields) + (if ext == "" then RootMethods() else []));
  }

  // ---------------------------------------------------------------------------
  // The concrete builder

  /** `build`, `getThisBuilder` and `getObj` of the concrete builder of class `x`,
      which keeps the object under construction in field `obj`. */
  function ConcreteMethods(x: string, obj: string): seq<MethodSource>
  {
    [MethodSource(Public, false, "build", x, [], Some("return " + obj + ";"), ["Override"]),
     MethodSource(Public, false, "getThisBuilder", ConcreteBuilderName(x), [], Some("return this;"), ["Override"]),
     MethodSource(Public, false, "getObj", x, [], Some("return " + obj + ";"), ["Override"])]
  }

  /** The concrete root methods are public, concrete, parameterless and `@Override`:
      `build` and `getObj` return the object under construction as `x`, and
      `getThisBuilder` returns the builder itself. */
  lemma ConcreteMethodsShape(x: string, obj: string)
    ensures var r := ConcreteMethods(x, obj);
      |r| == 3 &&
      (forall m :: m in r ==> !m.isAbstract && m.visibility == Public && m.parameters == [] && m.annotations == ["Override"]) &&
      [r[0].name, r[1].name, r[2].name] == ["build", "getThisBuilder", "getObj"] &&
      [r[0].returnType, r[1].returnType, r[2].returnType] == [x, ConcreteBuilderName(x), x] &&
      r[0].body == r[2].body == Some("return " + obj + ";") && r[1].body == Some("return this;")
  {
  }

  /** The concrete builder of class `x`: one private field holding a new `x`, and
      the three root methods implemented over it. */
  function ConcreteBuilder(x: string): TypeValue
    requires |x| > 0
  {
    var createdObjectAttributeName := Decapitalize(x);
    TypeValue(ConcreteBuilderName(x), ConcreteBuilderClassTemplate(x),
      [FieldDecl(Private, createdObjectAttributeName, x, "new " + x + "()")],
      ConcreteMethods(x, createdObjectAttributeName))
  }

  /** The concrete builder is named and declared by its templates; its one field is a
      private `x` named after the decapitalised class and initialised to a new `x`,
      and its methods are the concrete root methods over that field. */
  lemma ConcreteBuilderShape(x: string)
    requires |x| > 0
    ensures var t := ConcreteBuilder(x);
      t.name == ConcreteBuilderName(x) && t.declaration == ConcreteBuilderClassTemplate(x) &&
      t.fields == [FieldDecl(Private, Decapitalize(x), x, JavaElements.New(x))] &&
      t.methods == ConcreteMethods(x, Decapitalize(x))
  {
  }

  // ---------------------------------------------------------------------------
  // The whole pass

  /** `removeNestedType(getNestedType(n))` when `hasNestedType(n)`, nothing otherwise:
      the first nested type called `n` goes. */
  function RemoveNamed(ts: seq<TypeValue>, n: string): seq<TypeValue>
  {
    RemoveAt(ts, IndexOf(Names(ts), n))
  }

  /** Without a nested type called `n` nothing changes; otherwise exactly one goes. */
  lemma RemoveNamedLength(ts: seq<TypeValue>, n: string)
    ensures n !in Names(ts) ==> RemoveNamed(ts, n) == ts
    ensures n in Names(ts) ==> |RemoveNamed(ts, n)| == |ts| - 1
  {
  }

  /** `t` replaces the first nested type of the same name, and goes last. */
  function Replace(ts: seq<TypeValue>, t: TypeValue): seq<TypeValue>
  {
    RemoveNamed(ts, t.name) + [t]
  }

  /** Class `c` after the generator has regenerated both of its builders: first the
      abstract builder replaces its predecessor, then the concrete builder does. */
  function Regenerate(ls: string, classpath: map<string, bool>, c: ClassValue, superclass: string,
                      annotated: set<string>): (r: ClassValue)
    requires WellNamed(c)
  {
    var ab := AbstractBuilder(ls, classpath, c.name, c.fields, ExtendsClause(superclass, annotated));
    var cb := ConcreteBuilder(c.name);
    c.(nested := Replace(Replace(c.nested, ab), cb))
  }

  /** Whatever nested types the class had, the pass keeps its name and fields and
      ends its nested types with the new abstract builder followed by the new
      concrete builder. */
  lemma RegenerateEndsWithBuilders(ls: string, classpath: map<string, bool>, c: ClassValue, superclass: string,
                                   annotated: set<string>)
    requires WellNamed(c)
    ensures var r := Regenerate(ls, classpath, c, superclass, annotated);
      r.name == c.name && r.fields == c.fields && |r.nested| >= 2 &&
      r.nested[|r.nested| - 2] == AbstractBuilder(ls, classpath, c.name, c.fields, ExtendsClause(superclass, annotated)) &&
      r.nested[|r.nested| - 1] == ConcreteBuilder(c.name)
  {
    var ab := AbstractBuilder(ls, classpath, c.name, c.fields, ExtendsClause(superclass, annotated));
    BuilderNamesDiffer(c.name);
    ReplaceKeepsLast(Replace(c.nested, ab), ConcreteBuilder(c.name));
  }

  /** Replacing a nested type of another name keeps the last nested type just before
      the new one. */
  lemma ReplaceKeepsLast(ts: seq<TypeValue>, t: TypeValue)
    requires |ts| >= 1 && ts[|ts| - 1].name != t.name
    ensures |Replace(ts, t)| >= 2 && Replace(ts, t)[|Replace(ts, t)| - 2] == ts[|ts| - 1]
  {
    assert ts == ts[..|ts| - 1] + [ts[|ts| - 1]];
    RemoveLastKept(ts[..|ts| - 1], ts[|ts| - 1], t.name);
  }

  /** Removing a name the last element does not carry keeps the last element last. */
  lemma RemoveLastKept(ts: seq<TypeValue>, t: TypeValue, n: string)
    requires t.name != n
    ensures RemoveNamed(ts + [t], n) == RemoveNamed(ts, n) + [t]
  {
    var s := ts + [t];
    NamesAppend(ts, t);
    IndexOfAppend(Names(ts), t.name, n);
    var k := IndexOf(Names(ts), n);
    if k < |ts| {
      assert s[..k] == ts[..k];
      assert s[k + 1..] == ts[k + 1..] + [t];
    }
  }

  lemma NamesAppend(ts: seq<TypeValue>, t: TypeValue)
    ensures Names(ts + [t]) == Names(ts) + [t.name]
  {
    assert forall i :: 0 <= i < |ts| ==> (ts + [t])[i] == ts[i];
  }

  lemma IndexOfAppend(s: seq<string>, y: string, x: string)
    requires x != y
    ensures IndexOf(s + [y], x) == (if x in s then IndexOf(s, x) else |s| + 1)
  {
    var i := IndexOf(s, x);
    if i < |s| {
      assert (s + [y])[i] == x;
      assert forall j :: 0 <= j < i ==> (s + [y])[j] == s[j];
    } else {
      assert x !in s + [y];
    }
  }

  // ---------------------------------------------------------------------------
  // Properties of the abstract builder

  /** The only abstract methods of the abstract builder are the three root methods,
      and they are there exactly when the superclass is not annotated, in which case
      they come last. */
  lemma AbstractMethodsAreRoots(ls: string, classpath: map<string, bool>, c: ClassValue, superclass: string,
                                annotated: set<string>)
    requires WellNamed(c)
    ensures var ms := AbstractBuilder(ls, classpath, c.name, c.fields, ExtendsClause(superclass, annotated)).methods;
      (forall m :: m in ms && m.isAbstract ==> m in RootMethods()) &&
      ((exists m :: m in ms && m.isAbstract) <==> superclass !in annotated) &&
      (superclass !in annotated ==> |ms| >= 3 && ms[|ms| - 3..] == RootMethods())
  {
    var ext := ExtendsClause(superclass, annotated);
    var setters, adders := Setters(ls, c.fields), AddTos(ls, classpath, c.fields);
    var ms := AbstractBuilder(ls, classpath, c.name, c.fields, ext).methods;
    var roots := if ext == "" then RootMethods() else [];
    assert ms == setters + adders + roots;
    ExtendsClauseSpec(superclass, annotated);
    SettersAt(ls, c.fields);
    AddTosOnlyCollections(ls, classpath, c.fields);
    forall m: MethodSource | m in setters + adders ensures !m.isAbstract {
      if m in setters {
        var i :| 0 <= i < |setters| && setters[i] == m;
        SetterShape(ls, c.fields[i]);
      } else {
        var i :| 0 <= i < |c.fields| && IsCollection(classpath, c.fields[i].fieldType) && m == AddTo(ls, c.fields[i]);
        AddToShape(ls, c.fields[i]);
      }
    }
    RootMethodsShape();
    if superclass !in annotated {
      assert ms[|ms| - 3..] == RootMethods();
      assert RootMethods()[0] in ms && RootMethods()[0].isAbstract;
    }
  }

  /** With distinct field names, a field gets an element adder exactly when its type
      is a collection. */
  lemma AddToIffCollection(ls: string, classpath: map<string, bool>, fields: seq<Field>, i: nat)
    requires NamedFields(fields) && i < |fields|
    requires forall j, k :: 0 <= j < k < |fields| ==> fields[j].name != fields[k].name
    ensures AddTo(ls, fields[i]) in AddTos(ls, classpath, fields) <==> IsCollection(classpath, fields[i].fieldType)
  {
    if AddTo(ls, fields[i]) in AddTos(ls, classpath, fields) {
      AddTosOnlyCollections(ls, classpath, fields);
      var j :| 0 <= j < |fields| && IsCollection(classpath, fields[j].fieldType) && AddTo(ls, fields[i]) == AddTo(ls, fields[j]);
      assert AddTo(ls, fields[i]).parameters[0].name == AddTo(ls, fields[j]).parameters[0].name;
      SuffixCancel(fields[i].name, fields[j].name, "Element");
    }
  }

  /** The superclass's abstract builder is the supertype of this one: when the parent
      class `p` is annotated, this abstract builder's declaration extends `p`'s abstract
      builder by name. */
  lemma ExtendsParentBuilder(ls: string, classpath: map<string, bool>, c: ClassValue, p: ClassValue,
                             superclass: string, annotated: set<string>)
    requires WellNamed(c) && WellNamed(p)
    requires superclass in annotated && p.name == ParentSimpleName(superclass)
    ensures var ab := AbstractBuilder(ls, classpath, c.name, c.fields, ExtendsClause(superclass, annotated));
      ab.declaration == "public static abstract class " + ab.name + "<T extends " + c.name + ", B extends " + ab.name +
        "<T, B>>" + " extends " + AbstractBuilder(ls, classpath, p.name, p.fields, "").name + "<T, B>" + " { }"
  {
    ExtendsClauseSpec(superclass, annotated);
    AbstractTemplateFilled(c.name, ExtendsClause(superclass, annotated));
  }

  /** The concrete builder extends the abstract builder of the same class, with the
      class as `T` and itself as `B`. */
  lemma ConcreteExtendsAbstract(ls: string, classpath: map<string, bool>, c: ClassValue, ext: string)
    requires WellNamed(c)
    ensures var cb, ab := ConcreteBuilder(c.name), AbstractBuilder(ls, classpath, c.name, c.fields, ext);
      cb.declaration == "public static class " + cb.name + " extends " + ab.name + "<" + c.name + ", " + cb.name + "> { }"
  {
    ConcreteTemplateFilled(c.name);
  }

  // ---------------------------------------------------------------------------
  // Properties of the whole pass

  /** The nested types of `ts` whose names are not in `ns`, in order. */
  function Without(ts: seq<TypeValue>, ns: set<string>): (r: seq<TypeValue>)
    ensures |r| <= |ts|
    ensures forall t :: t in r <==> t in ts && t.name !in ns
  {
    if ts == [] then [] else (if ts[0].name in ns then [] else [ts[0]]) + Without(ts[1..], ns)
  }

  lemma {:induction false} WithoutAppend(a: seq<TypeValue>, b: seq<TypeValue>, ns: set<string>)
    ensures Without(a + b, ns) == Without(a, ns) + Without(b, ns)
    decreases |a|
  {
    if a != [] {
      assert (a + b)[0] == a[0] && (a + b)[1..] == a[1..] + b;
      WithoutAppend(a[1..], b, ns);
    } else {
      assert a + b == b;
    }
  }

  lemma {:induction false} WithoutNothing(ts: seq<TypeValue>, ns: set<string>)
    requires forall t :: t in ts ==> t.name !in ns
    ensures Without(ts, ns) == ts
    decreases |ts|
  {
    if ts != [] {
      assert ts[0] in ts;
      assert forall t :: t in ts[1..] ==> t in ts;
      WithoutNothing(ts[1..], ns);
    }
  }

  lemma {:induction false} WithoutTwice(ts: seq<TypeValue>, ns: set<string>, ms: set<string>)
    ensures Without(Without(ts, ns), ms) == Without(ts, ns + ms)
    decreases |ts|
  {
    if ts != [] {
      var head := if ts[0].name in ns then [] else [ts[0]];
      WithoutAppend(head, Without(ts[1..], ns), ms);
      WithoutTwice(ts[1..], ns, ms);
      if ts[0].name !in ns {
        assert Without(head, ms) == (if ts[0].name in ms then [] else [ts[0]]) + Without([], ms);
      }
    }
  }

  lemma {:induction false} WithoutDistinct(ts: seq<TypeValue>, ns: set<string>)
    requires DistinctNames(ts)
    ensures DistinctNames(Without(ts, ns))
    decreases |ts|
  {
    if ts != [] {
      DistinctTail(ts);
      WithoutDistinct(ts[1..], ns);
      var rest := Without(ts[1..], ns);
      if ts[0].name in ns {
        assert Without(ts, ns) == [] + rest == rest;
      } else {
        forall u | u in rest ensures u.name != ts[0].name {
          assert u in ts[1..];
        }
        DistinctCons(ts[0], rest);
      }
    }
  }

  /** A nested type whose name no other has can go in front. */
  lemma DistinctCons(t: TypeValue, rest: seq<TypeValue>)
    requires DistinctNames(rest) && forall u :: u in rest ==> u.name != t.name
    ensures DistinctNames([t] + rest)
  {
    var r := [t] + rest;
    forall i, j | 0 <= i < j < |r| ensures r[i].name != r[j].name {
      assert r[j] == rest[j - 1] && r[j] in rest;
      if i > 0 {
        assert r[i] == rest[i - 1];
      }
    }
  }

  lemma DistinctTail(ts: seq<TypeValue>)
    requires ts != [] && DistinctNames(ts)
    ensures DistinctNames(ts[1..])
    ensures forall t :: t in ts[1..] ==> t.name != ts[0].name
  {
    forall i, j | 0 <= i < j < |ts[1..]| ensures ts[1..][i].name != ts[1..][j].name {
      assert ts[1..][i] == ts[i + 1] && ts[1..][j] == ts[j + 1];
    }
    forall t | t in ts[1..] ensures t.name != ts[0].name {
      var j :| 0 <= j < |ts[1..]| && ts[1..][j] == t;
      assert ts[j + 1] == t;
    }
  }

  /** `RemoveNamed` unfolded at the head of the sequence. */
  lemma RemoveNamedCons(ts: seq<TypeValue>, n: string)
    requires ts != []
    ensures RemoveNamed(ts, n) == if ts[0].name == n then ts[1..] else [ts[0]] + RemoveNamed(ts[1..], n)
  {
    var names := Names(ts);
    assert names[0] == ts[0].name;
    NamesTail(ts);
    if ts[0].name != n {
      assert IndexOf(names, n) == 1 + IndexOf(names[1..], n);
      RemoveAtCons(ts, IndexOf(names, n));
    }
  }

  lemma NamesTail(ts: seq<TypeValue>)
    requires ts != []
    ensures Names(ts[1..]) == Names(ts)[1..]
  {
  }

  /** Removing at a later position keeps the head. */
  lemma RemoveAtCons<T>(s: seq<T>, i: nat)
    requires 0 < i <= |s|
    ensures RemoveAt(s, i) == [s[0]] + RemoveAt(s[1..], i - 1)
  {
    if i < |s| {
      assert s[..i] == [s[0]] + s[1..][..i - 1];
      assert s[i + 1..] == s[1..][i..];
    }
  }

  /** With distinct names, removing the first nested type called `n` removes every one. */
  lemma {:induction false} RemoveNamedDistinct(ts: seq<TypeValue>, n: string)
    requires DistinctNames(ts)
    ensures RemoveNamed(ts, n) == Without(ts, {n})
    decreases |ts|
  {
    if ts != [] {
      RemoveNamedCons(ts, n);
      DistinctTail(ts);
      if ts[0].name == n {
        WithoutNothing(ts[1..], {n});
      } else {
        RemoveNamedDistinct(ts[1..], n);
      }
    }
  }

  /** The names of both builders of class `x`. */
  function BuilderNames(x: string): (r: set<string>)
    ensures AbstractBuilderName(x) in r && ConcreteBuilderName(x) in r && |r| == 2
  {
    BuilderNamesDiffer(x);
    {AbstractBuilderName(x), ConcreteBuilderName(x)}
  }

  /** With distinct names, a replacement drops every nested type of the same name. */
  lemma ReplaceDistinct(ts: seq<TypeValue>, t: TypeValue)
    requires DistinctNames(ts)
    ensures Replace(ts, t) == Without(ts, {t.name}) + [t]
  {
    RemoveNamedDistinct(ts, t.name);
  }

  lemma AppendTwo(w: seq<TypeValue>, a: TypeValue, b: TypeValue)
    ensures w + [a] + [b] == w + [a, b]
  {
  }

  /** With distinct names, two replacements by different names drop every nested type
      of either name and append the two replacements in order. */
  lemma ReplaceTwice(ts: seq<TypeValue>, a: TypeValue, b: TypeValue)
    requires DistinctNames(ts) && a.name != b.name
    ensures Replace(Replace(ts, a), b) == Without(ts, {a.name, b.name}) + [a, b]
  {
    var w1 := Without(ts, {a.name});
    var w2 := Without(w1, {b.name});
    ReplaceDistinct(ts, a);
    WithoutDistinct(ts, {a.name});
    RemoveLastKept(w1, a, b.name);
    RemoveNamedDistinct(w1, b.name);
    assert Replace(w1 + [a], b) == w2 + [a] + [b];
    WithoutTwice(ts, {a.name}, {b.name});
    assert {a.name} + {b.name} == {a.name, b.name};
    AppendTwo(w2, a, b);
  }

  /** Appending two nested types with new, different names keeps names distinct. */
  lemma AppendDistinct(w: seq<TypeValue>, a: TypeValue, b: TypeValue)
    requires DistinctNames(w) && a.name != b.name
    requires forall t :: t in w ==> t.name != a.name && t.name != b.name
    ensures DistinctNames(w + [a, b])
  {
    var r := w + [a, b];
    forall i, j | 0 <= i < j < |r| ensures r[i].name != r[j].name {
      if j < |w| {
        assert r[i] == w[i] && r[j] == w[j];
      } else if i < |w| {
        assert r[i] == w[i] && r[i] in w;
      }
    }
  }

  /** With distinct nested names, the pass keeps every other nested type in its order,
      drops the old builders, and appends the new abstract and concrete builders. */
  lemma RegenerateShape(ls: string, classpath: map<string, bool>, c: ClassValue, superclass: string,
                        annotated: set<string>)
    requires WellNamed(c) && DistinctNames(c.nested)
    ensures Regenerate(ls, classpath, c, superclass, annotated).nested ==
      Without(c.nested, BuilderNames(c.name)) +
      [AbstractBuilder(ls, classpath, c.name, c.fields, ExtendsClause(superclass, annotated)), ConcreteBuilder(c.name)]
  {
    BuilderNamesDiffer(c.name);
    ReplaceTwice(c.nested, AbstractBuilder(ls, classpath, c.name, c.fields, ExtendsClause(superclass, annotated)),
      ConcreteBuilder(c.name));
  }

  /** With distinct nested names, the regenerated class has distinct nested names
      again, so exactly one of its nested types is called after each builder. */
  lemma RegenerateDistinct(ls: string, classpath: map<string, bool>, c: ClassValue, superclass: string,
                           annotated: set<string>)
    requires WellNamed(c) && DistinctNames(c.nested)
    ensures DistinctNames(Regenerate(ls, classpath, c, superclass, annotated).nested)
  {
    RegenerateShape(ls, classpath, c, superclass, annotated);
    WithoutDistinct(c.nested, BuilderNames(c.name));
    BuilderNamesDiffer(c.name);
    AppendDistinct(Without(c.nested, BuilderNames(c.name)),
      AbstractBuilder(ls, classpath, c.name, c.fields, ExtendsClause(superclass, annotated)), ConcreteBuilder(c.name));
  }

  /** Filtering again after appending builders that are filtered out gives back the
      filtered sequence. */
  lemma WithoutAppended(ts: seq<TypeValue>, ns: set<string>, ab: TypeValue, cb: TypeValue)
    requires ab.name in ns && cb.name in ns
    ensures Without(Without(ts, ns) + [ab, cb], ns) == Without(ts, ns)
  {
    WithoutAppend(Without(ts, ns), [ab, cb], ns);
    WithoutTwice(ts, ns, ns);
    assert ns + ns == ns;
    assert [ab, cb][1..] == [cb] && [cb][1..] == [];
  }

  /** Running the pass again changes nothing: the regenerated builders replace the
      ones from the previous run. */
  lemma RegenerateIdempotent(ls: string, classpath: map<string, bool>, c: ClassValue, superclass: string,
                             annotated: set<string>)
    requires WellNamed(c) && DistinctNames(c.nested)
    ensures var once := Regenerate(ls, classpath, c, superclass, annotated);
      WellNamed(once) && Regenerate(ls, classpath, once, superclass, annotated) == once
  {
    var once := Regenerate(ls, classpath, c, superclass, annotated);
    var ns := BuilderNames(c.name);
    var ab := AbstractBuilder(ls, classpath, c.name, c.fields, ExtendsClause(superclass, annotated));
    var cb := ConcreteBuilder(c.name);
    RegenerateShape(ls, classpath, c, superclass, annotated);
    RegenerateDistinct(ls, classpath, c, superclass, annotated);
    RegenerateShape(ls, classpath, once, superclass, annotated);
    WithoutAppended(c.nested, ns, ab, cb);
    var twice := Regenerate(ls, classpath, once, superclass, annotated);
    assert twice.nested == once.nested;
  }

  /** Builders left over from an earlier run do not influence the result: two versions
      of a class that differ only in those nested types are regenerated alike. */
  lemma RegenerateIgnoresOldBuilders(ls: string, classpath: map<string, bool>, c: ClassValue, d: ClassValue,
                                     superclass: string, annotated: set<string>)
    requires WellNamed(c) && DistinctNames(c.nested) && DistinctNames(d.nested)
    requires d.name == c.name && d.fields == c.fields
    requires Without(d.nested, BuilderNames(c.name)) == Without(c.nested, BuilderNames(c.name))
    ensures Regenerate(ls, classpath, d, superclass, annotated) == Regenerate(ls, classpath, c, superclass, annotated)
  {
    RegenerateShape(ls, classpath, c, superclass, annotated);
    RegenerateShape(ls, classpath, d, superclass, annotated);
  }
}
