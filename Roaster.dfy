/**
 * The editable source model the generator works on: a parsed top-level class
 * (`JavaClass`) whose list of nested types is edited in place, and the nested
 * types (`NestedType`) to which methods and fields are added after they have been
 * inserted. Parsing source text, and rendering the model back to text, are not
 * part of this model; a class arrives already parsed.
 *
 * Every mutable object has a value snapshot (`Value()`), in terms of which the
 * generator's effect is specified.
 */
module Roaster {
  import opened Wrappers

  /** A resolved field type: `getQualifiedName()`, `getQualifiedNameWithGenerics()`,
      `getSimpleName()` and `getTypeArguments()`. */
  datatype JavaType = JavaType(
    qualifiedName: string,
    qualifiedNameWithGenerics: string,
    simpleName: string,
    typeArguments: seq<JavaType>)

  /** A field declared by the parsed class. */
  datatype Field = Field(name: string, fieldType: JavaType)

  datatype Visibility = Public | Private

  datatype Parameter = Parameter(paramType: string, name: string)

  /** A method as built by `addMethod()`; an abstract method has no body. */
  datatype MethodSource = MethodSource(
    visibility: Visibility,
    isAbstract: bool,
    name: string,
    returnType: string,
    parameters: seq<Parameter>,
    body: Option<string>,
    annotations: seq<string>)

  /** A field as built by `addField()`, with its literal initializer. */
  datatype FieldDecl = FieldDecl(visibility: Visibility, name: string, typeName: string, initializer: string)

  /** The contents of a nested type: its name, the declaration text it was created
      from, and the fields and methods added to it since, in order. */
  datatype TypeValue = TypeValue(name: string, declaration: string, fields: seq<FieldDecl>, methods: seq<MethodSource>)

  /** The contents of a parsed class as far as the generator reads or edits it. */
  datatype ClassValue = ClassValue(name: string, fields: seq<Field>, nested: seq<TypeValue>)

  function Names(ts: seq<TypeValue>): (r: seq<string>)
    ensures |r| == |ts| && forall i :: 0 <= i < |ts| ==> r[i] == ts[i].name
  {
    seq(|ts|, i requires 0 <= i < |ts| => ts[i].name)
  }

  /** The first position of `x` in `s`, or `|s|` when `x` does not occur. */
  function IndexOf<T(==)>(s: seq<T>, x: T): (i: nat)
    ensures i <= |s|
    ensures i == |s| <==> x !in s
    ensures i < |s| ==> s[i] == x
    ensures forall j :: 0 <= j < i ==> s[j] != x
  {
    if s == [] then 0
    else if s[0] == x then 0
    else 1 + IndexOf(s[1..], x)
  }

  /** `s` without its element at `i`; `s` itself when `i == |s|`. */
  function RemoveAt<T>(s: seq<T>, i: nat): (r: seq<T>)
    requires i <= |s|
    ensures i < |s| ==> |r| == |s| - 1
    ensures i == |s| ==> r == s
    ensures forall j :: 0 <= j < i ==> r[j] == s[j]
    ensures forall j :: i <= j < |r| ==> r[j] == s[j + 1]
    ensures forall x :: x in r ==> x in s
  {
    if i == |s| then s else s[..i] + s[i + 1..]
  }

  class NestedType {
    const name: string
    const declaration: string
    var fields: seq<FieldDecl>
    var methods: seq<MethodSource>

    constructor (name: string, declaration: string)
      ensures Value() == TypeValue(name, declaration, [], [])
    {
      this.name := name;
      this.declaration := declaration;
      fields := [];
      methods := [];
    }

    /** A nested type as read from a source file. */
    constructor Of(v: TypeValue)
      ensures Value() == v
    {
      name := v.name;
      declaration := v.declaration;
      fields := v.fields;
      methods := v.methods;
    }

    function Value(): TypeValue
      reads this
    {
      TypeValue(name, declaration, fields, methods)
    }

    /** `addMethod()` followed by its setters: the method goes last. */
    method AddMethod(m: MethodSource)
      modifies this
      ensures fields == old(fields) && methods == old(methods) + [m]
    {
      methods := methods + [m];
    }

    /** `addField()` followed by its setters: the field goes last. */
    method AddField(f: FieldDecl)
      modifies this
      ensures fields == old(fields) + [f] && methods == old(methods)
    {
      fields := fields + [f];
    }
  }

  function NestedNames(ns: seq<NestedType>): (r: seq<string>)
    ensures |r| == |ns| && forall i :: 0 <= i < |ns| ==> r[i] == ns[i].name
  {
    seq(|ns|, i requires 0 <= i < |ns| => ns[i].name)
  }

  /** The snapshots of a sequence of nested types, in order. */
  function Values(ns: seq<NestedType>): (r: seq<TypeValue>)
    reads ns
    ensures |r| == |ns|
  {
    if ns == [] then [] else [ns[0].Value()] + Values(ns[1..])
  }

  /** The snapshot at position `i` is that of the object at position `i`, so the
      snapshots carry the objects' names. */
  lemma {:induction false} ValuesAt(ns: seq<NestedType>)
    ensures forall i :: 0 <= i < |ns| ==> Values(ns)[i] == ns[i].Value()
    ensures Names(Values(ns)) == NestedNames(ns)
    decreases |ns|
  {
    if ns != [] {
      ValuesAt(ns[1..]);
      forall i | 0 <= i < |ns| ensures Values(ns)[i] == ns[i].Value() {
        if i > 0 {
          assert Values(ns)[i] == Values(ns[1..])[i - 1];
        }
      }
    }
  }

  lemma ValuesAppend(ns: seq<NestedType>, t: NestedType)
    ensures Values(ns + [t]) == Values(ns) + [t.Value()]
  {
    var r, l := Values(ns + [t]), Values(ns) + [t.Value()];
    ValuesAt(ns + [t]);
    ValuesAt(ns);
    assert |r| == |l|;
    forall i | 0 <= i < |r| ensures r[i] == l[i] {
      if i < |ns| {
        assert (ns + [t])[i] == ns[i];
      }
    }
  }

  /** Removing an object and taking snapshots commute. */
  lemma ValuesRemoveAt(ns: seq<NestedType>, i: nat)
    requires i <= |ns|
    ensures Values(RemoveAt(ns, i)) == RemoveAt(Values(ns), i)
  {
    var rest := RemoveAt(ns, i);
    var r, l := Values(rest), RemoveAt(Values(ns), i);
    ValuesAt(rest);
    ValuesAt(ns);
    assert |r| == |l|;
    forall j | 0 <= j < |r| ensures r[j] == l[j] {
      if j < i {
        assert rest[j] == ns[j] && l[j] == Values(ns)[j];
      } else {
        assert rest[j] == ns[j + 1] && l[j] == Values(ns)[j + 1];
      }
    }
  }

  class JavaClass {
    const name: string
    const fields: seq<Field>
    var nested: seq<NestedType>

    constructor (name: string, fields: seq<Field>, nested: seq<NestedType>)
      ensures this.name == name && this.fields == fields && this.nested == nested
    {
      this.name := name;
      this.fields := fields;
      this.nested := nested;
    }

    function Value(): ClassValue
      reads this, nested
    {
      ClassValue(name, fields, Values(nested))
    }

    predicate HasNestedType(n: string)
      reads this
    {
      n in NestedNames(nested)
    }

    /** The first nested type called `n`. */
    function GetNestedType(n: string): (t: NestedType)
      reads this
      requires HasNestedType(n)
      ensures t.name == n
      ensures IndexOf(nested, t) == IndexOf(NestedNames(nested), n) < |nested|
    {
      var i := IndexOf(NestedNames(nested), n);
      assert forall j :: 0 <= j < i ==> nested[j] != nested[i] by {
        forall j | 0 <= j < i ensures nested[j] != nested[i] {
          assert NestedNames(nested)[j] != n;
        }
      }
      assert IndexOf(nested, nested[i]) == i;
      nested[i]
    }

    /** Removes the first occurrence of `t`; nothing changes when `t` is not nested here. */
    method RemoveNestedType(t: NestedType)
      modifies this
      ensures nested == RemoveAt(old(nested), IndexOf(old(nested), t))
    {
      var i := IndexOf(nested, t);
      nested := RemoveAt(nested, i);
    }

    /** Inserts a new, empty nested type at the end and returns it, so that the
        caller can go on adding members to it. */
    method AddNestedType(typeName: string, declaration: string) returns (t: NestedType)
      modifies this
      ensures fresh(t) && t.Value() == TypeValue(typeName, declaration, [], [])
      ensures nested == old(nested) + [t]
    {
      t := new NestedType(typeName, declaration);
      nested := nested + [t];
    }
  }

  /** `Roaster.parse`: the class read from a source file, as a fresh object graph
      whose snapshot is the file's contents. */
  method Parse(c: ClassValue) returns (javaClass: JavaClass)
    ensures fresh(javaClass) && javaClass.Value() == c
    ensures forall t :: t in javaClass.nested ==> fresh(t)
  {
    var ns: seq<NestedType> := [];
    var i := 0;
    while i < |c.nested|
      invariant 0 <= i <= |c.nested|
      invariant Values(ns) == c.nested[..i]
      invariant forall t :: t in ns ==> fresh(t)
    {
      var t := new NestedType.Of(c.nested[i]);
      ValuesAppend(ns, t);
      ns := ns + [t];
      assert c.nested[..i + 1] == c.nested[..i] + [c.nested[i]];
      i := i + 1;
    }
    assert c.nested[..|c.nested|] == c.nested;
    javaClass := new JavaClass(c.name, c.fields, ns);
  }
}
