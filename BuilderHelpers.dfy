/**
 * The pure helpers of the builder generator: case conversion of the first
 * letter, the naming rules for the two generated builders, the declaration
 * templates they are created from, and the classification of field types.
 */
module BuilderHelpers {
  import opened Wrappers
  import opened Strings
  import opened Formatter
  import opened Roaster
  import JavaElements

  // The templates are the Java constants; each `%s` conversion is written as a
  // literal of its own, which leaves the text unchanged.

  /** The name of the concrete builder of class `%s`. */
  const ConcreteBuilderNameFormat := "%s" + "Builder"
  /** The name of the abstract builder of class `%s`. */
  const AbstractBuilderNameFormat := "Abstract" + ConcreteBuilderNameFormat
  /** The supertype clause of an abstract builder whose parent class `%s` also gets builders. */
  const ExtendsParentFormat := " extends " + AbstractBuilderNameFormat + "<T, B>"
  /** Declaration of the concrete builder: four times the class name. */
  const ConcreteBuilderClassFormat := "public static class " + ConcreteBuilderNameFormat +
    " extends " + AbstractBuilderNameFormat + "<" + "%s" + ", " + ConcreteBuilderNameFormat + "> { }"
  /** Declaration of the abstract builder: three times the class name, then the supertype clause. */
  const AbstractBuilderClassFormat := "public static abstract class " + AbstractBuilderNameFormat +
    "<T extends " + "%s" + ", B extends " + AbstractBuilderNameFormat + "<T, B>>" + "%s" + " { }"

  /** The canonical name of `java.lang.Object`, the element type of a raw collection. */
  const ObjectTypeName := "java.lang.Object"

  function Capitalize(attributeName: string): (r: string)
    requires |attributeName| > 0
    ensures |r| == |attributeName|
    ensures r[0] == UpperChar(attributeName[0]) && r[1..] == attributeName[1..]
  {
    [UpperChar(attributeName[0])] + (if |attributeName| == 1 then "" else attributeName[1..])
  }

  function Decapitalize(className: string): (r: string)
    requires |className| > 0
    ensures |r| == |className|
    ensures r[0] == LowerChar(className[0]) && r[1..] == className[1..]
  {
    [LowerChar(className[0])] + (if |className| == 1 then "" else className[1..])
  }

  /** The processor's capitalisation and the one of the snippet library are the same function. */
  lemma CapitalizeAgrees(s: string)
    requires |s| > 0
    ensures Capitalize(s) == JavaElements.Capitalize(s)
  {
  }

  lemma CapitalizeIdempotent(s: string)
    requires |s| > 0
    ensures Capitalize(Capitalize(s)) == Capitalize(s)
  {
  }

  /** Decapitalising undoes capitalising a name that begins with a lower-case letter. */
  lemma DecapitalizeCapitalize(s: string)
    requires |s| > 0 && IsAsciiLower(s[0])
    ensures Decapitalize(Capitalize(s)) == s
  {
    LowerUpperRoundTrip(s[0]);
    assert Decapitalize(Capitalize(s))[0] == s[0];
  }

  lemma ConcreteNameFormatted(args: seq<string>)
    requires |args| > 0
    ensures Holes(ConcreteBuilderNameFormat) == 1
    ensures Format(ConcreteBuilderNameFormat, args) == Some(args[0] + "Builder")
  {
    FormatBetween("", "Builder", args);
    assert "" + "%s" == "%s" && "" + args[0] == args[0];
  }

  lemma AbstractNameFormatted(args: seq<string>)
    requires |args| > 0
    ensures Holes(AbstractBuilderNameFormat) == 1
    ensures Format(AbstractBuilderNameFormat, args) == Some("Abstract" + (args[0] + "Builder"))
  {
    ConcreteNameFormatted(args);
    FormatPlain("Abstract", args);
    assert args[0..] == args;
    FormatAppend("Abstract", ConcreteBuilderNameFormat, args, "Abstract", args[0] + "Builder");
  }

  /** `concreteBuilderName`: the class name followed by `Builder`. */
  function ConcreteBuilderName(baseClass: string): (r: string)
    ensures r == baseClass + "Builder"
  {
    ConcreteNameFormatted([baseClass]);
    Format(ConcreteBuilderNameFormat, [baseClass]).value
  }

  /** `abstractBuilderName`: the concrete builder's name behind `Abstract`. */
  function AbstractBuilderName(baseClass: string): (r: string)
    ensures r == "Abstract" + ConcreteBuilderName(baseClass)
  {
    AbstractNameFormatted([baseClass]);
    Format(AbstractBuilderNameFormat, [baseClass]).value
  }

  /** The two builders of one class never share a name. */
  lemma BuilderNamesDiffer(baseClass: string)
    ensures ConcreteBuilderName(baseClass) != AbstractBuilderName(baseClass)
  {
    assert |ConcreteBuilderName(baseClass)| < |AbstractBuilderName(baseClass)|;
  }

  /** Different classes get differently named builders. */
  lemma BuilderNamesInjective(a: string, b: string)
    requires a != b
    ensures ConcreteBuilderName(a) != ConcreteBuilderName(b)
    ensures AbstractBuilderName(a) != AbstractBuilderName(b)
  {
    if ConcreteBuilderName(a) == ConcreteBuilderName(b) {
      SuffixCancel(a, b, "Builder");
    }
    if AbstractBuilderName(a) == AbstractBuilderName(b) {
      PrefixCancel("Abstract", ConcreteBuilderName(a), ConcreteBuilderName(b));
      SuffixCancel(a, b, "Builder");
    }
  }

  lemma ExtendsParentFormatted(parentSimpleName: string)
    ensures Format(ExtendsParentFormat, [parentSimpleName]) ==
      Some(" extends " + AbstractBuilderName(parentSimpleName) + "<T, B>")
  {
    var args := [parentSimpleName];
    var f1 := " extends " + AbstractBuilderNameFormat;
    AbstractNameFormatted(args);
    FormatPlain(" extends ", args);
    assert args[0..] == args;
    FormatAppend(" extends ", AbstractBuilderNameFormat, args, " extends ", AbstractBuilderName(parentSimpleName));
    assert f1[|f1| - 1] == 'r';
    AppendText(f1, "<T, B>", args, " extends " + AbstractBuilderName(parentSimpleName));
  }

  // The concrete template, one piece after another; `b` is the class name.

  lemma ConcreteDeclared(b: string)
    ensures Holes("public static class " + ConcreteBuilderNameFormat) == 1
    ensures Format("public static class " + ConcreteBuilderNameFormat, [b, b, b, b]) ==
      Some("public static class " + ConcreteBuilderName(b))
  {
    var args := [b, b, b, b];
    assert args[0..] == args;
    FormatPlain("public static class ", args);
    ConcreteNameFormatted(args);
    FormatAppend("public static class ", ConcreteBuilderNameFormat, args, "public static class ", ConcreteBuilderName(b));
  }

  lemma ConcreteHead(b: string)
    ensures Holes("public static class " + ConcreteBuilderNameFormat + " extends ") == 1
    ensures Format("public static class " + ConcreteBuilderNameFormat + " extends ", [b, b, b, b]) ==
      Some("public static class " + ConcreteBuilderName(b) + " extends ")
  {
    var f1 := "public static class " + ConcreteBuilderNameFormat;
    ConcreteDeclared(b);
    assert f1[|f1| - 1] == 'r';
    AppendText(f1, " extends ", [b, b, b, b], "public static class " + ConcreteBuilderName(b));
  }

  lemma ConcreteMiddle(b: string)
    ensures Holes("public static class " + ConcreteBuilderNameFormat + " extends " + AbstractBuilderNameFormat +
      "<" + "%s" + ", ") == 3
    ensures Format("public static class " + ConcreteBuilderNameFormat + " extends " + AbstractBuilderNameFormat +
      "<" + "%s" + ", ", [b, b, b, b]) ==
      Some("public static class " + ConcreteBuilderName(b) + " extends " + AbstractBuilderName(b) + "<" + b + ", ")
  {
    var args := [b, b, b, b];
    var f2 := "public static class " + ConcreteBuilderNameFormat + " extends ";
    var f3 := f2 + AbstractBuilderNameFormat;
    var v2 := "public static class " + ConcreteBuilderName(b) + " extends ";
    var v3 := v2 + AbstractBuilderName(b);
    assert args[1..][0] == b && args[2] == b;
    ConcreteHead(b);
    AbstractNameFormatted(args[1..]);
    assert f2[|f2| - 1] == ' ';
    FormatAppend(f2, AbstractBuilderNameFormat, args, v2, AbstractBuilderName(b));
    assert f3[|f3| - 1] == 'r';
    AppendText(f3, "<", args, v3);
    assert (f3 + "<")[|f3 + "<"| - 1] == '<';
    AppendConversion(f3 + "<", args, v3 + "<");
    AppendText(f3 + "<" + "%s", ", ", args, v3 + "<" + b);
  }

  lemma ConcreteClassFormatted(b: string)
    ensures Format(ConcreteBuilderClassFormat, [b, b, b, b]) ==
      Some("public static class " + ConcreteBuilderName(b) + " extends " + AbstractBuilderName(b) + "<" + b + ", " +
        ConcreteBuilderName(b) + "> { }")
  {
    var args := [b, b, b, b];
    var f4 := "public static class " + ConcreteBuilderNameFormat + " extends " + AbstractBuilderNameFormat +
      "<" + "%s" + ", ";
    var f5 := f4 + ConcreteBuilderNameFormat;
    var v4 := "public static class " + ConcreteBuilderName(b) + " extends " + AbstractBuilderName(b) + "<" + b + ", ";
    assert args[3..][0] == b;
    ConcreteMiddle(b);
    ConcreteNameFormatted(args[3..]);
    assert f4[|f4| - 1] == ' ';
    FormatAppend(f4, ConcreteBuilderNameFormat, args, v4, ConcreteBuilderName(b));
    assert f5[|f5| - 1] == 'r';
    AppendText(f5, "> { }", args, v4 + ConcreteBuilderName(b));
  }

  // The abstract template; `b` is the class name and `e` the supertype clause.

  lemma AbstractDeclared(b: string, e: string)
    ensures Holes("public static abstract class " + AbstractBuilderNameFormat) == 1
    ensures Format("public static abstract class " + AbstractBuilderNameFormat, [b, b, b, e]) ==
      Some("public static abstract class " + AbstractBuilderName(b))
  {
    var args := [b, b, b, e];
    assert args[0..] == args;
    FormatPlain("public static abstract class ", args);
    AbstractNameFormatted(args);
    FormatAppend("public static abstract class ", AbstractBuilderNameFormat, args, "public static abstract class ",
      AbstractBuilderName(b));
  }

  lemma AbstractHead(b: string, e: string)
    ensures Holes("public static abstract class " + AbstractBuilderNameFormat + "<T extends " + "%s" + ", B extends ") == 2
    ensures Format("public static abstract class " + AbstractBuilderNameFormat + "<T extends " + "%s" + ", B extends ",
      [b, b, b, e]) ==
      Some("public static abstract class " + AbstractBuilderName(b) + "<T extends " + b + ", B extends ")
  {
    var args := [b, b, b, e];
    var f1 := "public static abstract class " + AbstractBuilderNameFormat;
    var v1 := "public static abstract class " + AbstractBuilderName(b);
    assert args[1] == b;
    AbstractDeclared(b, e);
    assert f1[|f1| - 1] == 'r';
    AppendText(f1, "<T extends ", args, v1);
    assert (f1 + "<T extends ")[|f1 + "<T extends "| - 1] == ' ';
    AppendConversion(f1 + "<T extends ", args, v1 + "<T extends ");
    AppendText(f1 + "<T extends " + "%s", ", B extends ", args, v1 + "<T extends " + b);
  }

  lemma AbstractClassFormatted(b: string, e: string)
    ensures Format(AbstractBuilderClassFormat, [b, b, b, e]) ==
      Some("public static abstract class " + AbstractBuilderName(b) + "<T extends " + b + ", B extends " +
        AbstractBuilderName(b) + "<T, B>>" + e + " { }")
  {
    var args := [b, b, b, e];
    var f2 := "public static abstract class " + AbstractBuilderNameFormat + "<T extends " + "%s" + ", B extends ";
    var f3 := f2 + AbstractBuilderNameFormat;
    var v2 := "public static abstract class " + AbstractBuilderName(b) + "<T extends " + b + ", B extends ";
    var v3 := v2 + AbstractBuilderName(b);
    assert args[2..][0] == b && args[3] == e;
    AbstractHead(b, e);
    AbstractNameFormatted(args[2..]);
    assert f2[|f2| - 1] == ' ';
    FormatAppend(f2, AbstractBuilderNameFormat, args, v2, AbstractBuilderName(b));
    assert f3[|f3| - 1] == 'r';
    AppendText(f3, "<T, B>>", args, v3);
    assert (f3 + "<T, B>>")[|f3 + "<T, B>>"| - 1] == '>';
    AppendConversion(f3 + "<T, B>>", args, v3 + "<T, B>>");
    AppendText(f3 + "<T, B>>" + "%s", " { }", args, v3 + "<T, B>>" + e);
  }

  /** `concreteBuilderClassTemplate`: the class name fills the concrete builder's own name,
      its supertype's name, the supertype's first type argument and its second. */
  function ConcreteBuilderClassTemplate(baseClass: string): string
  {
    ConcreteClassFormatted(baseClass);
    Format(ConcreteBuilderClassFormat, [baseClass, baseClass, baseClass, baseClass]).value
  }

  /** The concrete builder of `baseClass` extends its abstract builder, with the class
      as `T` and itself as `B`. */
  lemma ConcreteTemplateFilled(baseClass: string)
    ensures ConcreteBuilderClassTemplate(baseClass) == "public static class " + ConcreteBuilderName(baseClass) +
      " extends " + AbstractBuilderName(baseClass) + "<" + baseClass + ", " + ConcreteBuilderName(baseClass) + "> { }"
  {
    ConcreteClassFormatted(baseClass);
  }

  /** `abstractBuilderClassTemplate`: the class name fills the abstract builder's own name,
      the bound of `T` and the bound of `B`; the supertype clause ends the header. */
  function AbstractBuilderClassTemplate(baseClass: string, extendsAnnotatedClass: string): string
  {
    AbstractClassFormatted(baseClass, extendsAnnotatedClass);
    Format(AbstractBuilderClassFormat, [baseClass, baseClass, baseClass, extendsAnnotatedClass]).value
  }

  /** The abstract builder of `baseClass` is generic in `T extends baseClass` and in
      `B` bounded by itself; the supertype clause, verbatim, ends its header. */
  lemma AbstractTemplateFilled(baseClass: string, extendsAnnotatedClass: string)
    ensures AbstractBuilderClassTemplate(baseClass, extendsAnnotatedClass) == "public static abstract class " +
      AbstractBuilderName(baseClass) + "<T extends " + baseClass + ", B extends " + AbstractBuilderName(baseClass) +
      "<T, B>>" + extendsAnnotatedClass + " { }"
  {
    AbstractClassFormatted(baseClass, extendsAnnotatedClass);
  }

  /** The parent's simple name: what follows the last dot of its qualified name, or
      the whole name when it has no dot. */
  function ParentSimpleName(parentClass: string): (r: string)
    ensures '.' !in r
    ensures '.' !in parentClass ==> r == parentClass
    ensures '.' in parentClass ==> |r| < |parentClass| && parentClass == parentClass[..|parentClass| - |r| - 1] + "." + r
  {
    if '.' in parentClass then parentClass[LastIndexOf(parentClass, '.') + 1..] else parentClass
  }

  /** `Class.forName` on the type's qualified name, then `Collection.class.isAssignableFrom`.
      `classpath` maps every loadable class name to whether it is a collection; a name
      that cannot be loaded is not a collection. */
  function IsCollection(classpath: map<string, bool>, t: JavaType): (r: bool)
    ensures t.qualifiedName !in classpath ==> !r
    ensures r <==> t.qualifiedName in classpath && classpath[t.qualifiedName]
  {
    if t.qualifiedName in classpath then classpath[t.qualifiedName] else false
  }

  /** The element type of a collection type: its first type argument, or `Object`
      for a raw type. */
  function ElementType(t: JavaType): (r: string)
    ensures |t.typeArguments| == 0 ==> r == ObjectTypeName
    ensures |t.typeArguments| > 0 ==> r == t.typeArguments[0].qualifiedNameWithGenerics
  {
    if |t.typeArguments| == 0 then ObjectTypeName else t.typeArguments[0].qualifiedNameWithGenerics
  }
}
