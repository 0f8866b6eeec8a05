/**
 * Combinators that produce snippets of Java source text. `ls` stands for the
 * platform line separator, a constant of the running JVM that is not modelled.
 */
module JavaElements {
  import opened Strings
  import opened Roaster

  /** The statement terminator: a semicolon and a line break. */
  function EndCommand(ls: string): string {
    ";" + ls
  }

  function This(): string {
    "this"
  }

  function Super(): string {
    "super"
  }

  /** The first character upper-cased, the rest kept. Java throws on the empty string. */
  function Capitalize(s: string): (r: string)
    requires |s| > 0
    ensures |r| == |s| && r[0] == UpperChar(s[0]) && r[1..] == s[1..]
    ensures r == [UpperChar(s[0])] + s[1..]
  {
    [UpperChar(s[0])] + (if |s| == 1 then "" else s[1..])
  }

  /** A null check on `obj`. */
  function NotNull(obj: string): (r: string)
    ensures |r| == |obj| + 8 && r[..|obj|] == obj && r[|obj|..] == " != null"
  {
    obj + " != null"
  }

  /** A zero-argument construction of `typeName`. */
  function New(typeName: string): (r: string)
    ensures |r| == |typeName| + 6 && r[..4] == "new " && r[4..|r| - 2] == typeName && r[|r| - 2..] == "()"
  {
    "new " + typeName + "()"
  }

  /** A return statement; it ends with the statement terminator. */
  function Return(ls: string, obj: string): (r: string)
    ensures |r| == 7 + |obj| + |EndCommand(ls)|
    ensures r[..7] == "return " && r[7..7 + |obj|] == obj && r[7 + |obj|..] == EndCommand(ls)
  {
    "return " + obj + EndCommand(ls)
  }

  function InstanceOf(obj: string, typeName: string): (r: string)
    ensures |r| == |obj| + 12 + |typeName|
    ensures r[..|obj|] == obj && r[|obj|..|obj| + 12] == " instanceof " && r[|obj| + 12..] == typeName
  {
    obj + " instanceof " + typeName
  }

  /** A cast of `obj` to `typeName`: the type in parentheses comes first. */
  function Cast(obj: string, typeName: string): (r: string)
    ensures |r| == |typeName| + 3 + |obj|
    ensures r[..|typeName| + 3] == "(" + typeName + ") " && r[|typeName| + 3..] == obj
  {
    "(" + typeName + ") " + obj
  }

  /** The getter call for property `obj`. */
  function Get(obj: string): (r: string)
    requires |obj| > 0
    ensures r == "get" + [UpperChar(obj[0])] + obj[1..] + "()"
  {
    "get" + Capitalize(obj) + "()"
  }

  /** Is a simple type name `boolean` when lower-cased (so `boolean` and `Boolean` alike)? */
  predicate IsBooleanLike(simpleName: string) {
    ToLower(simpleName) == "boolean"
  }

  /** The accessor call for a field: `is…()` for boolean-like types, `get…()` otherwise. */
  function GetField(attribute: Field): (r: string)
    requires |attribute.name| > 0
    ensures var n := attribute.name;
      r == (if IsBooleanLike(attribute.fieldType.simpleName) then "is" else "get") + [UpperChar(n[0])] + n[1..] + "()"
    ensures !IsBooleanLike(attribute.fieldType.simpleName) ==> r == Get(attribute.name)
  {
    (if ToLower(attribute.fieldType.simpleName) == "boolean" then "is" else "get") +
      Capitalize(attribute.name) + "()"
  }

  /** The setter call for property `obj` with the argument `parameter`, as a statement. */
  function SetTo(ls: string, obj: string, parameter: string): (r: string)
    requires |obj| > 0
    ensures r == "set" + [UpperChar(obj[0])] + obj[1..] + "(" + parameter + ")" + ";" + ls
  {
    "set" + Capitalize(obj) + "(" + parameter + ")" + EndCommand(ls)
  }

  /** The setter call for property `obj` passing the variable of the same name. */
  function Set(ls: string, obj: string): (r: string)
    requires |obj| > 0
    ensures r == "set" + [UpperChar(obj[0])] + obj[1..] + "(" + obj + ")" + ";" + ls
  {
    SetTo(ls, obj, obj)
  }

  function Add(obj: string): (r: string)
    ensures |r| == |obj| + 6
    ensures r[..4] == "add(" && r[4..|r| - 2] == obj && r[|r| - 2..] == ");"
  {
    "add(" + obj + ");"
  }

  function AddAll(collection: string): (r: string)
    ensures |r| == |collection| + 9
    ensures r[..7] == "addAll(" && r[7..|r| - 2] == collection && r[|r| - 2..] == ");"
  {
    "addAll(" + collection + ");"
  }

  /** The opening of an if statement: condition, then-branch, each on its own line. */
  function IfHead(ls: string, predicate_: string, thenWhat: string): string {
    "if (" + predicate_ + ") {" + ls + thenWhat + ls
  }

  function If(ls: string, predicate_: string, thenWhat: string): (r: string)
    ensures var h := IfHead(ls, predicate_, thenWhat);
      |r| == |h| + 1 && r[..|h|] == h && r[|h|..] == "}"
  {
    "if (" + predicate_ + ") {" + ls + thenWhat + ls + "}"
  }

  function IfElse(ls: string, predicate_: string, thenWhat: string, elseWhat: string): (r: string)
    ensures var h := IfHead(ls, predicate_, thenWhat);
      |r| == |h| + 9 + 2 * |ls| + |elseWhat| && r[..|h|] == h && r[|h|..] == "} else {" + ls + elseWhat + ls + "}"
  {
    "if (" + predicate_ + ") {" + ls + thenWhat + ls + "} else {" + ls + elseWhat + ls + "}"
  }

  /** The three-argument form is the two-argument form with an else-branch placed
      before its closing brace, so the then-branch always comes first. */
  lemma IfElseExtendsIf(ls: string, predicate_: string, thenWhat: string, elseWhat: string)
    ensures var i := If(ls, predicate_, thenWhat);
      IfElse(ls, predicate_, thenWhat, elseWhat) == i[..|i| - 1] + "} else {" + ls + elseWhat + ls + "}"
  {
  }

  /** Both the primitive and the boxed spelling read as boolean; other names do not. */
  lemma BooleanLikeNames()
    ensures IsBooleanLike("boolean") && IsBooleanLike("Boolean")
    ensures !IsBooleanLike("Object") && !IsBooleanLike("bool")
  {
  }

  /** A field's accessor starts with "is" exactly when its type is boolean-like. */
  lemma GetFieldPrefix(attribute: Field)
    requires |attribute.name| > 0
    ensures GetField(attribute)[..2] == "is" <==> IsBooleanLike(attribute.fieldType.simpleName)
  {
    var r := GetField(attribute);
    if !IsBooleanLike(attribute.fieldType.simpleName) {
      assert r[1] == 'e';
    }
  }
}
