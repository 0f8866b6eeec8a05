# buildergen, modelled in Dafny

buildergen is a Java annotation processor. For every class annotated with
`@GenerateBuilder`, it rewrites the class's source file so that the class
contains two nested builder classes:

- an abstract, self-typed builder `AbstractXBuilder<T extends X, B extends AbstractXBuilder<T, B>>` with
  - one fluent setter per field;
  - one `addTo…` element adder per collection-typed field;
  - unless the superclass is annotated as well, the abstract methods `build`, `getThisBuilder` and `getObj`;
- a concrete builder `XBuilder`, which holds a fresh `X` and implements those three methods.

Builders left over from an earlier run are removed first. When the superclass is annotated, the abstract
builder extends the superclass's abstract builder. A small library, `JavaElements`, holds the pure
snippet combinators used to build Java source text.

The project consists of these modules:

- `Wrappers`: `Option`.
- `Strings`: the `java.lang.String` operations the code relies on. Case conversion is ASCII-only; `lastIndexOf` is included.
- `Formatter`: `String.format` for `%s`-only format strings. Each `%s` takes the next argument, and a missing argument makes the result `None`.
- `JavaElements`: the snippet library.
- `BuilderHelpers`: the processor's private helpers. These are `capitalize`, `decapitalize`, both builder names, both declaration templates (written as the Java constants and formatted), the parent's simple name, `isCollection` as an oracle, and `getElementType`.
- `Roaster`: the editable source model.
  - `JavaClass` has a sequence of `NestedType` objects.
  - Builders are edited after they have been inserted, as Roaster's `addNestedType` returns the live nested type.
  - Every object has a value snapshot (`Value()`).
- `Synthesis`: what one pass does to one class, stated on values. `Regenerate` gives the class with both builders replaced. The lemmas about it cover:
  - the setters and element adders;
  - the root methods;
  - the supertype chain;
  - the shape of the nested types;
  - idempotence.
- `Processor`: the class `BuilderGeneratorProcessor` with its `firstRound` flag.
  - `Process` is the round.
  - `Generate` and the `Add…` methods are the in-place edits of the loop body. They use the same loops and the same order as the Java code.
  - The in-place edits are proved to leave exactly `Regenerate` of the parsed class, and the round is proved to write exactly `Rewrites` of its elements.

The processor skips no static or final field and generates no `addAllTo…`, `from` or `fromIgnoreNull`
methods; the model does the same. `firstRound` starts `true` and is cleared only in a round that is already
not the first, so it never becomes `false` and every round regenerates.

## Model

| member | source | states |
|---|---|---|
| Processor.BuilderGeneratorProcessor.constructor | src/main/java/me/deadcode/adka/buildergen/BuilderGeneratorProcessor.java:38-45 | a new processor is in its first round; the line separator and the reflection oracle are fixed at construction |
| Processor.AnnotatedNames | src/main/java/me/deadcode/adka/buildergen/BuilderGeneratorProcessor.java:53-54 | the set holds the qualified name of every annotated element, and holds nothing else |
| Processor.BuilderGeneratorProcessor.Process | src/main/java/me/deadcode/adka/buildergen/BuilderGeneratorProcessor.java:47-190 | always claims the annotation; never changes `firstRound`, which therefore stays `true`; in the first round it writes, for the file of each element in order, the regenerated class, or nothing when the file could not be read; annotated parents are found among the names of all the round's elements |
| Processor.BuilderGeneratorProcessor.Rewritten | src/main/java/me/deadcode/adka/buildergen/BuilderGeneratorProcessor.java:57-184 | no contract of its own: what the loop body writes for one element, `Regenerate` of the file's class or nothing for an unreadable file; `RewriteFile` is proved to produce it and `RewrittenStable` states its stability |
| Processor.BuilderGeneratorProcessor.Rewrites | src/main/java/me/deadcode/adka/buildergen/BuilderGeneratorProcessor.java:57-184 | no contract of its own: what the loop writes for all elements, in order; `RewritesAt` states it pointwise and `Process` is proved to produce it |
| Processor.BuilderGeneratorProcessor.RewritesAt | src/main/java/me/deadcode/adka/buildergen/BuilderGeneratorProcessor.java:57-184 | one entry per element; entry `i` depends on element `i` alone |
| Processor.BuilderGeneratorProcessor.RewrittenStable | src/main/java/me/deadcode/adka/buildergen/BuilderGeneratorProcessor.java:57-184 | a file read back as it was written keeps non-empty and distinct names and is regenerated to exactly the same contents |
| Processor.BuilderGeneratorProcessor.RoundsStable | src/main/java/me/deadcode/adka/buildergen/BuilderGeneratorProcessor.java:49-187 | as every round regenerates, a round that reads back the files the previous round wrote is again well formed, sees the same annotated names, and writes exactly the same contents again |
| Processor.BuilderGeneratorProcessor.RewriteFile | src/main/java/me/deadcode/adka/buildergen/BuilderGeneratorProcessor.java:58-183 | the body of the loop, parse through edit: the result is `Regenerate` of the file's class, or nothing when reading failed |
| Processor.BuilderGeneratorProcessor.Generate | src/main/java/me/deadcode/adka/buildergen/BuilderGeneratorProcessor.java:65-172 | after the in-place edits, the parsed class's snapshot is exactly `Regenerate` of its snapshot before them |
| Processor.BuilderGeneratorProcessor.GenerateAbstractBuilder | src/main/java/me/deadcode/adka/buildergen/BuilderGeneratorProcessor.java:67-84 | the first nested type called `AbstractXBuilder` is removed and the new abstract builder, with the supertype clause decided by the annotated set, goes last |
| Processor.BuilderGeneratorProcessor.AddAbstractBuilder | src/main/java/me/deadcode/adka/buildergen/BuilderGeneratorProcessor.java:83-131 | the nested types gain one builder at the end, holding all members added after insertion; the others are unchanged |
| Processor.BuilderGeneratorProcessor.AddAbstractBuilderMethods | src/main/java/me/deadcode/adka/buildergen/BuilderGeneratorProcessor.java:86-131 | setters, then element adders, then the root methods exactly when the supertype clause is empty; fields untouched |
| Processor.BuilderGeneratorProcessor.AddSetters | src/main/java/me/deadcode/adka/buildergen/BuilderGeneratorProcessor.java:87-97 | the loop appends the setter of each field, in field order, after the existing methods |
| Processor.BuilderGeneratorProcessor.AddElementAdders | src/main/java/me/deadcode/adka/buildergen/BuilderGeneratorProcessor.java:100-110 | the loop appends an element adder for each collection field, in field order, and nothing for the other fields |
| Processor.BuilderGeneratorProcessor.AddRootMethods | src/main/java/me/deadcode/adka/buildergen/BuilderGeneratorProcessor.java:113-131 | appends `build`, `getThisBuilder` and `getObj`, abstract and in this order |
| Processor.BuilderGeneratorProcessor.GenerateConcreteBuilder | src/main/java/me/deadcode/adka/buildergen/BuilderGeneratorProcessor.java:137-172 | the first nested type called `XBuilder` is removed and the new concrete builder goes last |
| Processor.BuilderGeneratorProcessor.AddConcreteBuilder | src/main/java/me/deadcode/adka/buildergen/BuilderGeneratorProcessor.java:144-172 | the nested types gain the complete concrete builder at the end; the others are unchanged |
| Processor.BuilderGeneratorProcessor.FillConcreteBuilder | src/main/java/me/deadcode/adka/buildergen/BuilderGeneratorProcessor.java:146-172 | an empty concrete builder ends up with its field and its three methods |
| Processor.BuilderGeneratorProcessor.RemovePrevious | src/main/java/me/deadcode/adka/buildergen/BuilderGeneratorProcessor.java:67-70 | with a nested type of that name, the first one is removed; without one, nothing changes; no object is added |
| Roaster.Parse | src/main/java/me/deadcode/adka/buildergen/BuilderGeneratorProcessor.java:62-63 | parsing yields a fresh class object, with fresh nested-type objects, whose snapshot is the file's contents |
| Roaster.JavaClass.HasNestedType | src/main/java/me/deadcode/adka/buildergen/BuilderGeneratorProcessor.java:67 | no contract of its own: true exactly when some nested type carries the name; it is the precondition of `GetNestedType` and the test of `RemovePrevious` |
| Roaster.JavaClass.GetNestedType | src/main/java/me/deadcode/adka/buildergen/BuilderGeneratorProcessor.java:69 | the result is the first nested type of the requested name |
| Roaster.JavaClass.RemoveNestedType | src/main/java/me/deadcode/adka/buildergen/BuilderGeneratorProcessor.java:140 | removes the first occurrence of the object, and nothing else |
| Roaster.JavaClass.AddNestedType | src/main/java/me/deadcode/adka/buildergen/BuilderGeneratorProcessor.java:144 | a fresh, empty nested type goes last and is returned for further editing |
| Roaster.NestedType.AddMethod | src/main/java/me/deadcode/adka/buildergen/BuilderGeneratorProcessor.java:90-96 | the method goes after all earlier ones; fields unchanged |
| Roaster.NestedType.AddField | src/main/java/me/deadcode/adka/buildergen/BuilderGeneratorProcessor.java:147-151 | the field goes after all earlier ones; methods unchanged |
| BuilderHelpers.Capitalize | src/main/java/me/deadcode/adka/buildergen/BuilderGeneratorProcessor.java:192-194 | defined only for non-empty input; length kept; first character upper-cased, the rest unchanged |
| BuilderHelpers.Decapitalize | src/main/java/me/deadcode/adka/buildergen/BuilderGeneratorProcessor.java:196-198 | defined only for non-empty input; length kept; first character lower-cased, the rest unchanged |
| BuilderHelpers.CapitalizeIdempotent | src/main/java/me/deadcode/adka/buildergen/BuilderGeneratorProcessor.java:192-194 | capitalising twice is capitalising once |
| BuilderHelpers.DecapitalizeCapitalize | src/main/java/me/deadcode/adka/buildergen/BuilderGeneratorProcessor.java:192-198 | decapitalising undoes capitalising for a name that starts with a lower-case letter |
| BuilderHelpers.CapitalizeAgrees | src/main/java/me/deadcode/adka/buildergen/JavaElements.java:75-77 | the snippet library's `capitalize` and the processor's agree on every non-empty string |
| BuilderHelpers.ConcreteNameFormatted | src/main/java/me/deadcode/adka/buildergen/BuilderGeneratorProcessor.java:26 | `%sBuilder` has one conversion and formats to the argument followed by `Builder` |
| BuilderHelpers.AbstractNameFormatted | src/main/java/me/deadcode/adka/buildergen/BuilderGeneratorProcessor.java:27 | `Abstract%sBuilder` has one conversion and formats to `Abstract`, the argument, then `Builder` |
| BuilderHelpers.ConcreteBuilderName | src/main/java/me/deadcode/adka/buildergen/BuilderGeneratorProcessor.java:200-202 | formatting the template yields the class name followed by `Builder` |
| BuilderHelpers.AbstractBuilderName | src/main/java/me/deadcode/adka/buildergen/BuilderGeneratorProcessor.java:204-206 | formatting the template yields `Abstract` followed by the concrete builder's name |
| BuilderHelpers.BuilderNamesDiffer | src/main/java/me/deadcode/adka/buildergen/BuilderGeneratorProcessor.java:200-206 | a class's two builders never share a name |
| BuilderHelpers.BuilderNamesInjective | src/main/java/me/deadcode/adka/buildergen/BuilderGeneratorProcessor.java:200-206 | different classes get differently named builders, concrete and abstract |
| BuilderHelpers.ExtendsParentFormatted | src/main/java/me/deadcode/adka/buildergen/BuilderGeneratorProcessor.java:28 | the supertype clause formats to ` extends `, the parent's abstract builder name, then `<T, B>` |
| BuilderHelpers.ConcreteClassFormatted | src/main/java/me/deadcode/adka/buildergen/BuilderGeneratorProcessor.java:30-31 | the four conversions of the concrete template are filled in order: own name, supertype name, `T`, `B` |
| BuilderHelpers.AbstractClassFormatted | src/main/java/me/deadcode/adka/buildergen/BuilderGeneratorProcessor.java:32-33 | the four conversions of the abstract template are filled in order: own name, bound of `T`, bound of `B`, supertype clause |
| BuilderHelpers.ConcreteTemplateFilled | src/main/java/me/deadcode/adka/buildergen/BuilderGeneratorProcessor.java:208-210 | `XBuilder extends AbstractXBuilder<X, XBuilder>`, as a complete declaration |
| BuilderHelpers.AbstractTemplateFilled | src/main/java/me/deadcode/adka/buildergen/BuilderGeneratorProcessor.java:212-214 | `AbstractXBuilder<T extends X, B extends AbstractXBuilder<T, B>>`, then the supertype clause verbatim, as a complete declaration |
| BuilderHelpers.ConcreteBuilderClassTemplate | src/main/java/me/deadcode/adka/buildergen/BuilderGeneratorProcessor.java:208-210 | no contract of its own: the concrete template formatted with the class name four times; `ConcreteTemplateFilled` gives its closed form |
| BuilderHelpers.AbstractBuilderClassTemplate | src/main/java/me/deadcode/adka/buildergen/BuilderGeneratorProcessor.java:212-214 | no contract of its own: the abstract template formatted with the class name three times and the supertype clause; `AbstractTemplateFilled` gives its closed form |
| BuilderHelpers.ParentSimpleName | src/main/java/me/deadcode/adka/buildergen/BuilderGeneratorProcessor.java:78-79 | the result has no dot; it is the whole name when there is no dot, and otherwise the name is a prefix, a dot and the result |
| BuilderHelpers.IsCollection | src/main/java/me/deadcode/adka/buildergen/BuilderGeneratorProcessor.java:216-223 | true exactly when the class is loadable and a collection; an unloadable class is not a collection |
| BuilderHelpers.ElementType | src/main/java/me/deadcode/adka/buildergen/BuilderGeneratorProcessor.java:225-228 | the first type argument with generics, or `java.lang.Object` for a raw type |
| Strings.UpperChar | src/main/java/me/deadcode/adka/buildergen/BuilderGeneratorProcessor.java:193 | an ASCII lower-case letter becomes the corresponding upper-case letter; every other character is unchanged |
| Strings.LowerChar | src/main/java/me/deadcode/adka/buildergen/BuilderGeneratorProcessor.java:197 | an ASCII upper-case letter becomes the corresponding lower-case letter; every other character is unchanged |
| Strings.LastIndexOf | src/main/java/me/deadcode/adka/buildergen/BuilderGeneratorProcessor.java:79 | -1 exactly when the character is absent, otherwise a position holding it, with no later occurrence |
| Strings.ToLower | src/main/java/me/deadcode/adka/buildergen/JavaElements.java:43 | length kept; every character lower-cased |
| Formatter.Format | src/main/java/me/deadcode/adka/buildergen/BuilderGeneratorProcessor.java:200-214 | no contract of its own: `String.format` with `%s` conversions only; `FormatDefined` says when it succeeds and `FormatConcat`, `FormatPlain` and `FormatBetween` give its result piece by piece |
| Formatter.FormatDefined | src/main/java/me/deadcode/adka/buildergen/BuilderGeneratorProcessor.java:200-214 | formatting succeeds exactly when there is an argument for every `%s` |
| Synthesis.ExtendsClause | src/main/java/me/deadcode/adka/buildergen/BuilderGeneratorProcessor.java:75-81 | no contract of its own: the supertype clause of the abstract builder; `ExtendsClauseSpec` states when it is empty and its form otherwise |
| Synthesis.ExtendsClauseSpec | src/main/java/me/deadcode/adka/buildergen/BuilderGeneratorProcessor.java:75-81 | the supertype clause is empty exactly when the superclass is not annotated; otherwise it is ` extends Abstract<S>Builder<T, B>`, where S is the superclass's simple name |
| Synthesis.Setter | src/main/java/me/deadcode/adka/buildergen/BuilderGeneratorProcessor.java:88-96 | no contract of its own: the setter of one field; `SetterShape` states each of its parts |
| Synthesis.SetterShape | src/main/java/me/deadcode/adka/buildergen/BuilderGeneratorProcessor.java:88-96 | a setter is public and concrete, named after the field, returns `B`, and takes the field's generic type; its body is `getObj().` followed by the bean setter statement, then `return getThisBuilder();` |
| Synthesis.Setters | src/main/java/me/deadcode/adka/buildergen/BuilderGeneratorProcessor.java:87-97 | one setter per field; `SettersAt` states that the `i`-th is the setter of the `i`-th field |
| Synthesis.SettersAt | src/main/java/me/deadcode/adka/buildergen/BuilderGeneratorProcessor.java:87-97 | the `i`-th setter belongs to the `i`-th field: one per field, in declaration order |
| Synthesis.AddTo | src/main/java/me/deadcode/adka/buildergen/BuilderGeneratorProcessor.java:102-108 | no contract of its own: the element adder of one field; `AddToShape` states each of its parts |
| Synthesis.AddToShape | src/main/java/me/deadcode/adka/buildergen/BuilderGeneratorProcessor.java:102-108 | an element adder is public and concrete, is `addTo` plus the capitalised field name, and returns `B`; it takes `<name>Element` of the element type; its body adds the element to the getter's collection, then returns the builder |
| Synthesis.AddTos | src/main/java/me/deadcode/adka/buildergen/BuilderGeneratorProcessor.java:100-110 | at most one element adder per field; `AddTosForCollections`, `AddTosOnlyCollections` and `AddToIffCollection` state which fields have one |
| Synthesis.AddTosForCollections | src/main/java/me/deadcode/adka/buildergen/BuilderGeneratorProcessor.java:100-110 | every collection field gets an element adder |
| Synthesis.AddTosOnlyCollections | src/main/java/me/deadcode/adka/buildergen/BuilderGeneratorProcessor.java:100-110 | every element adder belongs to a collection field |
| Synthesis.AddToIffCollection | src/main/java/me/deadcode/adka/buildergen/BuilderGeneratorProcessor.java:100-110 | with distinct field names, a field has an element adder exactly when its type is a collection |
| Synthesis.RootMethods | src/main/java/me/deadcode/adka/buildergen/BuilderGeneratorProcessor.java:113-131 | no contract of its own: the three abstract root methods; `RootMethodsShape` states their names, types and order |
| Synthesis.RootMethodsShape | src/main/java/me/deadcode/adka/buildergen/BuilderGeneratorProcessor.java:113-131 | three public abstract parameterless methods `T build()`, `B getThisBuilder()`, `T getObj()`, in this order |
| Synthesis.AbstractBuilder | src/main/java/me/deadcode/adka/buildergen/BuilderGeneratorProcessor.java:83-131 | no contract of its own: the complete abstract builder; `AbstractBuilderShape`, `AbstractMethodsAreRoots` and `ExtendsParentBuilder` describe it |
| Synthesis.AbstractBuilderShape | src/main/java/me/deadcode/adka/buildergen/BuilderGeneratorProcessor.java:83-97 | the abstract builder is named and declared by its templates, has no fields, and its methods start with the setters in field order |
| Synthesis.AbstractMethodsAreRoots | src/main/java/me/deadcode/adka/buildergen/BuilderGeneratorProcessor.java:86-131 | the only abstract methods are the root methods; they are present exactly when the superclass is not annotated, and then they come last |
| Synthesis.ExtendsParentBuilder | src/main/java/me/deadcode/adka/buildergen/BuilderGeneratorProcessor.java:73-84 | with an annotated parent, the abstract builder's declaration extends the parent's abstract builder by name |
| Synthesis.ConcreteMethods | src/main/java/me/deadcode/adka/buildergen/BuilderGeneratorProcessor.java:153-172 | no contract of its own: the three methods of the concrete builder; `ConcreteMethodsShape` describes them |
| Synthesis.ConcreteMethodsShape | src/main/java/me/deadcode/adka/buildergen/BuilderGeneratorProcessor.java:153-172 | three public concrete `@Override` methods without parameters; `build` and `getObj` return the held object as `X`, and `getThisBuilder` returns `this` as `XBuilder` |
| Synthesis.ConcreteBuilder | src/main/java/me/deadcode/adka/buildergen/BuilderGeneratorProcessor.java:143-172 | no contract of its own: the complete concrete builder; `ConcreteBuilderShape` and `ConcreteExtendsAbstract` describe it |
| Synthesis.ConcreteBuilderShape | src/main/java/me/deadcode/adka/buildergen/BuilderGeneratorProcessor.java:143-172 | the concrete builder's only field is private, named after the decapitalised class, of type `X` and initialised to `new X()`; its methods are the concrete root methods over that field |
| Synthesis.ConcreteExtendsAbstract | src/main/java/me/deadcode/adka/buildergen/BuilderGeneratorProcessor.java:137-144 | the concrete builder extends the same class's abstract builder, with the class as `T` and itself as `B` |
| Synthesis.RemoveNamed | src/main/java/me/deadcode/adka/buildergen/BuilderGeneratorProcessor.java:67-70 | no contract of its own: the first nested type of the name goes; `RemoveNamedLength` and `RemoveNamedDistinct` describe it |
| Synthesis.RemoveNamedLength | src/main/java/me/deadcode/adka/buildergen/BuilderGeneratorProcessor.java:67-70 | removal changes nothing without a nested type of that name, and removes exactly one with one |
| Synthesis.RemoveNamedDistinct | src/main/java/me/deadcode/adka/buildergen/BuilderGeneratorProcessor.java:138-141 | with distinct nested names, removing the first nested type of a name removes every one |
| Synthesis.Replace | src/main/java/me/deadcode/adka/buildergen/BuilderGeneratorProcessor.java:137-144 | no contract of its own: the first nested type of the new one's name goes and the new one is appended; `ReplaceDistinct` and `ReplaceTwice` describe it |
| Synthesis.ReplaceDistinct | src/main/java/me/deadcode/adka/buildergen/BuilderGeneratorProcessor.java:137-144 | with distinct nested names, a replacement drops every nested type of that name and appends the new one |
| Synthesis.ReplaceTwice | src/main/java/me/deadcode/adka/buildergen/BuilderGeneratorProcessor.java:67-144 | two replacements by different names drop every nested type of either name and append both replacements in order |
| Synthesis.Regenerate | src/main/java/me/deadcode/adka/buildergen/BuilderGeneratorProcessor.java:65-172 | no contract of its own: the class after one pass; `Generate` is proved to produce it, and `RegenerateEndsWithBuilders`, `RegenerateShape`, `RegenerateDistinct`, `RegenerateIdempotent` and `RegenerateIgnoresOldBuilders` describe it |
| Synthesis.RegenerateEndsWithBuilders | src/main/java/me/deadcode/adka/buildergen/BuilderGeneratorProcessor.java:65-172 | whatever the class held before, its name and fields are kept, and its nested types end with the new abstract builder followed by the new concrete builder |
| Synthesis.RegenerateShape | src/main/java/me/deadcode/adka/buildergen/BuilderGeneratorProcessor.java:65-172 | with distinct nested names, every other nested type is kept in its order, both old builders are gone, and both new builders are appended |
| Synthesis.RegenerateDistinct | src/main/java/me/deadcode/adka/buildergen/BuilderGeneratorProcessor.java:65-172 | distinct nested names stay distinct, so exactly one nested type carries each builder's name |
| Synthesis.RegenerateIdempotent | src/main/java/me/deadcode/adka/buildergen/BuilderGeneratorProcessor.java:65-172 | regenerating an already regenerated class changes nothing |
| Synthesis.RegenerateIgnoresOldBuilders | src/main/java/me/deadcode/adka/buildergen/BuilderGeneratorProcessor.java:65-172 | two versions of a class that differ only in their old builders are regenerated alike |
| JavaElements.Capitalize | src/main/java/me/deadcode/adka/buildergen/JavaElements.java:75-77 | defined only for non-empty input; length kept; first character upper-cased, the rest unchanged |
| JavaElements.NotNull | src/main/java/me/deadcode/adka/buildergen/JavaElements.java:18-20 | the object, followed by ` != null` |
| JavaElements.New | src/main/java/me/deadcode/adka/buildergen/JavaElements.java:22-24 | `new `, the type, then `()` |
| JavaElements.Return | src/main/java/me/deadcode/adka/buildergen/JavaElements.java:26-28 | `return `, the object, then the statement terminator `;` plus line separator |
| JavaElements.InstanceOf | src/main/java/me/deadcode/adka/buildergen/JavaElements.java:30-32 | the object, ` instanceof `, then the type |
| JavaElements.Cast | src/main/java/me/deadcode/adka/buildergen/JavaElements.java:34-36 | the parenthesised type, a space, then the object |
| JavaElements.Get | src/main/java/me/deadcode/adka/buildergen/JavaElements.java:38-40 | `get`, the capitalised property, then `()` |
| JavaElements.GetField | src/main/java/me/deadcode/adka/buildergen/JavaElements.java:42-45 | `is` for a boolean-like type and `get` otherwise, then the capitalised name and `()`; for a type that is not boolean-like it equals `Get` of the field's name |
| JavaElements.GetFieldPrefix | src/main/java/me/deadcode/adka/buildergen/JavaElements.java:42-45 | the accessor starts with `is` exactly when the type's simple name lower-cases to `boolean` |
| JavaElements.BooleanLikeNames | src/main/java/me/deadcode/adka/buildergen/JavaElements.java:43 | `boolean` and `Boolean` are boolean-like; `Object` and `bool` are not |
| JavaElements.SetTo | src/main/java/me/deadcode/adka/buildergen/JavaElements.java:51-53 | `set`, the capitalised property, the parameter in parentheses, then the terminator |
| JavaElements.Set | src/main/java/me/deadcode/adka/buildergen/JavaElements.java:47-49 | the two-argument form with the property passed as its own parameter |
| JavaElements.Add | src/main/java/me/deadcode/adka/buildergen/JavaElements.java:55-57 | `add(`, the object, then `);` |
| JavaElements.AddAll | src/main/java/me/deadcode/adka/buildergen/JavaElements.java:59-61 | `addAll(`, the collection, then `);` |
| JavaElements.If | src/main/java/me/deadcode/adka/buildergen/JavaElements.java:63-66 | the head (`if (p) {`, a line break, the then-branch and a line break) followed by `}` |
| JavaElements.IfElse | src/main/java/me/deadcode/adka/buildergen/JavaElements.java:68-72 | the same head, then `} else {`, a line break, the else-branch, a line break, then `}` |
| JavaElements.IfElseExtendsIf | src/main/java/me/deadcode/adka/buildergen/JavaElements.java:63-72 | the three-argument form is the two-argument form with the else-branch placed before the closing brace, so the then-branch comes first |

## Left out

- File access is not modelled: building the file path, reading the file and `Roaster.parse` of its text. A file arrives as its parsed contents, or as `None` when reading it failed.
- `Roaster.format`, `toString` and the `BufferedWriter` write-back are not modelled. The model returns the class that would be written. An `IOException` while writing is not modelled.
- `Messager` diagnostics and `init` are not modelled. A failed read only means that nothing is written for that file.
- `RoundEnvironment` and the annotation type are not modelled. The round is the sequence of annotated elements, each with its qualified name, its superclass's printed name and its file.
- `Class.forName` and `Collection.class.isAssignableFrom` are runtime reflection. They are modelled as a map from loadable class names to "is a collection".
- `System.lineSeparator()` is a constant string parameter.
- `Strings.UpperChar`, `Strings.LowerChar`, `Strings.ToLower`: only ASCII letters change case. Java's `String.toUpperCase`/`toLowerCase` use the default locale (in a Turkish locale `capitalize("id")` is `"İd"`) and may change the length (`"ß"` becomes `"SS"`); neither is modelled. `substring(0,1)` takes one UTF-16 code unit, whereas the model takes one Unicode scalar value, so names beginning with a supplementary character differ.
- `Formatter.Format`: only `%s` conversions are modelled, which is all the templates use. Arguments are appended verbatim.
- Processor.BuilderGeneratorProcessor.Process: every annotated class is assumed to have a non-empty name and non-empty field names. Java identifiers are never empty; on an empty name `substring(0,1)` would throw.
- Synthesis.RegenerateShape and the other lemmas about the resulting nested types assume that the nested types have distinct names, as Java requires of member types. `RegenerateEndsWithBuilders` holds without this assumption.
- `Roaster.Parse` builds fresh objects from the file's contents; Roaster's own parsing of source text is not modelled.
- `JavaElements.This`, `JavaElements.Super` and `JavaElements.EndCommand` are constants. They are modelled without a contract, as there is nothing to state beyond the literal.
- `GenerateBuilder.java` is a marker annotation and is not part of this model.
