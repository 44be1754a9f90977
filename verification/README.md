# jdbc-wrappers core, modelled in Dafny

This project models three small pieces of the jdbc-wrappers repository:

* **The method model of the source generator** (`MethodModel`), in `method_model.dfy`.
  A method under construction has a name, an optional return type, ordered
  arguments, ordered thrown types and a body. It can create arguments, naming
  unnamed ones `arg<N>`. It can add thrown types. It hands its types to the
  import collector in a fixed order. It renders itself as
  `public <ret> <name>(<T a>, ...) throws E1, ... {`, then the body one level
  deeper, then `}`.
* **The documentation-comment model** (`JavadocModel`), in `javadoc_model.dfy`.
  It is an ordered list of text pieces, class links and method links. Each
  piece renders into `write`/`writeln` calls on the comment writer. An empty
  list renders nothing at all.
* **The CHAR-column trimming rule** (`TrimmingResultSetInvocationHandler`), in
  `trimming.dfy`. `trim` strips trailing spaces. A classification of CHAR
  columns is built once from result-set metadata. Then `invoke` decides to
  trim, not to trim, or to raise an error for a String read through
  `getObject`/`getString`.

Collaborators whose code is not part of this model are parameters:

* `render: T -> string` stands for `MType.toString(imports)`. It captures the
  import registry's short/qualified decision.
* `visit: (S, T) -> S` stands for `MType.collectImports(imports)`, over an
  import-registry state `S`.
* `indentedBody: B -> string` stands for what the body's `CodeModel` appends
  through an `IndentCodeWriter`.

The method's output sink is a `string`: `write` appends its text, and `writeln`
appends its text and `"\n"`. The comment writer's own layout is not part of
this model either. Its output is therefore the trace of calls made on it:
`Open` when the writer is created, `Write`, `WriteLine`, and `End` for `end()`.
Shared helpers are in `text.dfy` (joining with a separator, decimal rendering
of an `int`) and `optional.dfy` (`Option`, for a nullable reference).

Two facts about the code shape the model:

* `JavadocModel.java:57` calls `method.getClassModel()`, which
  MethodModel.java does not define, so a method link carries its owning class
  explicitly.
* Automatic names are `arg` followed by the number of arguments before the
  call. They are pairwise distinct (`AutoNamesDistinct`), but an explicit
  argument name can equal an automatic `arg<N>` name. The code does not check
  for that, and neither does the model.

## Model

| member | source | states |
|---|---|---|
| MethodModels.CreateArgument | modules/generator/src/main/java/net/sf/jwrappers/generator/model/MethodModel.java:41-45 | appends exactly one argument with the given name and type at the end, returns it, keeps earlier arguments and changes nothing else |
| MethodModels.CreateUnnamedArgument | modules/generator/src/main/java/net/sf/jwrappers/generator/model/MethodModel.java:47-49 | the new argument is named `arg` followed by the number of arguments before the call, and is appended at the end |
| MethodModels.UnnamedArgumentsAreNumbered | modules/generator/src/main/java/net/sf/jwrappers/generator/model/MethodModel.java:41-49 | successive unnamed creations give the argument at position k the name `arg<k>` and its type, leave earlier arguments and other fields untouched |
| MethodModels.AutoNamesDistinct | modules/generator/src/main/java/net/sf/jwrappers/generator/model/MethodModel.java:47-49 | different positions get different automatic names |
| Text.DecimalString | modules/generator/src/main/java/net/sf/jwrappers/generator/model/MethodModel.java:48 | the decimal text of the count is non-empty, all digits, and has no leading zero unless it is `0` |
| Text.DecimalRoundTrip | modules/generator/src/main/java/net/sf/jwrappers/generator/model/MethodModel.java:48 | reading the decimal text back gives the number |
| Text.DecimalStringInjective | modules/generator/src/main/java/net/sf/jwrappers/generator/model/MethodModel.java:48 | different counts have different decimal texts |
| MethodModels.AddException | modules/generator/src/main/java/net/sf/jwrappers/generator/model/MethodModel.java:55-57 | appends exactly one thrown type at the end and changes nothing else |
| MethodModels.AddExceptionsKeepsCallOrder | modules/generator/src/main/java/net/sf/jwrappers/generator/model/MethodModel.java:55-57 | a sequence of additions appends the types in call order, repeats included, with no sorting or de-duplication |
| MethodModels.CollectImports | modules/generator/src/main/java/net/sf/jwrappers/generator/model/MethodModel.java:63-73 | the collector sees the return type only if present, then every argument type in order, then every thrown type in order, and never the body |
| MethodModels.VisitOrderOfAppends | modules/generator/src/main/java/net/sf/jwrappers/generator/model/MethodModel.java:41-73 | a new argument's type is visited after the earlier argument types and before all thrown types; a new thrown type is visited last |
| MethodModels.WriteSeparated | modules/generator/src/main/java/net/sf/jwrappers/generator/model/MethodModel.java:85-97 | the first-flag loop writes the parts in order with `", "` between neighbours only |
| MethodModels.Generate | modules/generator/src/main/java/net/sf/jwrappers/generator/model/MethodModel.java:75-114 | the output is the input followed by the declaration, `" {\n"`, the indented body text and `"}\n"` |
| MethodModels.DeclarationParts | modules/generator/src/main/java/net/sf/jwrappers/generator/model/MethodModel.java:76-110 | the declaration is `"public "`, the return type or `void`, a space, the name, the parameter list and the throws clause, in that order |
| MethodModels.DeclarationStartsWithReturnType | modules/generator/src/main/java/net/sf/jwrappers/generator/model/MethodModel.java:76-84 | the declaration begins with `"public "`, then `"void"` for no return type or the rendered return type, then a space, the name and `"("` |
| MethodModels.ParameterListShape | modules/generator/src/main/java/net/sf/jwrappers/generator/model/MethodModel.java:84-98 | the parameter list is `"()"` exactly when there are no arguments; a new argument adds `<type> <name>` before `")"`, after `", "` unless it is the first |
| MethodModels.ThrowsClauseShape | modules/generator/src/main/java/net/sf/jwrappers/generator/model/MethodModel.java:99-110 | the throws clause is non-empty exactly when there are thrown types, then starts with `" throws "`, and a further type lands at its end after `", "` |
| MethodModels.TwoUnnamedArgumentsAndExceptions | modules/generator/src/main/java/net/sf/jwrappers/generator/model/MethodModel.java:47-110 | a fresh method with two unnamed arguments and two thrown types declares exactly `public void <name>(<T0> arg0, <T1> arg1) throws <E1>, <E2>` |
| Javadoc.AddText | modules/generator/src/main/java/net/sf/jwrappers/generator/model/javadoc/JavadocModel.java:76-78 | appends exactly one text piece at the end, earlier pieces unchanged |
| Javadoc.AddClassLink | modules/generator/src/main/java/net/sf/jwrappers/generator/model/javadoc/JavadocModel.java:80-82 | appends exactly one class link at the end, earlier pieces unchanged |
| Javadoc.AddMethodLink | modules/generator/src/main/java/net/sf/jwrappers/generator/model/javadoc/JavadocModel.java:84-86 | appends exactly one method link at the end, earlier pieces unchanged |
| Javadoc.PieceEvents | modules/generator/src/main/java/net/sf/jwrappers/generator/model/javadoc/JavadocModel.java:25-71 | a piece only writes text: it never opens or ends the comment |
| Javadoc.TextPieceRoundTrip | modules/generator/src/main/java/net/sf/jwrappers/generator/model/javadoc/JavadocModel.java:25-31 | a text piece is one `writeln` of everything but its final `"\n"` when it ends in one, else one `write`; either way exactly its text reaches the writer |
| Javadoc.ClassLinkText | modules/generator/src/main/java/net/sf/jwrappers/generator/model/javadoc/JavadocModel.java:41-45 | a class link writes exactly `{@link <class>}` |
| Javadoc.SeparatedWritesText | modules/generator/src/main/java/net/sf/jwrappers/generator/model/javadoc/JavadocModel.java:61-69 | the first-flag loop over argument types writes their `", "`-joined list |
| Javadoc.MethodLinkText | modules/generator/src/main/java/net/sf/jwrappers/generator/model/javadoc/JavadocModel.java:55-71 | a method link writes exactly `{@link <owner>#<name>(<T1>, <T2>, ...)}` with the argument types in declaration order |
| Javadoc.MethodLinkIgnoresArgumentNames | modules/generator/src/main/java/net/sf/jwrappers/generator/model/javadoc/JavadocModel.java:61-69 | methods with the same name and argument types give the same link, whatever the argument names |
| Javadoc.Generate | modules/generator/src/main/java/net/sf/jwrappers/generator/model/javadoc/JavadocModel.java:88-96 | no pieces give no calls at all; otherwise the writer is opened, every piece is rendered in list order and `end()` follows |
| Javadoc.OpenAndEndOnce | modules/generator/src/main/java/net/sf/jwrappers/generator/model/javadoc/JavadocModel.java:88-96 | `end()` happens exactly once, as the last call, and the writer is created exactly once, first; with no pieces neither happens |
| Javadoc.AppendedPieceRendersLast | modules/generator/src/main/java/net/sf/jwrappers/generator/model/javadoc/JavadocModel.java:74-93 | an appended piece renders after all earlier pieces and just before `end()` |
| Trimming.Trimmed | src/main/java/net/sf/jdbcwrappers/trim/TrimmingResultSetInvocationHandler.java:121-128 | the result is a prefix of the input that does not end in a space, and everything removed is U+0020 |
| Trimming.TrimmedUnique | src/main/java/net/sf/jdbcwrappers/trim/TrimmingResultSetInvocationHandler.java:121-128 | only one string is such a prefix, so the contract fixes the result |
| Trimming.Trim | src/main/java/net/sf/jdbcwrappers/trim/TrimmingResultSetInvocationHandler.java:121-128 | the shortening loop returns that prefix |
| Trimming.TrimmedUnchangedIffNoTrailingSpace | src/main/java/net/sf/jdbcwrappers/trim/TrimmingResultSetInvocationHandler.java:124-127 | a string is returned unchanged exactly when it does not end in a space |
| Trimming.TrimmedIdempotent | src/main/java/net/sf/jdbcwrappers/trim/TrimmingResultSetInvocationHandler.java:121-128 | trimming twice equals trimming once |
| Trimming.TrimmedKeepsThroughLastNonSpace | src/main/java/net/sf/jdbcwrappers/trim/TrimmingResultSetInvocationHandler.java:124-127 | every character up to the last non-space one is kept, so leading spaces and trailing tabs survive |
| Trimming.AllSpacesTrimToEmpty | src/main/java/net/sf/jdbcwrappers/trim/TrimmingResultSetInvocationHandler.java:124-127 | an all-space string trims to the empty string |
| Trimming.FetchCharColumns | src/main/java/net/sf/jdbcwrappers/trim/TrimmingResultSetInvocationHandler.java:93-109 | an existing classification is returned unchanged; otherwise column i is marked CHAR exactly when its type is CHAR, and the name set is exactly the upper-cased names of the CHAR columns |
| Trimming.IsCharColumnAt | src/main/java/net/sf/jdbcwrappers/trim/TrimmingResultSetInvocationHandler.java:111-114 | an index is answered exactly when it lies in 1..column count; any other index is an index-out-of-bounds error |
| Trimming.LookupAtMatchesMetadata | src/main/java/net/sf/jdbcwrappers/trim/TrimmingResultSetInvocationHandler.java:99-114 | on a classification built from the metadata, index i answers whether column i's type is CHAR |
| Trimming.IsCharColumnNamed | src/main/java/net/sf/jdbcwrappers/trim/TrimmingResultSetInvocationHandler.java:116-119 | when the stored names are upper-cased, a name is CHAR exactly when some stored name equals it up to case |
| Trimming.ClassifiesUpperNames | src/main/java/net/sf/jdbcwrappers/trim/TrimmingResultSetInvocationHandler.java:99-103 | a classification built from metadata stores only upper-cased names |
| Trimming.LookupNamedMatchesMetadata | src/main/java/net/sf/jdbcwrappers/trim/TrimmingResultSetInvocationHandler.java:99-119 | on a classification built from the metadata, a name is CHAR exactly when some CHAR column has that name up to case |
| Trimming.LookupNamedIgnoresCase | src/main/java/net/sf/jdbcwrappers/trim/TrimmingResultSetInvocationHandler.java:116-119 | names equal up to case look up alike |
| Trimming.ReadColumn | src/main/java/net/sf/jdbcwrappers/trim/TrimmingResultSetInvocationHandler.java:72-80 | a first parameter that is neither int nor String raises IllegalStateException, exactly; an int index outside 1..column count raises the index error, exactly; otherwise the String comes back unchanged or trimmed |
| Trimming.ReadColumnMatchesMetadata | src/main/java/net/sf/jdbcwrappers/trim/TrimmingResultSetInvocationHandler.java:72-77 | on a classification built from the metadata, a read by index is trimmed exactly when that column's type is CHAR (an index outside 1..column count is an error), and a read by name exactly when some CHAR column has that name up to case |
| Trimming.InvokeAsWritten | src/main/java/net/sf/jdbcwrappers/trim/TrimmingResultSetInvocationHandler.java:65-70 | non-String results and other methods go to the proxy branch; a String read with at most one parameter raises IllegalStateException |
| Trimming.Invoke | src/main/java/net/sf/jdbcwrappers/trim/TrimmingResultSetInvocationHandler.java:65-80 | non-String results and other methods go to the proxy branch; a String read raises IllegalStateException exactly when the first parameter is missing or neither int nor String; a returned value is the String itself or its trimmed form |
| Trimming.InvokeByIndex | src/main/java/net/sf/jdbcwrappers/trim/TrimmingResultSetInvocationHandler.java:72-74 | a String read by index is trimmed exactly when that column's metadata type is CHAR; an index outside 1..column count is an error |
| Trimming.InvokeByName | src/main/java/net/sf/jdbcwrappers/trim/TrimmingResultSetInvocationHandler.java:75-77 | a String read by name is trimmed exactly when some CHAR column has that name up to case |
| Trimming.AsWrittenAgreesExceptOneParameter | src/main/java/net/sf/jdbcwrappers/trim/TrimmingResultSetInvocationHandler.java:68-70 | the handler as written and the corrected one decide alike on every call but one-parameter String reads |
| Trimming.AsWrittenRejectsGetStringByIndex | src/main/java/net/sf/jdbcwrappers/trim/TrimmingResultSetInvocationHandler.java:68-74 | `getString(1)` on a CHAR column holding `"AB  "` raises IllegalStateException as written, but returns `"AB"` once corrected |

## Findings

| source | as written | input that shows it | evidently intended | confidence | as-written member | corrected member |
|---|---|---|---|---|---|---|
| src/main/java/net/sf/jdbcwrappers/trim/TrimmingResultSetInvocationHandler.java:68-70 | `if (method.getParameterCount() <= 1) throw new IllegalStateException(...)` | `getString(1)` returning `"AB  "` from a CHAR column: the only parameter makes the count 1, so the call throws | only reads with no parameter are rejected, so `getString(int)`, `getString(String)`, `getObject(int)` and `getObject(String)` reach the CHAR test and return `"AB"` | high; not executed | Trimming.InvokeAsWritten, Trimming.AsWrittenRejectsGetStringByIndex | Trimming.Invoke |

## Left out

- `MType`, `Imports` and the import-collision rule: their code is not part of this model. Rendering a type is the parameter `render`, and collecting a type's imports is the parameter `visit`.
- `CodeModel` and `IndentCodeWriter`: the body's text through the indenting writer is the parameter `indentedBody`, so indentation widths and depths are not modelled.
- `JavadocWriter`: its comment layout (delimiters, line prefixes) is not modelled. Rendering yields the trace of calls made on it instead.
- `JavadocModel.java:57` calls `getClassModel()`, which MethodModel.java does not define. A method link stores its owning class instead.
- Javadoc.AddMethodLink: a link holds the linked method's value as it is when the link is added and renders that value. The Java link holds a live reference, so a `setName` or `createArgument` made after `addLink` shows up in the rendered link. The model does not capture that aliasing.
- Getters and setters of `MethodModel` (`getName`, `setName`, `setReturnType`, ...): these are the datatype's fields and update expressions.
- `arguments.size()` is a Java `int`. The model uses an unbounded count, since an argument list never holds 2^31 entries.
- Every null reference except the return type is left out. In Java these raise NullPointerException: a null argument type (MethodModel.java:68 and :93), a null thrown type (MethodModel.java:71 and :108), a null text piece (JavadocModel.java:26) and a null column name (TrimmingResultSetInvocationHandler.java:101 and :118). Null method or argument names go to writers whose code is not part of this model, so their effect is unknown. A null return type is `None`.
- The call on the wrapped result set (`MethodInvocation.invoke`, lines 62-63) and its exceptions are left out. The returned value is an input.
- The proxy-wrapping branch of `invoke` (lines 81-90) uses Java reflection and dynamic proxies. The model stops at `Delegated(result)`.
- `getMetaData()` and its SQLException are not modelled: the metadata is a given sequence. `Invoke` takes the classification as an input, so the model does not say when it is fetched. `FetchCharColumns` models the fetch and its null guard.
- Logging is left out.
- `toUpperCase()` is locale-sensitive and covers all of Unicode. The model upper-cases ASCII letters only.
- Trimming.Invoke: its own contract says a returned String is either unchanged or trimmed. Which of the two happens is stated by `InvokeByIndex` and `InvokeByName`.
- Trimming.FetchCharColumns: the metadata reads cannot fail in the model. In Java, `getColumnType(i)` or `getColumnName(i)` (TrimmingResultSetInvocationHandler.java:100-101) can throw SQLException after line 97 has already made `charColumns` non-null. The null guard at line 94 then keeps that half-built classification for good: CHAR columns after the failing one are never trimmed, and the fetch is not retried. The model always builds the whole classification.
- `PreparedStatementWrapper`, both `WrapperFactory` classes, `LoggingStatementWrapper`, `QueueReceiverWrapper`, `ProxyHelper`, `TrimmingDelegateInvocationHandler` and `RecursiveProxy` are delegation, factory wiring, logging and reflection, and are left out.
