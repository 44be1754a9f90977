/**
 The method model of the source generator: a method under construction
 (name, optional return type, ordered arguments, ordered thrown types and a
 body), the order in which it hands its types to the import collector, and
 the source text it renders.

 Types are a type parameter `T`. How a type prints (`MType.toString(imports)`,
 which consults the import registry) is the parameter `render`; the body's code
 model is a type parameter `B`, and the text it appends through a writer
 indented one level deeper is the parameter `indentedBody`. The output sink is
 a `string` that `write` extends with its text and `writeln` with its text and
 a line break.
 */
module MethodModels {
  import opened Optional
  import opened Text

  datatype Argument<T> = Argument(name: string, argType: T)

  datatype MethodModel<T, B> = MethodModel(
    returnType: Option<T>,   // None: the method returns nothing
    name: string,
    arguments: seq<Argument<T>>,
    exceptions: seq<T>,
    code: B)

  /** A freshly constructed method: no return type, no arguments, no exceptions. */
  function NewMethod<T, B>(name: string, code: B): MethodModel<T, B>
  {
    MethodModel(None, name, [], [], code)
  }

  /** Appends one argument with the given name and type and returns it. */
  function CreateArgument<T, B>(m: MethodModel<T, B>, name: string, argType: T): (r: (MethodModel<T, B>, Argument<T>))
    ensures r.1.name == name && r.1.argType == argType
    ensures |r.0.arguments| == |m.arguments| + 1
    ensures r.0.arguments[..|m.arguments|] == m.arguments
    ensures r.0.arguments[|m.arguments|] == r.1
    ensures r.0 == m.(arguments := r.0.arguments)
  {
    var argument := Argument(name, argType);
    (m.(arguments := m.arguments + [argument]), argument)
  }

  /** The name an unnamed argument receives at position `position`. */
  function AutoName(position: nat): string
  {
    "arg" + DecimalString(position)
  }

  /** Appends an argument named after the number of arguments already present. */
  function CreateUnnamedArgument<T, B>(m: MethodModel<T, B>, argType: T): (r: (MethodModel<T, B>, Argument<T>))
    ensures r.1 == Argument(AutoName(|m.arguments|), argType)
    ensures r.0.arguments == m.arguments + [r.1]
    ensures r.0 == m.(arguments := r.0.arguments)
  {
    CreateArgument(m, AutoName(|m.arguments|), argType)
  }

  /** Successive unnamed argument creations, one per type, in order. */
  function CreateUnnamedArguments<T, B>(m: MethodModel<T, B>, types: seq<T>): MethodModel<T, B>
    decreases |types|
  {
    if |types| == 0 then m else CreateUnnamedArguments(CreateUnnamedArgument(m, types[0]).0, types[1..])
  }

  /** Unnamed arguments are numbered by position: the k-th argument of the
      method is called `arg<k>`, earlier arguments stay as they were, and
      nothing but the argument list changes. */
  lemma {:induction false} UnnamedArgumentsAreNumbered<T, B>(m: MethodModel<T, B>, types: seq<T>)
    ensures var r := CreateUnnamedArguments(m, types);
      && r == m.(arguments := r.arguments)
      && |r.arguments| == |m.arguments| + |types|
      && r.arguments[..|m.arguments|] == m.arguments
      && forall i :: 0 <= i < |types| ==>
           r.arguments[|m.arguments| + i] == Argument(AutoName(|m.arguments| + i), types[i])
    decreases |types|
  {
    if |types| > 0 {
      var m1 := CreateUnnamedArgument(m, types[0]).0;
      UnnamedArgumentsAreNumbered(m1, types[1..]);
      var r := CreateUnnamedArguments(m, types);
      assert r == CreateUnnamedArguments(m1, types[1..]);
      assert r.arguments[..|m.arguments|] == m.arguments by {
        assert r.arguments[..|m1.arguments|][..|m.arguments|] == m.arguments;
      }
      forall i | 0 <= i < |types|
        ensures r.arguments[|m.arguments| + i] == Argument(AutoName(|m.arguments| + i), types[i])
      {
        if i == 0 {
          assert r.arguments[..|m1.arguments|][|m.arguments|] == m1.arguments[|m.arguments|];
        } else {
          assert types[1..][i - 1] == types[i];
        }
      }
    }
  }

  /** Different positions get different automatic names, so a method whose
      arguments are all unnamed has pairwise distinct argument names. */
  lemma AutoNamesDistinct(i: nat, j: nat)
    requires i != j
    ensures AutoName(i) != AutoName(j)
  {
    if AutoName(i) == AutoName(j) {
      assert DecimalString(i) == AutoName(i)[3..];
      assert DecimalString(j) == AutoName(j)[3..];
      DecimalStringInjective(i, j);
    }
  }

  /** Appends one thrown type. */
  function AddException<T, B>(m: MethodModel<T, B>, exception: T): (r: MethodModel<T, B>)
    ensures |r.exceptions| == |m.exceptions| + 1
    ensures r.exceptions[..|m.exceptions|] == m.exceptions
    ensures r.exceptions[|m.exceptions|] == exception
    ensures r == m.(exceptions := r.exceptions)
  {
    m.(exceptions := m.exceptions + [exception])
  }

  /** Successive `AddException` calls, one per type, in order. */
  function AddExceptions<T, B>(m: MethodModel<T, B>, exceptions: seq<T>): MethodModel<T, B>
    decreases |exceptions|
  {
    if |exceptions| == 0 then m else AddExceptions(AddException(m, exceptions[0]), exceptions[1..])
  }

  /** Thrown types keep their call order, repeats included: nothing is sorted
      or removed. */
  lemma {:induction false} AddExceptionsKeepsCallOrder<T, B>(m: MethodModel<T, B>, exceptions: seq<T>)
    ensures AddExceptions(m, exceptions) == m.(exceptions := m.exceptions + exceptions)
    decreases |exceptions|
  {
    if |exceptions| > 0 {
      var m1 := AddException(m, exceptions[0]);
      AddExceptionsKeepsCallOrder(m1, exceptions[1..]);
      assert m1.exceptions + exceptions[1..] == m.exceptions + exceptions;
    }
  }

  function ArgumentTypes<T>(arguments: seq<Argument<T>>): (ts: seq<T>)
  {
    seq(|arguments|, i requires 0 <= i < |arguments| => arguments[i].argType)
  }

  /** The types the import collector is shown, in order: the return type if
      there is one, every argument type, every thrown type. The body is not
      among them. */
  function VisitOrder<T, B>(m: MethodModel<T, B>): seq<T>
  {
    (if m.returnType.Some? then [m.returnType.value] else []) + ArgumentTypes(m.arguments) + m.exceptions
  }

  /** `visit` applied to `types` from first to last, starting from `state`. */
  function FoldVisits<S, T>(visit: (S, T) -> S, state: S, types: seq<T>): S
    decreases |types|
  {
    if |types| == 0 then state else visit(FoldVisits(visit, state, types[..|types| - 1]), types[|types| - 1])
  }

  lemma FoldVisitsSnoc<S, T>(visit: (S, T) -> S, state: S, types: seq<T>, t: T)
    ensures FoldVisits(visit, state, types + [t]) == visit(FoldVisits(visit, state, types), t)
  {
  }

  /** Hands every type of the signature to the import collector `visit`, whose
      state is `imports`, in `VisitOrder`. */
  method CollectImports<S, T, B>(m: MethodModel<T, B>, imports: S, visit: (S, T) -> S) returns (r: S)
    ensures r == FoldVisits(visit, imports, VisitOrder(m))
  {
    var seen: seq<T> := [];
    r := imports;
    if m.returnType.Some? {
      FoldVisitsSnoc(visit, imports, seen, m.returnType.value);
      r := visit(r, m.returnType.value);
      seen := [m.returnType.value];
    }
    var head := seen;
    var i := 0;
    while i < |m.arguments|
      invariant 0 <= i <= |m.arguments|
      invariant seen == head + ArgumentTypes(m.arguments)[..i]
      invariant r == FoldVisits(visit, imports, seen)
    {
      FoldVisitsSnoc(visit, imports, seen, m.arguments[i].argType);
      r := visit(r, m.arguments[i].argType);
      assert ArgumentTypes(m.arguments)[..i + 1] == ArgumentTypes(m.arguments)[..i] + [m.arguments[i].argType];
      seen := seen + [m.arguments[i].argType];
      i := i + 1;
    }
    assert ArgumentTypes(m.arguments)[..i] == ArgumentTypes(m.arguments);
    var middle := seen;
    var j := 0;
    while j < |m.exceptions|
      invariant 0 <= j <= |m.exceptions|
      invariant seen == middle + m.exceptions[..j]
      invariant r == FoldVisits(visit, imports, seen)
    {
      FoldVisitsSnoc(visit, imports, seen, m.exceptions[j]);
      r := visit(r, m.exceptions[j]);
      assert m.exceptions[..j + 1] == m.exceptions[..j] + [m.exceptions[j]];
      seen := seen + [m.exceptions[j]];
      j := j + 1;
    }
    assert m.exceptions[..j] == m.exceptions;
    assert seen == VisitOrder(m);
  }

  /** A new argument's type is visited after the earlier arguments' types and
      before every thrown type; a new thrown type is visited last. */
  lemma VisitOrderOfAppends<T, B>(m: MethodModel<T, B>, name: string, argType: T, exception: T)
    ensures var head := if m.returnType.Some? then [m.returnType.value] else [];
      VisitOrder(CreateArgument(m, name, argType).0) == head + ArgumentTypes(m.arguments) + [argType] + m.exceptions
    ensures VisitOrder(AddException(m, exception)) == VisitOrder(m) + [exception]
  {
  }

  // ---------------------------------------------------------------------
  // Rendering

  function ReturnTypeText<T>(returnType: Option<T>, render: T -> string): string
  {
    match returnType
    case None => "void"
    case Some(t) => render(t)
  }

  function RenderedTypes<T>(types: seq<T>, render: T -> string): seq<string>
  {
    seq(|types|, i requires 0 <= i < |types| => render(types[i]))
  }

  function ParameterText<T>(argument: Argument<T>, render: T -> string): string
  {
    render(argument.argType) + " " + argument.name
  }

  function ParameterTexts<T>(arguments: seq<Argument<T>>, render: T -> string): seq<string>
  {
    seq(|arguments|, i requires 0 <= i < |arguments| => ParameterText(arguments[i], render))
  }

  function ParameterList<T>(arguments: seq<Argument<T>>, render: T -> string): string
  {
    "(" + Join(ParameterTexts(arguments, render), ", ") + ")"
  }

  function ThrowsClause<T>(exceptions: seq<T>, render: T -> string): string
  {
    if |exceptions| == 0 then "" else " throws " + Join(RenderedTypes(exceptions, render), ", ")
  }

  /** The signature line without its opening brace. */
  function Declaration<T, B>(m: MethodModel<T, B>, render: T -> string): string
  {
    "public " + ReturnTypeText(m.returnType, render) + " " + m.name
      + "(" + Join(ParameterTexts(m.arguments, render), ", ") + ")" + ThrowsClause(m.exceptions, render)
  }

  /** The declaration is the return type (or `void`), the name, the
      parameter list and the throws clause, in that order. */
  lemma DeclarationParts<T, B>(m: MethodModel<T, B>, render: T -> string)
    ensures Declaration(m, render)
      == "public " + ReturnTypeText(m.returnType, render) + " " + m.name
         + ParameterList(m.arguments, render) + ThrowsClause(m.exceptions, render)
  {
  }

  /** Writes `parts` to the sink `out`, `", "` before every part but the first. */
  method WriteSeparated(out: string, parts: seq<string>) returns (r: string)
    ensures r == out + Join(parts, ", ")
  {
    r := out;
    var first := true;
    var i := 0;
    while i < |parts|
      invariant 0 <= i <= |parts|
      invariant first <==> i == 0
      invariant r == out + Join(parts[..i], ", ")
    {
      if first {
        first := false;
      } else {
        r := r + ", ";
      }
      r := r + parts[i];
      assert parts[..i + 1] == parts[..i] + [parts[i]];
      JoinSnoc(parts[..i], ", ", parts[i]);
      i := i + 1;
    }
    assert parts[..i] == parts;
  }

  /** Writes the method to the sink `out`: the declaration, `" {"` and a line
      break, the body through a writer one level deeper, then `"}"` and a line
      break at the original depth. */
  method Generate<T, B>(out: string, m: MethodModel<T, B>, render: T -> string, indentedBody: B -> string)
    returns (r: string)
    ensures r == out + Declaration(m, render) + " {\n" + indentedBody(m.code) + "}\n"
  {
    var line := "public ";
    if m.returnType.None? {
      line := line + "void";
    } else {
      line := line + render(m.returnType.value);
    }
    line := line + " " + m.name;
    line := WriteSeparated(line + "(", ParameterTexts(m.arguments, render));
    line := line + ")";
    if |m.exceptions| > 0 {
      var beforeThrows := line;
      line := WriteSeparated(line + " throws ", RenderedTypes(m.exceptions, render));
      AppendAssoc(beforeThrows, " throws ", Join(RenderedTypes(m.exceptions, render), ", "));
    }
    r := out + line;
    r := r + " {\n";
    r := r + indentedBody(m.code);
    r := r + "}\n";
  }

  /** The declaration opens with `"public "` and the return type, or `"void"`
      when there is none, followed by a space and the method name. */
  lemma DeclarationStartsWithReturnType<T, B>(m: MethodModel<T, B>, render: T -> string)
    ensures var lead := "public " + (if m.returnType.None? then "void" else render(m.returnType.value)) + " " + m.name + "(";
      |lead| <= |Declaration(m, render)| && Declaration(m, render)[..|lead|] == lead
  {
  }

  /** The parameter list is `"()"` exactly when there are no arguments, and
      adding an argument appends `", <type> <name>"` (or `"<type> <name>"` for
      the first) just before the closing parenthesis. */
  lemma {:induction false} ParameterListShape<T>(arguments: seq<Argument<T>>, argument: Argument<T>, render: T -> string)
    ensures ParameterList(arguments, render) == "()" <==> |arguments| == 0
    ensures ParameterList(arguments + [argument], render)
      == (if |arguments| == 0 then "(" else "(" + Join(ParameterTexts(arguments, render), ", ") + ", ")
         + render(argument.argType) + " " + argument.name + ")"
  {
    var ps := ParameterTexts(arguments, render);
    assert ParameterTexts(arguments + [argument], render) == ps + [ParameterText(argument, render)];
    JoinSnoc(ps, ", ", ParameterText(argument, render));
    if |arguments| > 0 {
      var joined := Join(ps, ", ");
      if ParameterList(arguments, render) == "()" {
        assert |joined| == 0;
        JoinLengthLowerBound(ps, ", ");
      }
    }
  }

  lemma {:induction false} JoinLengthLowerBound(parts: seq<string>, sep: string)
    requires |parts| > 0
    ensures |Join(parts, sep)| >= |parts[0]| + |sep| * (|parts| - 1)
    decreases |parts|
  {
    if |parts| > 1 {
      JoinLengthLowerBound(parts[1..], sep);
    }
  }

  /** The throws clause is present exactly when there are thrown types; it
      lists them in declaration order, and a later `AddException` lands at its
      end. */
  lemma ThrowsClauseShape<T>(exceptions: seq<T>, exception: T, render: T -> string)
    ensures ThrowsClause(exceptions, render) == "" <==> |exceptions| == 0
    ensures |exceptions| > 0 ==> ThrowsClause(exceptions, render)[..8] == " throws "
    ensures ThrowsClause(exceptions + [exception], render)
      == (if |exceptions| == 0 then " throws " else ThrowsClause(exceptions, render) + ", ") + render(exception)
  {
    var rs := RenderedTypes(exceptions, render);
    assert RenderedTypes(exceptions + [exception], render) == rs + [render(exception)];
    JoinSnoc(rs, ", ", render(exception));
  }

  /** Two unnamed arguments added to a fresh method render as
      `(<T0> arg0, <T1> arg1)`, and two thrown types as `throws <E1>, <E2>`. */
  lemma TwoUnnamedArgumentsAndExceptions<T, B>(name: string, code: B, t0: T, t1: T, e1: T, e2: T, render: T -> string)
    ensures var m := AddExceptions(CreateUnnamedArguments(NewMethod(name, code), [t0, t1]), [e1, e2]);
      && ReturnTypeText(m.returnType, render) == "void"
      && Join(ParameterTexts(m.arguments, render), ", ") == render(t0) + " arg0" + ", " + render(t1) + " arg1"
      && ThrowsClause(m.exceptions, render) == " throws " + render(e1) + ", " + render(e2)
      && Declaration(m, render)
         == "public void " + name + "(" + render(t0) + " arg0, " + render(t1) + " arg1)"
            + " throws " + render(e1) + ", " + render(e2)
  {
    var m0: MethodModel<T, B> := NewMethod(name, code);
    UnnamedArgumentsAreNumbered(m0, [t0, t1]);
    var m1 := CreateUnnamedArguments(m0, [t0, t1]);
    AddExceptionsKeepsCallOrder(m1, [e1, e2]);
    var m := AddExceptions(m1, [e1, e2]);
    assert AutoName(0) == "arg0";
    assert AutoName(1) == "arg1";
    assert m.arguments == [Argument("arg0", t0), Argument("arg1", t1)];
    var p0 := ParameterText(m.arguments[0], render);
    var p1 := ParameterText(m.arguments[1], render);
    AppendAssoc(render(t0), " ", "arg0");
    AppendAssoc(render(t1), " ", "arg1");
    assert ParameterTexts(m.arguments, render) == [p0, p1];
    assert Join([p0, p1], ", ") == p0 + ", " + p1;
    assert m.exceptions == [e1, e2];
    assert RenderedTypes(m.exceptions, render) == [render(e1), render(e2)];
    assert Join([render(e1), render(e2)], ", ") == render(e1) + ", " + render(e2);
    DeclarationOfTwoAndTwo(name, render(t0), render(t1), render(e1), render(e2));
  }

  lemma DeclarationOfTwoAndTwo(name: string, a0: string, a1: string, x1: string, x2: string)
    ensures "public " + "void" + " " + name + "(" + (a0 + " arg0" + ", " + a1 + " arg1") + ")" + (" throws " + x1 + ", " + x2)
      == "public void " + name + "(" + a0 + " arg0, " + a1 + " arg1)" + " throws " + x1 + ", " + x2
  {
    assert "public " + "void" + " " == "public void ";
    assert a0 + " arg0" + ", " == a0 + " arg0, ";
    assert a1 + " arg1" + ")" == a1 + " arg1)";
  }
}
