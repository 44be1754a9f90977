/**
 The documentation-comment model of the source generator: an ordered list of
 pieces (literal text, a link to a class, a link to a method) rendered through
 a documentation-comment writer.

 That writer's own formatting is not part of this model, so rendering yields
 the trace of calls made on it: `Open` for its construction, `Write` and
 `WriteLine` for `write` and `writeln`, and `End` for `end()`. `WrittenText`
 flattens a trace to the text handed over. Types print through `render`, as in
 the method model.
 */
module Javadoc {
  import opened Text
  import opened MethodModels

  datatype Event = Open | Write(text: string) | WriteLine(text: string) | End

  datatype Piece<T, B> =
    | TextPiece(text: string)
    | ClassLink(className: T)
    | MethodLink(owner: T, target: MethodModel<T, B>)   // owner: the class declaring `target`

  datatype JavadocModel<T, B> = JavadocModel(pieces: seq<Piece<T, B>>)

  /** A `write` or `writeln`, as opposed to opening or ending the comment. */
  predicate IsTextEvent(e: Event) {
    e.Write? || e.WriteLine?
  }

  /** Every event of the trace is a `write` or a `writeln`. */
  predicate AllText(events: seq<Event>) {
    forall i :: 0 <= i < |events| ==> IsTextEvent(events[i])
  }

  /** The text one call hands to the writer; `writeln` adds one line break. */
  function EventText(e: Event): string {
    match e
    case Write(t) => t
    case WriteLine(t) => t + "\n"
    case _ => ""
  }

  /** The text a trace hands to the writer, call after call. */
  function WrittenText(events: seq<Event>): string
    decreases |events|
  {
    if |events| == 0 then "" else WrittenText(events[..|events| - 1]) + EventText(events[|events| - 1])
  }

  lemma {:induction false} WrittenTextAppend(a: seq<Event>, b: seq<Event>)
    ensures WrittenText(a + b) == WrittenText(a) + WrittenText(b)
    decreases |b|
  {
    if |b| > 0 {
      var b' := b[..|b| - 1];
      assert (a + b)[..|a + b| - 1] == a + b';
      assert (a + b)[|a + b| - 1] == b[|b| - 1];
      WrittenTextAppend(a, b');
      AppendAssoc(WrittenText(a), WrittenText(b'), EventText(b[|b| - 1]));
    } else {
      assert a + b == a;
    }
  }

  lemma WrittenTextSingle(e: Event)
    ensures WrittenText([e]) == EventText(e)
  {
  }

  lemma WrittenTextPair(e1: Event, e2: Event)
    ensures WrittenText([e1, e2]) == EventText(e1) + EventText(e2)
  {
    assert [e1, e2][..1] == [e1];
    assert [e1][..0] == [];
    assert WrittenText([e1]) == "" + EventText(e1);
    assert "" + EventText(e1) == EventText(e1);
  }

  function AddPiece<T, B>(j: JavadocModel<T, B>, piece: Piece<T, B>): (r: JavadocModel<T, B>)
    ensures |r.pieces| == |j.pieces| + 1
    ensures r.pieces[..|j.pieces|] == j.pieces
    ensures r.pieces[|j.pieces|] == piece
  {
    JavadocModel(j.pieces + [piece])
  }

  /** Appends one text piece. */
  function AddText<T, B>(j: JavadocModel<T, B>, text: string): (r: JavadocModel<T, B>)
    ensures |r.pieces| == |j.pieces| + 1
    ensures r.pieces[..|j.pieces|] == j.pieces
    ensures r.pieces[|j.pieces|] == TextPiece(text)
  {
    AddPiece(j, TextPiece(text))
  }

  /** Appends one link to a class. */
  function AddClassLink<T, B>(j: JavadocModel<T, B>, className: T): (r: JavadocModel<T, B>)
    ensures |r.pieces| == |j.pieces| + 1
    ensures r.pieces[..|j.pieces|] == j.pieces
    ensures r.pieces[|j.pieces|] == ClassLink(className)
  {
    AddPiece(j, ClassLink(className))
  }

  /** Appends one link to method `target` of class `owner`. */
  function AddMethodLink<T, B>(j: JavadocModel<T, B>, owner: T, target: MethodModel<T, B>): (r: JavadocModel<T, B>)
    ensures |r.pieces| == |j.pieces| + 1
    ensures r.pieces[..|j.pieces|] == j.pieces
    ensures r.pieces[|j.pieces|] == MethodLink(owner, target)
  {
    AddPiece(j, MethodLink(owner, target))
  }

  predicate EndsWithNewline(text: string) {
    |text| > 0 && text[|text| - 1] == '\n'
  }

  /** `texts` written one by one, with a `", "` written before every one but
      the first. */
  function SeparatedWrites(texts: seq<string>): (events: seq<Event>)
    ensures AllText(events)
    decreases |texts|
  {
    if |texts| == 0 then []
    else if |texts| == 1 then [Write(texts[0])]
    else SeparatedWrites(texts[..|texts| - 1]) + [Write(", "), Write(texts[|texts| - 1])]
  }

  /** The separated writes hand over exactly the joined text. */
  lemma {:induction false} SeparatedWritesText(texts: seq<string>)
    ensures WrittenText(SeparatedWrites(texts)) == Join(texts, ", ")
    decreases |texts|
  {
    if |texts| > 1 {
      var init := texts[..|texts| - 1];
      var last := texts[|texts| - 1];
      SeparatedWritesText(init);
      WrittenTextAppend(SeparatedWrites(init), [Write(", "), Write(last)]);
      WrittenTextPair(Write(", "), Write(last));
      assert init + [last] == texts;
      JoinSnoc(init, ", ", last);
    }
  }

  /** The calls one piece makes on the comment writer. */
  function PieceEvents<T, B>(piece: Piece<T, B>, render: T -> string): (events: seq<Event>)
    ensures AllText(events)
  {
    match piece
    case TextPiece(text) =>
      if EndsWithNewline(text) then [WriteLine(text[..|text| - 1])] else [Write(text)]
    case ClassLink(className) =>
      [Write("{@link "), Write(render(className)), Write("}")]
    case MethodLink(owner, target) =>
      [Write("{@link "), Write(render(owner)), Write("#"), Write(target.name), Write("(")]
        + SeparatedWrites(RenderedTypes(ArgumentTypes(target.arguments), render))
        + [Write(")}")]
  }

  /** A text piece is handed over unchanged: as one `writeln` of everything
      but its final line break when it ends in one, as one `write` otherwise. */
  lemma TextPieceRoundTrip<T, B>(text: string, render: T -> string)
    ensures var events := PieceEvents(Piece<T, B>.TextPiece(text), render);
      && |events| == 1
      && (events[0].WriteLine? <==> EndsWithNewline(text))
      && WrittenText(events) == text
  {
  }

  /** A class link hands over `{@link <class>}`. */
  lemma ClassLinkText<T, B>(className: T, render: T -> string)
    ensures WrittenText(PieceEvents(Piece<T, B>.ClassLink(className), render)) == "{@link " + render(className) + "}"
  {
    var events := PieceEvents(Piece<T, B>.ClassLink(className), render);
    assert events == [Write("{@link "), Write(render(className))] + [Write("}")];
    WrittenTextAppend([Write("{@link "), Write(render(className))], [Write("}")]);
    WrittenTextPair(Write("{@link "), Write(render(className)));
    assert [Write("}")][..0] == [];
  }

  /** A method link hands over `{@link <owner>#<name>(<T1>, <T2>, ...)}`: the
      argument types in declaration order, never the argument names. */
  lemma MethodLinkText<T, B>(owner: T, target: MethodModel<T, B>, render: T -> string)
    ensures WrittenText(PieceEvents(MethodLink(owner, target), render))
      == "{@link " + render(owner) + "#" + target.name + "("
         + Join(RenderedTypes(ArgumentTypes(target.arguments), render), ", ") + ")}"
  {
    var types := RenderedTypes(ArgumentTypes(target.arguments), render);
    var h2 := [Write("{@link "), Write(render(owner))];
    var h3 := [Write("#"), Write(target.name)];
    var args := SeparatedWrites(types);
    var events := PieceEvents(MethodLink(owner, target), render);
    assert events == h2 + h3 + [Write("(")] + args + [Write(")}")];
    WrittenTextAppend(h2 + h3 + [Write("(")] + args, [Write(")}")]);
    WrittenTextAppend(h2 + h3 + [Write("(")], args);
    WrittenTextAppend(h2 + h3, [Write("(")]);
    WrittenTextAppend(h2, h3);
    WrittenTextPair(Write("{@link "), Write(render(owner)));
    WrittenTextPair(Write("#"), Write(target.name));
    WrittenTextSingle(Write("("));
    WrittenTextSingle(Write(")}"));
    SeparatedWritesText(types);
    var left := "{@link " + render(owner);
    AppendAssoc(left, "#", target.name);
  }

  /** Two methods whose argument types agree produce the same link, whatever
      their arguments are called. */
  lemma MethodLinkIgnoresArgumentNames<T, B>(owner: T, m1: MethodModel<T, B>, m2: MethodModel<T, B>, render: T -> string)
    requires m1.name == m2.name
    requires |m1.arguments| == |m2.arguments|
    requires forall i :: 0 <= i < |m1.arguments| ==> m1.arguments[i].argType == m2.arguments[i].argType
    ensures PieceEvents(MethodLink(owner, m1), render) == PieceEvents(MethodLink(owner, m2), render)
  {
    assert ArgumentTypes(m1.arguments) == ArgumentTypes(m2.arguments);
  }

  /** The pieces' calls, one piece after another in list order. */
  function PiecesEvents<T, B>(pieces: seq<Piece<T, B>>, render: T -> string): (events: seq<Event>)
    ensures AllText(events)
    decreases |pieces|
  {
    if |pieces| == 0 then []
    else PiecesEvents(pieces[..|pieces| - 1], render) + PieceEvents(pieces[|pieces| - 1], render)
  }

  lemma PiecesEventsSnoc<T, B>(pieces: seq<Piece<T, B>>, piece: Piece<T, B>, render: T -> string)
    ensures PiecesEvents(pieces + [piece], render) == PiecesEvents(pieces, render) + PieceEvents(piece, render)
  {
  }

  /** The whole comment: nothing at all for no pieces; otherwise the writer is
      opened, every piece is rendered in order, and the comment is ended. */
  function Rendering<T, B>(j: JavadocModel<T, B>, render: T -> string): seq<Event>
  {
    if |j.pieces| == 0 then [] else [Open] + PiecesEvents(j.pieces, render) + [End]
  }

  /** Renders the comment, piece by piece, into a fresh writer. */
  method Generate<T, B>(j: JavadocModel<T, B>, render: T -> string) returns (events: seq<Event>)
    ensures events == [] <==> |j.pieces| == 0
    ensures events == Rendering(j, render)
  {
    events := [];
    if |j.pieces| > 0 {
      events := [Open];
      var i := 0;
      while i < |j.pieces|
        invariant 0 <= i <= |j.pieces|
        invariant events == [Open] + PiecesEvents(j.pieces[..i], render)
      {
        assert j.pieces[..i + 1] == j.pieces[..i] + [j.pieces[i]];
        PiecesEventsSnoc(j.pieces[..i], j.pieces[i], render);
        AppendAssoc([Open], PiecesEvents(j.pieces[..i], render), PieceEvents(j.pieces[i], render));
        events := events + PieceEvents(j.pieces[i], render);
        i := i + 1;
      }
      assert j.pieces[..i] == j.pieces;
      events := events + [End];
    }
  }

  /** `end()` is called exactly once, after the last piece, and the writer is
      created exactly once, before the first; with no pieces neither happens. */
  lemma OpenAndEndOnce<T, B>(j: JavadocModel<T, B>, render: T -> string)
    ensures var events := Rendering(j, render);
      && (forall i :: 0 <= i < |events| ==> (events[i] == End <==> |j.pieces| > 0 && i == |events| - 1))
      && (forall i :: 0 <= i < |events| ==> (events[i] == Open <==> |j.pieces| > 0 && i == 0))
  {
  }

  /** A piece appended to a non-empty comment is rendered after every earlier
      piece and before `end()`; appended to an empty one it is the only piece. */
  lemma AppendedPieceRendersLast<T, B>(j: JavadocModel<T, B>, piece: Piece<T, B>, render: T -> string)
    ensures var before := Rendering(j, render);
      Rendering(AddPiece(j, piece), render)
        == (if |j.pieces| == 0 then [Open] else before[..|before| - 1]) + PieceEvents(piece, render) + [End]
  {
  }
}
