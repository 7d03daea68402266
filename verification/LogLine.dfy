/** Exactly which unfiltered attribute lists slog's JSON writer turns into a readable line, and what the line
    then holds. */
module LogLine {
  import opened Wrappers
  import opened LogAttrs
  import opened LogSanitize
  import opened LogStd
  import opened LogText

  // ---------------------------------------------------------------- fields with the separators actually written

  /** A field as it stands in the text: the separator before it may be missing, a late time writes two strings. */
  datatype Piece = Piece(comma: bool, name: string, content: PieceContent)
  datatype PieceContent = One(json: string) | Two(stamp: string) | Nested(members: seq<Piece>)

  function PiecesText(pieces: seq<Piece>): seq<Token>
    decreases pieces
  {
    if pieces == [] then []
    else Separator(pieces[0].comma) + [Name(pieces[0].name)] + ContentText(pieces[0].content) + PiecesText(pieces[1..])
  }

  function ContentText(content: PieceContent): seq<Token>
    decreases content
  {
    match content
    case One(json) => [Text(json)]
    case Two(stamp) => [Text(ERROR_TEXT), Text(stamp)]
    case Nested(members) => [OpenBrace] + PiecesText(members) + [CloseBrace]
  }

  /** A separator before every field but the first, one value under every key. */
  predicate WellFormed(pieces: seq<Piece>, comma: bool)
    decreases pieces
  {
    pieces == [] || (pieces[0].comma == comma && WellFormedContent(pieces[0].content) && WellFormed(pieces[1..], true))
  }

  predicate WellFormedContent(content: PieceContent)
    decreases content
  {
    match content
    case One(_) => true
    case Two(_) => false
    case Nested(members) => WellFormed(members, false)
  }

  function FieldsOf(pieces: seq<Piece>): seq<Field>
    decreases pieces
  {
    if pieces == [] then [] else [Field(pieces[0].name, ContentOf(pieces[0].content))] + FieldsOf(pieces[1..])
  }

  function ContentOf(content: PieceContent): Content
    decreases content
  {
    match content
    case One(json) => Content.Raw(json)
    case Two(stamp) => Garbled(stamp)
    case Nested(members) => Object(FieldsOf(members))
  }

  lemma {:induction false} PiecesTextFirst(pieces: seq<Piece>, tail: seq<Token>)
    requires pieces != []
    ensures PiecesText(pieces) + tail
         == Separator(pieces[0].comma) + ([Name(pieces[0].name)] + (ContentText(pieces[0].content) + (PiecesText(pieces[1..]) + tail)))
  {
    var sep, name, content, rest := Separator(pieces[0].comma), [Name(pieces[0].name)], ContentText(pieces[0].content), PiecesText(pieces[1..]);
    Assoc(sep + name + content, rest, tail);
    Assoc(sep + name, content, rest + tail);
    Assoc(sep, name, content + (rest + tail));
  }

  /** Reading one field: what follows is read as further fields, or the defect inside it is noticed. */
  lemma {:induction false} PieceParses(name: string, content: PieceContent, more: seq<Token>)
    ensures ParseNext([Name(name)] + (ContentText(content) + more))
         == if WellFormedContent(content) then ParseMore(Field(name, ContentOf(content)), more) else None
    decreases content
  {
    var tokens := [Name(name)] + (ContentText(content) + more);
    match content
    case One(json) =>
      assert tokens[2..] == more;
    case Two(stamp) =>
      assert tokens == [Name(name), Text(ERROR_TEXT)] + ([Text(stamp)] + more);
      assert tokens[2..] == [Text(stamp)] + more;
      assert ParseFields(tokens[2..], true) == None;
    case Nested(members) =>
      var closing := [CloseBrace] + more;
      assert closing[1..] == more;
      Assoc([OpenBrace], PiecesText(members), [CloseBrace]);
      Assoc([OpenBrace], PiecesText(members) + [CloseBrace], more);
      Assoc(PiecesText(members), [CloseBrace], more);
      assert tokens == [Name(name), OpenBrace] + (PiecesText(members) + closing);
      assert tokens[2..] == PiecesText(members) + closing;
      PiecesParse(members, false, closing);
  }

  /** The parser accepts exactly the well-formed texts. */
  lemma {:induction false} PiecesParse(pieces: seq<Piece>, comma: bool, tail: seq<Token>)
    requires tail == [] || tail[0].CloseBrace?
    ensures ParseFields(PiecesText(pieces) + tail, comma)
         == if WellFormed(pieces, comma) then Some(Parsed(FieldsOf(pieces), tail)) else None
    decreases pieces
  {
    if pieces == [] {
      assert PiecesText(pieces) + tail == tail;
    } else {
      var r := pieces[0];
      var more := PiecesText(pieces[1..]) + tail;
      var body := [Name(r.name)] + (ContentText(r.content) + more);
      PiecesTextFirst(pieces, tail);
      PieceParses(r.name, r.content, more);
      PiecesParse(pieces[1..], true, tail);
      assert r.comma ==> ([Comma] + body)[1..] == body;
      assert !r.comma ==> [] + body == body;
    }
  }

  lemma {:induction false} PiecesTextConcat(a: seq<Piece>, b: seq<Piece>)
    ensures PiecesText(a + b) == PiecesText(a) + PiecesText(b)
    decreases |a|
  {
    if a == [] {
      assert a + b == b;
    } else {
      assert (a + b)[1..] == a[1..] + b;
      PiecesTextConcat(a[1..], b);
    }
  }

  lemma {:induction false} FieldsOfConcat(a: seq<Piece>, b: seq<Piece>)
    ensures FieldsOf(a + b) == FieldsOf(a) + FieldsOf(b)
    decreases |a|
  {
    if a == [] {
      assert a + b == b;
    } else {
      assert (a + b)[1..] == a[1..] + b;
      FieldsOfConcat(a[1..], b);
    }
  }

  // ---------------------------------------------------------------- what the writer writes

  /** A correct writer's fields. */
  function FieldPieces(fields: seq<Field>, comma: bool): seq<Piece>
    requires forall i :: 0 <= i < |fields| ==> fields[i].content.Raw?
  {
    if fields == [] then []
    else [Piece(comma, fields[0].name, One(fields[0].content.json))] + FieldPieces(fields[1..], true)
  }

  /** What the writer did with an attribute: its verdict, the fields added and the separator left behind. */
  datatype Effect = Effect(rendered: bool, pieces: seq<Piece>, comma: bool)

  function Enclose(key: string, before: bool, inner: Effect): Effect {
    if !inner.rendered then Effect(false, [], inner.comma)
    else if key == "" then inner
    else Effect(true, [Piece(before, key, Nested(inner.pieces))], true)
  }

  function WriteAttr(a: Attr, comma: bool): Effect
    decreases a
  {
    match Resolve(a.value)
    case Plain(json) => Effect(true, [Piece(comma, a.key, One(json))], true)
    case Nil => if a.key == "" then Effect(false, [], comma) else Effect(true, [Piece(comma, a.key, One("null"))], true)
    case Time(year, stamp) => Effect(true, [Piece(comma, a.key, if EncodableYear(year) then One(stamp) else Two(stamp))], true)
    case Failure(nilPointer, message) =>
      Effect(true, [Piece(comma, a.key, One(if nilPointer then "<nil>" else message))], true)
    case Source(nilPointer, function_, file, line) =>
      var v := Source(nilPointer, function_, file, line);
      if EmptySource(v) then Effect(false, [], comma)
      else Enclose(a.key, comma, Effect(true, FieldPieces(SourceFields(v), a.key == "" && comma), true))
    case Group(attrs) =>
      if attrs == [] then Effect(true, [], comma)
      else Enclose(a.key, comma, WriteAttrs(attrs, a.key == "" && comma))
  }

  function WriteAttrs(attrs: seq<Attr>, comma: bool): Effect
    decreases attrs
  {
    if attrs == [] then Effect(false, [], comma)
    else
      var first := WriteAttr(attrs[0], comma);
      var rest := WriteAttrs(attrs[1..], first.comma);
      Effect(first.rendered || rest.rendered, first.pieces + rest.pieces, rest.comma)
  }

  lemma {:induction false} FieldPiecesText(fields: seq<Field>, comma: bool)
    requires forall i :: 0 <= i < |fields| ==> fields[i].content.Raw?
    ensures PiecesText(FieldPieces(fields, comma)) == Print(fields, comma)
    ensures FieldsOf(FieldPieces(fields, comma)) == fields
    decreases |fields|
  {
    if fields != [] {
      FieldPiecesText(fields[1..], true);
    }
  }

  function Result(b: Buffer, e: Effect): (bool, Buffer) {
    (e.rendered, Buffer(b.text + PiecesText(e.pieces), e.comma))
  }

  lemma {:induction false} OneField(b: Buffer, name: string, content: PieceContent)
    ensures Append(b, name, ContentText(content)) == Buffer(b.text + PiecesText([Piece(b.comma, name, content)]), true)
  {
    assert [Piece(b.comma, name, content)][1..] == [];
    var tokens := Separator(b.comma) + [Name(name)] + ContentText(content);
    assert tokens + [] == tokens;
  }

  lemma Enclosed(b: Buffer, key: string, inner: Effect)
    requires inner.rendered
    ensures CloseGroup(Result(OpenGroup(b, key), inner).1, key) == Result(b, Enclose(key, b.comma, inner)).1
  {
    if key != "" {
      OneField(b, key, Nested(inner.pieces));
      var head, text := Separator(b.comma) + [Name(key)], PiecesText(inner.pieces);
      Assoc(head, [OpenBrace], text);
      Assoc(head, [OpenBrace] + text, [CloseBrace]);
      Assoc(b.text, head + [OpenBrace], text);
      Assoc(b.text, head + [OpenBrace] + text, [CloseBrace]);
    }
  }

  /** The writer's text, field by field. */
  lemma {:induction false} WriterText(a: Attr, b: Buffer)
    ensures SlogAttr(a, b) == Result(b, WriteAttr(a, b.comma))
    decreases a
  {
    var v := Resolve(a.value);
    assert b.text + [] == b.text;
    if v.Group? {
      if v.attrs != [] {
        var open := OpenGroup(b, a.key);
        WriterTexts(v.attrs, open);
        var inner := WriteAttrs(v.attrs, open.comma);
        if inner.rendered { Enclosed(b, a.key, inner); }
      }
    } else {
      LeafText(a, b);
    }
  }

  lemma {:induction false} LeafText(a: Attr, b: Buffer)
    requires !Resolve(a.value).Group?
    ensures SlogAttr(a, b) == Result(b, WriteAttr(a, b.comma))
  {
    var v := Resolve(a.value);
    assert b.text + [] == b.text;
    match v
    case Plain(json) => OneField(b, a.key, One(json));
    case Nil => OneField(b, a.key, One("null"));
    case Time(year, stamp) => OneField(b, a.key, if EncodableYear(year) then One(stamp) else Two(stamp));
    case Failure(nilPointer, message) => OneField(b, a.key, One(if nilPointer then "<nil>" else message));
    case Source(_, _, _, _) => LocationText(a, b);
  }

  lemma {:induction false} LocationText(a: Attr, b: Buffer)
    requires Resolve(a.value).Source?
    ensures SlogAttr(a, b) == Result(b, WriteAttr(a, b.comma))
  {
    var v := Resolve(a.value);
    assert b.text + [] == b.text;
    if !EmptySource(v) {
      var open := OpenGroup(b, a.key);
      FieldPiecesText(SourceFields(v), open.comma);
      Enclosed(b, a.key, Effect(true, FieldPieces(SourceFields(v), open.comma), true));
    }
  }

  lemma {:induction false} WriterTexts(attrs: seq<Attr>, b: Buffer)
    ensures SlogAttrs(attrs, b) == Result(b, WriteAttrs(attrs, b.comma))
    decreases attrs
  {
    if attrs == [] {
      assert b.text + [] == b.text;
    } else {
      var first := WriteAttr(attrs[0], b.comma);
      WriterText(attrs[0], b);
      WriterTexts(attrs[1..], Result(b, first).1);
      var rest := WriteAttrs(attrs[1..], first.comma);
      PiecesTextConcat(first.pieces, rest.pieces);
      Assoc(b.text, PiecesText(first.pieces), PiecesText(rest.pieces));
    }
  }

  // ---------------------------------------------------------------- the text writer and the tree writer

  /** Off the filter too, the two descriptions of slog's writer agree on what renders and on the fields; only
      separators can be lost. */
  lemma {:induction false} WritersAgree(a: Attr, comma: bool)
    ensures WriteAttr(a, comma).rendered == StdAttr(a).rendered
    ensures FieldsOf(WriteAttr(a, comma).pieces) == StdAttr(a).fields
    ensures !WriteAttr(a, comma).rendered ==> WriteAttr(a, comma).pieces == []
    decreases a
  {
    var v := Resolve(a.value);
    if !v.Group? {
      WritersAgreeOnLeaves(a, comma);
    } else if v.attrs != [] {
      WritersAgreeOnLists(v.attrs, a.key == "" && comma);
      EncloseAgrees(a.key, comma, WriteAttrs(v.attrs, a.key == "" && comma), StdAttrs(v.attrs));
    }
  }

  lemma EncloseAgrees(key: string, comma: bool, inner: Effect, w: Written)
    requires inner.rendered == w.rendered && FieldsOf(inner.pieces) == w.fields && (!inner.rendered ==> inner.pieces == [])
    ensures var e := Enclose(key, comma, inner);
            e.rendered == Nest(key, w).rendered && FieldsOf(e.pieces) == Nest(key, w).fields && (!e.rendered ==> e.pieces == [])
  {
    if inner.rendered && key != "" { assert [Piece(comma, key, Nested(inner.pieces))][1..] == []; }
  }

  lemma {:induction false} WritersAgreeOnLeaves(a: Attr, comma: bool)
    requires !Resolve(a.value).Group?
    ensures WriteAttr(a, comma).rendered == StdAttr(a).rendered
    ensures FieldsOf(WriteAttr(a, comma).pieces) == StdAttr(a).fields
    ensures !WriteAttr(a, comma).rendered ==> WriteAttr(a, comma).pieces == []
  {
    var v := Resolve(a.value);
    if v.Source? && !EmptySource(v) {
      FieldPiecesText(SourceFields(v), a.key == "" && comma);
    }
  }

  lemma {:induction false} WritersAgreeOnLists(attrs: seq<Attr>, comma: bool)
    ensures WriteAttrs(attrs, comma).rendered == StdAttrs(attrs).rendered
    ensures FieldsOf(WriteAttrs(attrs, comma).pieces) == StdAttrs(attrs).fields
    ensures !WriteAttrs(attrs, comma).rendered ==> WriteAttrs(attrs, comma).pieces == []
    decreases attrs
  {
    if attrs != [] {
      var first := WriteAttr(attrs[0], comma);
      WritersAgree(attrs[0], comma);
      WritersAgreeOnLists(attrs[1..], first.comma);
      FieldsOfConcat(first.pieces, WriteAttrs(attrs[1..], first.comma).pieces);
    }
  }

  // ---------------------------------------------------------------- when a line is readable, in the caller's terms

  function Size(v: Value): nat {
    match v
    case Group(attrs) => 1 + Sizes(attrs)
    case Lazy(inner) => Size(inner)
    case _ => 0
  }

  function Sizes(attrs: seq<Attr>): nat {
    if attrs == [] then 0 else 1 + Size(attrs[0].value) + Sizes(attrs[1..])
  }

  lemma {:induction false} ResolveKeepsSize(v: Value)
    ensures Size(Resolve(v)) == Size(v)
  {
    if v.Lazy? { ResolveKeepsSize(v.inner); }
  }

  /** The attributes of one JSON object: values resolved, empty-key groups inlined. */
  function Inline(attrs: seq<Attr>): (items: seq<Attr>)
    decreases Sizes(attrs)
  {
    if attrs == [] then []
    else
      var v := Resolve(attrs[0].value);
      ResolveKeepsSize(attrs[0].value);
      (if attrs[0].key == "" && v.Group? then Inline(v.attrs) else [Attr(attrs[0].key, v)]) + Inline(attrs[1..])
  }

  predicate Item(a: Attr) {
    !a.value.Lazy? && !(a.key == "" && a.value.Group?)
  }

  lemma {:induction false} InlinedItems(attrs: seq<Attr>, i: nat)
    requires i < |Inline(attrs)|
    ensures Item(Inline(attrs)[i]) && Size(Inline(attrs)[i].value) < Sizes(attrs)
    decreases Sizes(attrs)
  {
    var a, v := attrs[0], Resolve(attrs[0].value);
    ResolveKeepsSize(a.value);
    var head := if a.key == "" && v.Group? then Inline(v.attrs) else [Attr(a.key, v)];
    assert Inline(attrs) == head + Inline(attrs[1..]);
    if i >= |head| {
      InlinedItems(attrs[1..], i - |head|);
    } else if a.key == "" && v.Group? {
      InlinedItems(v.attrs, i);
    }
  }

  /** Something is written for it. */
  predicate Writes(a: Attr) {
    StdAttr(a).fields != []
  }

  /** A named group with members none of which renders: it is rolled back, its separator is not. */
  predicate Loses(a: Attr) {
    a.key != "" && a.value.Group? && a.value.attrs != [] && !StdAttr(a).rendered
  }

  predicate HasWrite(items: seq<Attr>) {
    items != [] && (Writes(items[0]) || HasWrite(items[1..]))
  }

  /** A loss, and a write somewhere after it. */
  predicate LossThenWrite(items: seq<Attr>) {
    items != [] && ((Loses(items[0]) && HasWrite(items[1..])) || LossThenWrite(items[1..]))
  }

  /** A write, a loss somewhere after it, and another write after that. */
  predicate WriteLossWrite(items: seq<Attr>) {
    items != [] && ((Writes(items[0]) && LossThenWrite(items[1..])) || WriteLossWrite(items[1..]))
  }

  /** In no object does a group that elides stand between two attributes that write something, and every time
      has an encodable year. */
  predicate Sound(attrs: seq<Attr>)
    decreases Sizes(attrs)
  {
    var items := Inline(attrs);
    !WriteLossWrite(items)
    && forall i :: 0 <= i < |items| ==> (InlinedItems(attrs, i); SoundItem(items[i]))
  }

  predicate SoundItem(a: Attr)
    decreases Size(a.value)
  {
    match a.value
    case Time(year, _) => EncodableYear(year)
    case Group(attrs) => Sound(attrs)
    case _ => true
  }

  // ---------------------------------------------------------------- the writer, object by object

  lemma {:induction false} WriteConcat(a: seq<Attr>, b: seq<Attr>, comma: bool)
    ensures var x := WriteAttrs(a, comma); var y := WriteAttrs(b, x.comma); var z := WriteAttrs(a + b, comma);
            z == Effect(x.rendered || y.rendered, x.pieces + y.pieces, y.comma)
    decreases |a|
  {
    if a == [] {
      assert a + b == b;
      assert [] + WriteAttrs(b, comma).pieces == WriteAttrs(b, comma).pieces;
    } else {
      assert (a + b)[0] == a[0] && (a + b)[1..] == a[1..] + b;
      var first := WriteAttr(a[0], comma);
      WriteConcat(a[1..], b, first.comma);
      var rest := WriteAttrs(a[1..], first.comma);
      Assoc(first.pieces, rest.pieces, WriteAttrs(b, rest.comma).pieces);
    }
  }

  lemma {:induction false} WriteOne(a: Attr, comma: bool)
    ensures WriteAttrs([a], comma) == WriteAttr(a, comma)
  {
    var e := WriteAttr(a, comma);
    assert [a][1..] == [] && e.pieces + [] == e.pieces;
  }

  /** Inlining changes neither the pieces written nor the separator left. */
  lemma {:induction false} InliningIsFree(attrs: seq<Attr>, comma: bool)
    ensures WriteAttrs(Inline(attrs), comma).pieces == WriteAttrs(attrs, comma).pieces
    ensures WriteAttrs(Inline(attrs), comma).comma == WriteAttrs(attrs, comma).comma
    decreases Sizes(attrs)
  {
    if attrs != [] {
      var a, v := attrs[0], Resolve(attrs[0].value);
      ResolveKeepsSize(a.value);
      var first := WriteAttr(a, comma);
      if a.key == "" && v.Group? {
        InliningIsFree(v.attrs, comma);
        WritersAgreeOnLists(v.attrs, comma);
        WriteConcat(Inline(v.attrs), Inline(attrs[1..]), comma);
      } else {
        WriteOne(Attr(a.key, v), comma);
        assert WriteAttr(Attr(a.key, v), comma) == first;
        WriteConcat([Attr(a.key, v)], Inline(attrs[1..]), comma);
      }
      InliningIsFree(attrs[1..], first.comma);
    }
  }

  lemma {:induction false} SeparatorNeedsAWrite(a: Attr, comma: bool)
    ensures WriteAttr(a, comma).comma ==> comma || WriteAttr(a, comma).pieces != []
    decreases a
  {
    var v := Resolve(a.value);
    if v.Group? && v.attrs != [] {
      SeparatorNeedsWrites(v.attrs, a.key == "" && comma);
      WritersAgreeOnLists(v.attrs, a.key == "" && comma);
    } else if v.Source? && !EmptySource(v) {
      assert SourceFields(v) != [];
    }
  }

  lemma {:induction false} SeparatorNeedsWrites(attrs: seq<Attr>, comma: bool)
    ensures WriteAttrs(attrs, comma).comma ==> comma || WriteAttrs(attrs, comma).pieces != []
    decreases attrs
  {
    if attrs != [] {
      SeparatorNeedsAWrite(attrs[0], comma);
      SeparatorNeedsWrites(attrs[1..], WriteAttr(attrs[0], comma).comma);
    }
  }

  lemma {:induction false} FieldPiecesWellFormed(fields: seq<Field>, comma: bool)
    requires forall i :: 0 <= i < |fields| ==> fields[i].content.Raw?
    ensures WellFormed(FieldPieces(fields, comma), comma)
    decreases |fields|
  {
    if fields != [] { FieldPiecesWellFormed(fields[1..], true); }
  }

  /** What is known of the objects inside an item. */
  predicate SettledInside(a: Attr) {
    a.value.Group? ==> (WellFormed(WriteAttrs(a.value.attrs, false).pieces, false) <==> Sound(a.value.attrs))
  }

  lemma {:induction false} GroupEffect(a: Attr, comma: bool)
    requires a.key != "" && a.value.Group? && SettledInside(a)
    ensures var e := WriteAttr(a, comma);
            && (e.comma <==> (comma || Writes(a)) && !Loses(a))
            && (Writes(a) ==> |e.pieces| == 1 && e.pieces[0].comma == comma
                              && (WellFormedContent(e.pieces[0].content) <==> SoundItem(a)))
            && (!Writes(a) ==> SoundItem(a))
  {
    var members := a.value.attrs;
    WritersAgree(a, comma);
    WritersAgreeOnLists(members, false);
    SeparatorNeedsWrites(members, false);
    if members != [] && !StdAttr(a).rendered {
      assert WriteAttrs(members, false).pieces == [];
    }
  }

  /** What one item leaves of the separator, and when its own text is well formed. */
  predicate Accounted(a: Attr, comma: bool) {
    var e := WriteAttr(a, comma);
    && (e.pieces != [] <==> Writes(a))
    && (e.comma <==> (comma || Writes(a)) && !Loses(a))
    && (Writes(a) ==> e.pieces[0].comma == comma && (WellFormed(e.pieces, comma) <==> SoundItem(a)))
    && (!Writes(a) ==> SoundItem(a))
    && !(Writes(a) && Loses(a))
  }

  lemma LeafEffect(a: Attr, comma: bool)
    requires !a.value.Lazy? && !a.value.Group? && !a.value.Source?
    ensures Accounted(a, comma)
  {
    var e := WriteAttr(a, comma);
    assert e.pieces != [] ==> e.pieces[1..] == [];
  }

  lemma LocationEffect(a: Attr, comma: bool)
    requires a.value.Source?
    ensures Accounted(a, comma)
  {
    if !EmptySource(a.value) {
      FieldPiecesWellFormed(SourceFields(a.value), a.key == "" && comma);
      assert SourceFields(a.value) != [];
    }
  }

  lemma ItemEffect(a: Attr, comma: bool)
    requires Item(a) && SettledInside(a)
    ensures Accounted(a, comma)
  {
    if a.value.Group? {
      WritersAgree(a, comma);
      GroupEffect(a, comma);
      assert Writes(a) ==> WriteAttr(a, comma).pieces[1..] == [];
    } else if a.value.Source? {
      LocationEffect(a, comma);
    } else {
      LeafEffect(a, comma);
    }
  }

  lemma {:induction false} WellFormedConcat(a: seq<Piece>, b: seq<Piece>, comma: bool)
    ensures WellFormed(a + b, comma) <==> WellFormed(a, comma) && WellFormed(b, comma || a != [])
    decreases |a|
  {
    if a == [] {
      assert a + b == b;
    } else {
      assert (a + b)[1..] == a[1..] + b;
      WellFormedConcat(a[1..], b, true);
    }
  }

  predicate SoundItems(items: seq<Attr>) {
    forall i :: 0 <= i < |items| ==> SoundItem(items[i])
  }

  lemma SoundItemsStep(items: seq<Attr>)
    requires items != []
    ensures SoundItems(items) <==> SoundItem(items[0]) && SoundItems(items[1..])
  {
    var rest := items[1..];
    if SoundItem(items[0]) && SoundItems(rest) {
      forall i | 0 <= i < |items|
        ensures SoundItem(items[i])
      {
        if i > 0 { assert items[i] == rest[i - 1]; }
      }
    }
    if SoundItems(items) {
      forall i | 0 <= i < |rest|
        ensures SoundItem(rest[i])
      {
        assert rest[i] == items[i + 1];
      }
    }
  }

  /** Scanning one object: `written` says whether anything stands in it, `comma` whether the separator is there. */
  lemma {:induction false} ScanIsExact(items: seq<Attr>, written: bool, comma: bool)
    requires comma ==> written
    requires forall i :: 0 <= i < |items| ==> Item(items[i]) && SettledInside(items[i])
    ensures WellFormed(WriteAttrs(items, comma).pieces, written) <==>
            SoundItems(items) && !WriteLossWrite(items)
            && (written ==> !LossThenWrite(items)) && (written && !comma ==> !HasWrite(items))
    decreases |items|
  {
    if items != [] {
      var a, rest := items[0], items[1..];
      var e := WriteAttr(a, comma);
      ItemEffect(a, comma);
      forall i | 0 <= i < |rest|
        ensures Item(rest[i]) && SettledInside(rest[i])
      {
        assert rest[i] == items[i + 1];
      }
      ScanIsExact(rest, written || Writes(a), e.comma);
      WellFormedConcat(e.pieces, WriteAttrs(rest, e.comma).pieces, written);
      SoundItemsStep(items);
      LossNeedsAWrite(rest);
    }
  }

  lemma {:induction false} LossNeedsAWrite(items: seq<Attr>)
    ensures LossThenWrite(items) ==> HasWrite(items)
    ensures WriteLossWrite(items) ==> LossThenWrite(items)
  {
    if items != [] { LossNeedsAWrite(items[1..]); }
  }

  /** The text of a list is well formed exactly when the list is sound. */
  lemma {:induction false} SoundIffWellFormed(attrs: seq<Attr>)
    ensures WellFormed(WriteAttrs(attrs, false).pieces, false) <==> Sound(attrs)
    decreases Sizes(attrs)
  {
    var items := Inline(attrs);
    forall i | 0 <= i < |items|
      ensures Item(items[i]) && SettledInside(items[i])
    {
      InlinedItems(attrs, i);
      if items[i].value.Group? { SoundIffWellFormed(items[i].value.attrs); }
    }
    InliningIsFree(attrs, false);
    ScanIsExact(items, false, false);
  }

  /** slog's JSON writer, on any attribute list: the line is readable exactly when the list is sound, and then it
      holds the fields slog means to write. */
  lemma {:induction false} LineIsReadableIffSound(attrs: seq<Attr>)
    ensures ParseLine(SlogAttrs(attrs, Buffer([], false)).1.text)
         == if Sound(attrs) then Some(StdAttrs(attrs).fields) else None
  {
    var e := WriteAttrs(attrs, false);
    WriterTexts(attrs, Buffer([], false));
    WritersAgreeOnLists(attrs, false);
    SoundIffWellFormed(attrs);
    PiecesParse(e.pieces, false, []);
    assert [] + PiecesText(e.pieces) == PiecesText(e.pieces) == PiecesText(e.pieces) + [];
  }

  /** Behind fields already written, a loss needs no earlier write of the list's own to do harm. */
  predicate SoundBehindFields(attrs: seq<Attr>) {
    Sound(attrs) && !LossThenWrite(Inline(attrs))
  }

  /** The same behind other fields, as the built-in ones a record's line starts with: the line is then readable
      exactly when in the outermost object nothing at all is written after a group that elides. */
  lemma {:induction false} LineBehindFields(built: seq<Field>, attrs: seq<Attr>)
    requires built != [] && Encodable(built)
    ensures ParseLine(SlogAttrs(attrs, Printed(Buffer([], false), built)).1.text)
         == if SoundBehindFields(attrs) then Some(built + StdAttrs(attrs).fields) else None
  {
    var e := WriteAttrs(attrs, true);
    WriterTexts(attrs, Printed(Buffer([], false), built));
    WritersAgreeOnLists(attrs, true);
    SoundBehindIffWellFormed(attrs);
    PiecesParse(e.pieces, true, []);
    assert PiecesText(e.pieces) + [] == PiecesText(e.pieces);
    assert [] + Print(built, false) == Print(built, false);
    ParsesBehind(built, false, PiecesText(e.pieces));
  }

  lemma {:induction false} SoundBehindIffWellFormed(attrs: seq<Attr>)
    ensures WellFormed(WriteAttrs(attrs, true).pieces, true) <==> SoundBehindFields(attrs)
  {
    var items := Inline(attrs);
    forall i | 0 <= i < |items|
      ensures Item(items[i]) && SettledInside(items[i])
    {
      InlinedItems(attrs, i);
      if items[i].value.Group? { SoundIffWellFormed(items[i].value.attrs); }
    }
    InliningIsFree(attrs, true);
    ScanIsExact(items, true, true);
  }

  lemma {:induction false} ParsesFirst(fields: seq<Field>, comma: bool, rest: seq<Token>)
    requires fields != [] && Encodable(fields)
    ensures ParseFields(Print(fields, comma) + rest, comma) == ParseMore(fields[0], Print(fields[1..], true) + rest)
  {
    var f, tail := fields[0], Print(fields[1..], true);
    var body := [Name(f.name)] + (PrintContent(f.content) + (tail + rest));
    PrintFirst(fields, comma, rest);
    PrintFieldParses(f, tail + rest);
    assert comma ==> ([Comma] + body)[1..] == body;
    assert !comma ==> [] + body == body;
  }

  /** Printed fields are read first, and whatever follows them is read as further fields. */
  lemma {:induction false} ParsesBehind(built: seq<Field>, comma: bool, rest: seq<Token>)
    requires built != [] && Encodable(built)
    ensures ParseFields(Print(built, comma) + rest, comma)
         == match ParseFields(rest, true)
            case None => None
            case Some(more) => Some(Parsed(built + more.fields, more.rest))
    decreases |built|
  {
    var f, tail := built[0], built[1..];
    ParsesFirst(built, comma, rest);
    assert built == [f] + tail;
    if tail == [] {
      assert Print(tail, true) + rest == rest && built == [f];
    } else {
      ParsesBehind(tail, true, rest);
      if ParseFields(rest, true).Some? {
        Assoc([f], tail, ParseFields(rest, true).value.fields);
      }
    }
  }

  // ---------------------------------------------------------------- the two defects, for every input

  /** Somewhere inside it a named group with members was opened. */
  predicate Opens(a: Attr)
    decreases a
  {
    var v := Resolve(a.value);
    v.Group? && v.attrs != [] && (a.key != "" || exists i :: 0 <= i < |v.attrs| && Opens(v.attrs[i]))
  }

  lemma {:induction false} ElidedEffect(a: Attr, comma: bool)
    requires !StdAttr(a).rendered
    ensures WriteAttr(a, comma) == Effect(false, [], comma && !Opens(a))
    decreases a
  {
    var v := Resolve(a.value);
    WritersAgree(a, comma);
    if v.Group? {
      if a.key == "" {
        ElidedListEffect(v.attrs, comma);
      } else {
        WritersAgreeOnLists(v.attrs, false);
        SeparatorNeedsWrites(v.attrs, false);
      }
    }
  }

  lemma {:induction false} ElidedListEffect(attrs: seq<Attr>, comma: bool)
    requires !StdAttrs(attrs).rendered
    ensures WriteAttrs(attrs, comma) == Effect(false, [], comma && !exists i :: 0 <= i < |attrs| && Opens(attrs[i]))
    decreases attrs
  {
    if attrs != [] {
      var rest := attrs[1..];
      ElidedEffect(attrs[0], comma);
      ElidedListEffect(rest, comma && !Opens(attrs[0]));
      assert (exists i :: 0 <= i < |attrs| && Opens(attrs[i])) <==> Opens(attrs[0]) || exists i :: 0 <= i < |rest| && Opens(rest[i]) by {
        if i :| 0 <= i < |rest| && Opens(rest[i]) { assert attrs[i + 1] == rest[i]; }
        if i :| 0 <= i < |attrs| && Opens(attrs[i]) { if i > 0 { assert rest[i - 1] == attrs[i]; } }
      }
    }
  }

  /** An attribute that elides leaves the text alone, and loses the separator exactly if it opened a group. */
  lemma {:induction false} ElidedLosesSeparatorIfOpened(a: Attr, b: Buffer)
    requires !StdAttr(a).rendered
    ensures SlogAttr(a, b) == (false, Buffer(b.text, b.comma && !Opens(a)))
  {
    WriterText(a, b);
    ElidedEffect(a, b.comma);
    assert b.text + [] == b.text;
  }

  lemma {:induction false} FirstPieceSeparator(a: Attr)
    ensures var e := WriteAttr(a, false); e.pieces != [] ==> !e.pieces[0].comma
    decreases a
  {
    var v := Resolve(a.value);
    if v.Group? { FirstPieceSeparators(v.attrs); }
  }

  lemma {:induction false} FirstPieceSeparators(attrs: seq<Attr>)
    ensures var e := WriteAttrs(attrs, false); e.pieces != [] ==> !e.pieces[0].comma
    decreases attrs
  {
    if attrs != [] {
      FirstPieceSeparator(attrs[0]);
      SeparatorNeedsAWrite(attrs[0], false);
      FirstPieceSeparators(attrs[1..]);
    }
  }

  function Line(attrs: seq<Attr>): Option<seq<Field>> {
    ParseLine(SlogAttrs(attrs, Buffer([], false)).1.text)
  }

  lemma {:induction false} LineParses(attrs: seq<Attr>)
    ensures Line(attrs) == if WellFormed(WriteAttrs(attrs, false).pieces, false) then Some(StdAttrs(attrs).fields) else None
  {
    SoundIffWellFormed(attrs);
    LineIsReadableIffSound(attrs);
  }

  /** Between any attributes that write something, one elided group with members makes the line unreadable. */
  lemma {:induction false} ElidedGroupBreaksTheLine(before: seq<Attr>, g: Attr, after: seq<Attr>)
    requires StdAttrs(before).fields != [] && StdAttrs(after).fields != []
    requires !StdAttr(g).rendered && Opens(g)
    ensures Line(before + ([g] + after)) == None
  {
    var first := WriteAttrs(before, false);
    WriteConcat(before, [g] + after, false);
    WriteConcat([g], after, first.comma);
    WriteOne(g, first.comma);
    ElidedEffect(g, first.comma);
    var last := WriteAttrs(after, false).pieces;
    assert [] + last == last;
    WritersAgreeOnLists(before, false);
    WritersAgreeOnLists(after, false);
    FirstPieceSeparators(after);
    WellFormedConcat(first.pieces, last, false);
    LineParses(before + ([g] + after));
  }

  /** An elided attribute that opened no group leaves no trace. */
  lemma {:induction false} SilentAttribute(before: seq<Attr>, g: Attr, after: seq<Attr>)
    requires !StdAttr(g).rendered && !Opens(g)
    ensures WriteAttrs(before + ([g] + after), false).pieces == WriteAttrs(before + after, false).pieces
  {
    var comma := WriteAttrs(before, false).comma;
    WriteConcat(before, [g] + after, false);
    WriteConcat(before, after, false);
    WriteConcat([g], after, comma);
    WriteOne(g, comma);
    ElidedEffect(g, comma);
    assert [] + WriteAttrs(after, comma).pieces == WriteAttrs(after, comma).pieces;
  }

  lemma {:induction false} NormalLine(attrs: seq<Attr>)
    requires AllNormal(attrs)
    ensures Line(attrs) == Some(RenderAttrs(attrs))
  {
    NormalTexts(attrs, Buffer([], false));
    RendersEncodable(attrs);
    PrintParses(RenderAttrs(attrs), false, []);
    var text := Print(RenderAttrs(attrs), false);
    assert text + [] == text == [] + text;
  }

  /** One attribute that elides among filtered ones: the line holds the others' fields if it opened no group, and
      is unreadable if it did. */
  lemma {:induction false} OneElidedAttribute(before: seq<Attr>, g: Attr, after: seq<Attr>)
    requires AllNormal(before) && AllNormal(after) && before != [] && after != []
    requires !StdAttr(g).rendered
    ensures Line(before + ([g] + after)) == if Opens(g) then None else Some(RenderAttrs(before + after))
  {
    if Opens(g) {
      NormalStdAttrs(before);
      NormalStdAttrs(after);
      RendersIffFields(before[0]);
      RendersIffFields(after[0]);
      ElidedGroupBreaksTheLine(before, g, after);
    } else {
      SilentAttribute(before, g, after);
      LineParses(before + ([g] + after));
      LineParses(before + after);
      NormalConcat(before, after);
      NormalLine(before + after);
      WritersAgreeOnLists(before + ([g] + after), false);
      WritersAgreeOnLists(before + after, false);
    }
  }

  lemma {:induction false} NormalConcat(a: seq<Attr>, b: seq<Attr>)
    requires AllNormal(a) && AllNormal(b)
    ensures AllNormal(a + b)
    decreases |a|
  {
    if a == [] {
      assert a + b == b;
    } else {
      assert (a + b)[1..] == a[1..] + b;
      NormalConcat(a[1..], b);
    }
  }

  /** A time whose year cannot be encoded makes the line unreadable, whatever its key, year and text and whatever
      stands around it. */
  lemma LateTimeBreaksTheLine(before: seq<Attr>, t: Attr, after: seq<Attr>)
    requires Resolve(t.value).Time? && !EncodableYear(Resolve(t.value).year)
    ensures Line(before + ([t] + after)) == None
  {
    var first := WriteAttrs(before, false);
    WriteConcat(before, [t] + after, false);
    WriteConcat([t], after, first.comma);
    WriteOne(t, first.comma);
    var last := WriteAttrs(after, true).pieces;
    WellFormedConcat(WriteAttr(t, first.comma).pieces, last, first.pieces != []);
    WellFormedConcat(first.pieces, WriteAttr(t, first.comma).pieces + last, false);
    LineParses(before + ([t] + after));
  }
}
