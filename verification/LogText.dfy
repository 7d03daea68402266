/** The JSON text behind the field trees: slog's writer with its elided-group separator defect, a
    correct printer, and a parser that tells them apart. */
module LogText {
  import opened Wrappers
  import opened Decimal
  import opened LogAttrs
  import opened LogSanitize

  datatype Token = Comma | Name(name: string) | Text(json: string) | OpenBrace | CloseBrace

  /** slog's buffer and whether its separator is currently a comma. */
  datatype Buffer = Buffer(text: seq<Token>, comma: bool)

  const ERROR_TEXT := "!ERROR:"

  function Separator(comma: bool): seq<Token> {
    if comma then [Comma] else []
  }

  function Append(b: Buffer, name: string, tokens: seq<Token>): Buffer {
    Buffer(b.text + (Separator(b.comma) + [Name(name)] + tokens), true)
  }

  function OpenGroup(b: Buffer, key: string): Buffer {
    if key == "" then b else Append(b, key, [OpenBrace]).(comma := false)
  }

  function CloseGroup(b: Buffer, key: string): Buffer {
    if key == "" then b else Buffer(b.text + [CloseBrace], true)
  }

  /** Rolling back an elided group restores the text but not the separator: the defect. */
  function Rollback(saved: Buffer, current: Buffer): Buffer {
    Buffer(saved.text, current.comma)
  }

  function SlogAttr(a: Attr, b: Buffer): (bool, Buffer)
    decreases a
  {
    match Resolve(a.value)
    case Plain(json) => (true, Append(b, a.key, [Text(json)]))
    case Nil => if a.key == "" then (false, b) else (true, Append(b, a.key, [Text("null")]))
    case Time(year, stamp) =>
      (true, Append(b, a.key, if EncodableYear(year) then [Text(stamp)] else [Text(ERROR_TEXT), Text(stamp)]))
    case Failure(nilPointer, message) => (true, Append(b, a.key, [Text(if nilPointer then "<nil>" else message)]))
    case Source(nilPointer, function_, file, line) =>
      var v := Source(nilPointer, function_, file, line);
      if EmptySource(v) then (false, b)
      else
        var open := OpenGroup(b, a.key);
        (true, CloseGroup(Buffer(open.text + Print(SourceFields(v), open.comma), true), a.key))
    case Group(attrs) =>
      if attrs == [] then (true, b)
      else
        var (rendered, inner) := SlogAttrs(attrs, OpenGroup(b, a.key));
        if rendered then (true, CloseGroup(inner, a.key)) else (false, Rollback(b, inner))
  }

  function SlogAttrs(attrs: seq<Attr>, b: Buffer): (bool, Buffer)
    decreases attrs
  {
    if attrs == [] then (false, b)
    else
      var (first, mid) := SlogAttr(attrs[0], b);
      var (rest, last) := SlogAttrs(attrs[1..], mid);
      (first || rest, last)
  }

  /** The text of a field list, a comma before every field but the first. */
  function Print(fields: seq<Field>, comma: bool): seq<Token>
    decreases fields
  {
    if fields == [] then []
    else Separator(comma) + [Name(fields[0].name)] + PrintContent(fields[0].content) + Print(fields[1..], true)
  }

  function PrintContent(content: Content): seq<Token>
    decreases content
  {
    match content
    case Raw(json) => [Text(json)]
    case Garbled(stamp) => [Text(ERROR_TEXT), Text(stamp)]
    case Object(fields) => [OpenBrace] + Print(fields, false) + [CloseBrace]
  }

  function Printed(b: Buffer, fields: seq<Field>): Buffer {
    Buffer(b.text + Print(fields, b.comma), b.comma || fields != [])
  }

  lemma {:induction false} PrintConcat(a: seq<Field>, c: seq<Field>, comma: bool)
    ensures Print(a + c, comma) == Print(a, comma) + Print(c, comma || a != [])
    decreases |a|
  {
    if a == [] {
      assert a + c == c;
    } else {
      assert (a + c)[1..] == a[1..] + c;
      PrintConcat(a[1..], c, true);
      var head := Separator(comma) + [Name(a[0].name)] + PrintContent(a[0].content);
      assert Print(a + c, comma) == head + (Print(a[1..], true) + Print(c, true));
      assert Print(a, comma) == head + Print(a[1..], true);
    }
  }

  lemma PrintedTwice(b: Buffer, x: seq<Field>, y: seq<Field>)
    ensures Printed(Printed(b, x), y) == Printed(b, x + y)
  {
    PrintConcat(x, y, b.comma);
    Assoc(b.text, Print(x, b.comma), Print(y, b.comma || x != []));
  }

  lemma PrintOne(b: Buffer, f: Field)
    ensures Printed(b, [f]) == Append(b, f.name, PrintContent(f.content))
  {
    assert Print([f][1..], true) == [];
    var tokens := Separator(b.comma) + [Name(f.name)] + PrintContent(f.content);
    assert tokens + [] == tokens;
  }

  lemma PrintNested(b: Buffer, key: string, fields: seq<Field>)
    requires fields != []
    ensures CloseGroup(Printed(OpenGroup(b, key), fields), key) == Printed(b, Place(key, fields))
  {
    if key != "" {
      var head, inner := Separator(b.comma) + [Name(key)], Print(fields, false);
      PrintOne(b, Field(key, Object(fields)));
      Assoc(head, [OpenBrace], inner);
      Assoc(head, [OpenBrace] + inner, [CloseBrace]);
      Assoc(b.text, head + [OpenBrace], inner);
      Assoc(b.text, head + [OpenBrace] + inner, [CloseBrace]);
    }
  }

  /** On a normal attribute the defective writer writes exactly what a correct one would. */
  lemma {:induction false} NormalText(a: Attr, b: Buffer)
    requires Normal(a)
    ensures SlogAttr(a, b) == (true, Printed(b, RenderAttr(a)))
    decreases a
  {
    RendersIffFields(a);
    if a.value.Group? {
      var fields := RenderAttrs(a.value.attrs);
      NormalTexts(a.value.attrs, OpenGroup(b, a.key));
      assert SlogAttrs(a.value.attrs, OpenGroup(b, a.key)) == (true, Printed(OpenGroup(b, a.key), fields));
      PrintNested(b, a.key, fields);
    } else if a.value.Source? {
      PrintNested(b, a.key, SourceFields(a.value));
    } else {
      PrintOne(b, RenderAttr(a)[0]);
    }
  }

  lemma {:induction false} NormalTexts(attrs: seq<Attr>, b: Buffer)
    requires AllNormal(attrs)
    ensures SlogAttrs(attrs, b) == (RenderAttrs(attrs) != [], Printed(b, RenderAttrs(attrs)))
    decreases attrs
  {
    if attrs == [] {
      assert b.text + [] == b.text;
    } else {
      RendersIffFields(attrs[0]);
      NormalText(attrs[0], b);
      NormalTexts(attrs[1..], Printed(b, RenderAttr(attrs[0])));
      assert RenderAttrs(attrs) == RenderAttr(attrs[0]) + RenderAttrs(attrs[1..]) != [];
      PrintedTwice(b, RenderAttr(attrs[0]), RenderAttrs(attrs[1..]));
    }
  }

  datatype Parsed = Parsed(fields: seq<Field>, rest: seq<Token>)

  /** Reads fields up to a closing brace or the end; `comma` says a separator must precede the next one. */
  function ParseFields(tokens: seq<Token>, comma: bool): (r: Option<Parsed>)
    ensures r.Some? ==> |r.value.rest| <= |tokens|
    decreases |tokens|, 1
  {
    if tokens == [] || tokens[0].CloseBrace? then Some(Parsed([], tokens))
    else if !comma then ParseNext(tokens)
    else if tokens[0].Comma? then ParseNext(tokens[1..])
    else None
  }

  /** Reads one field and whatever follows it. */
  function ParseNext(tokens: seq<Token>): (r: Option<Parsed>)
    ensures r.Some? ==> |r.value.rest| <= |tokens|
    decreases |tokens|, 0
  {
    if |tokens| < 2 || !tokens[0].Name? then None
    else
      var name := tokens[0].name;
      match tokens[1]
      case Text(json) => ParseMore(Field(name, Raw(json)), tokens[2..])
      case OpenBrace =>
        (match ParseFields(tokens[2..], false)
         case None => None
         case Some(inner) =>
           if inner.rest == [] || !inner.rest[0].CloseBrace? then None
           else ParseMore(Field(name, Object(inner.fields)), inner.rest[1..]))
      case _ => None
  }

  function ParseMore(first: Field, tokens: seq<Token>): (r: Option<Parsed>)
    ensures r.Some? ==> |r.value.rest| <= |tokens|
    decreases |tokens|, 2
  {
    match ParseFields(tokens, true)
    case None => None
    case Some(more) => Some(Parsed([first] + more.fields, more.rest))
  }

  /** The fields of a well-formed line. */
  function ParseLine(tokens: seq<Token>): Option<seq<Field>> {
    match ParseFields(tokens, false)
    case None => None
    case Some(p) => if p.rest == [] then Some(p.fields) else None
  }

  predicate Encodable(fields: seq<Field>)
    decreases fields
  {
    fields == [] || (EncodableContent(fields[0].content) && Encodable(fields[1..]))
  }

  predicate EncodableContent(content: Content)
    decreases content
  {
    match content
    case Raw(_) => true
    case Garbled(_) => false
    case Object(fields) => Encodable(fields)
  }

  /** Reading one printed field leaves what follows it to be read as further fields. */
  lemma {:induction false} PrintFieldParses(f: Field, more: seq<Token>)
    requires EncodableContent(f.content)
    ensures ParseNext([Name(f.name)] + (PrintContent(f.content) + more)) == ParseMore(f, more)
    decreases f.content
  {
    var tokens := [Name(f.name)] + (PrintContent(f.content) + more);
    match f.content
    case Raw(json) =>
      assert tokens[2..] == more;
    case Object(inner) =>
      var closing := [CloseBrace] + more;
      assert closing[1..] == more;
      Assoc([OpenBrace], Print(inner, false), [CloseBrace]);
      Assoc([OpenBrace], Print(inner, false) + [CloseBrace], more);
      Assoc(Print(inner, false), [CloseBrace], more);
      assert tokens == [Name(f.name), OpenBrace] + (Print(inner, false) + closing);
      assert tokens[2..] == Print(inner, false) + closing;
      PrintParses(inner, false, closing);
  }

  lemma {:induction false} PrintFirst(fields: seq<Field>, comma: bool, tail: seq<Token>)
    requires fields != []
    ensures Print(fields, comma) + tail
         == Separator(comma) + ([Name(fields[0].name)] + (PrintContent(fields[0].content) + (Print(fields[1..], true) + tail)))
  {
    var sep, name, content, rest := Separator(comma), [Name(fields[0].name)], PrintContent(fields[0].content), Print(fields[1..], true);
    Assoc(sep + name + content, rest, tail);
    Assoc(sep + name, content, rest + tail);
    Assoc(sep, name, content + (rest + tail));
  }

  /** Printing a tree and reading it back gives the tree. */
  lemma {:induction false} PrintParses(fields: seq<Field>, comma: bool, tail: seq<Token>)
    requires Encodable(fields)
    requires tail == [] || tail[0].CloseBrace?
    ensures ParseFields(Print(fields, comma) + tail, comma) == Some(Parsed(fields, tail))
    decreases fields
  {
    if fields == [] {
      assert Print(fields, comma) + tail == tail;
    } else {
      var f, rest := fields[0], Print(fields[1..], true);
      var body := [Name(f.name)] + (PrintContent(f.content) + (rest + tail));
      PrintFieldParses(f, rest + tail);
      PrintParses(fields[1..], true, tail);
      PrintFirst(fields, comma, tail);
      assert comma ==> ([Comma] + body)[1..] == body;
      assert !comma ==> [] + body == body;
      assert [f] + fields[1..] == fields;
    }
  }

  lemma {:induction false} EncodableConcat(a: seq<Field>, b: seq<Field>)
    requires Encodable(a) && Encodable(b)
    ensures Encodable(a + b)
    decreases |a|
  {
    if a == [] {
      assert a + b == b;
    } else {
      EncodableConcat(a[1..], b);
      assert (a + b)[1..] == a[1..] + b;
    }
  }

  lemma {:induction false} RenderEncodable(a: Attr)
    ensures Encodable(RenderAttr(a))
    decreases a
  {
    var v := Resolve(a.value);
    if v.Group? {
      RendersEncodable(v.attrs);
      PlaceEncodable(a.key, RenderAttrs(v.attrs));
    } else if v.Source? {
      SourceEncodable(v);
      PlaceEncodable(a.key, SourceFields(v));
    } else if RenderAttr(a) != [] {
      OptionalEncodable(a.key, true, RenderAttr(a)[0].content.json);
    }
  }

  lemma OptionalEncodable(name: string, present: bool, json: string)
    ensures Encodable(Optional(name, present, json))
  {
    assert Encodable([Field(name, Raw(json))][1..]);
  }

  lemma {:induction false} PlaceEncodable(key: string, fields: seq<Field>)
    requires Encodable(fields)
    ensures Encodable(Place(key, fields))
  {
    assert Encodable([Field(key, Object(fields))][1..]);
  }

  lemma SourceEncodable(v: Value)
    requires v.Source?
    ensures Encodable(SourceFields(v))
  {
    OptionalEncodable("function", v.function_ != "", v.function_);
    OptionalEncodable("file", v.file != "", v.file);
    OptionalEncodable("line", v.line != 0, IntText(v.line));
    var f, p := Optional("function", v.function_ != "", v.function_), Optional("file", v.file != "", v.file);
    EncodableConcat(f, p);
    EncodableConcat(f + p, Optional("line", v.line != 0, IntText(v.line)));
  }

  lemma {:induction false} RendersEncodable(attrs: seq<Attr>)
    ensures Encodable(RenderAttrs(attrs))
    decreases attrs
  {
    if attrs != [] {
      RenderEncodable(attrs[0]);
      RendersEncodable(attrs[1..]);
      EncodableConcat(RenderAttr(attrs[0]), RenderAttrs(attrs[1..]));
    }
  }

  /** The filter is enough: on any filtered attribute list slog's defective writer produces a well-formed
      line holding exactly the fields the attributes mean, whatever was in the buffer before. */
  lemma {:induction false} SanitizedTextIsWellFormed(attrs: seq<Attr>, b: Buffer)
    ensures SlogAttrs(NormAttrs(attrs), b).1 == Printed(b, RenderAttrs(attrs))
    ensures ParseLine(SlogAttrs(NormAttrs(attrs), Buffer([], false)).1.text) == Some(RenderAttrs(attrs))
  {
    NormAttrsIsNormal(attrs);
    NormAttrsPreserves(attrs);
    NormalTexts(NormAttrs(attrs), b);
    NormalTexts(NormAttrs(attrs), Buffer([], false));
    RendersEncodable(attrs);
    PrintParses(RenderAttrs(attrs), false, []);
    var text := Print(RenderAttrs(attrs), false);
    assert text + [] == text && [] + text == text;
  }
}
