/** The text slog's JSON handler writes for a record logged through a chain of derivations: attributes are
    written ahead of time, groups are opened when the first field in them is written and closed at the end. */
module LogChain {
  import opened Wrappers
  import opened LogAttrs
  import opened LogSanitize
  import opened LogStd
  import opened LogText

  /** The text written ahead of time, all groups named so far, and how many of them the text has opened. */
  datatype Handler = Handler(text: seq<Token>, groups: seq<string>, begun: nat)

  predicate Valid(h: Handler) {
    h.begun <= |h.groups| && forall i :: 0 <= i < |h.groups| ==> h.groups[i] != ""
  }

  /** The separator due after some text: none at the start of an object. */
  function Due(text: seq<Token>): bool {
    text != [] && !text[|text| - 1].OpenBrace?
  }

  function OpenAll(b: Buffer, groups: seq<string>): Buffer
    decreases |groups|
  {
    if groups == [] then b else OpenGroup(OpenAll(b, groups[..|groups| - 1]), groups[|groups| - 1])
  }

  function CloseAll(n: nat): seq<Token> {
    if n == 0 then [] else CloseAll(n - 1) + [CloseBrace]
  }

  function Ready(h: Handler): Buffer
    requires Valid(h)
  {
    OpenAll(Buffer(h.text, Due(h.text)), h.groups[h.begun..])
  }

  /** Writes the attributes ahead of time, opening the groups due; undone when none of them renders. */
  function HandlerWithAttrs(h: Handler, attrs: seq<Attr>): Handler
    requires Valid(h)
  {
    var (rendered, b) := SlogAttrs(attrs, Ready(h));
    if rendered then Handler(b.text, h.groups, |h.groups|) else h
  }

  function HandlerWithGroup(h: Handler, name: string): Handler {
    if name == "" then h else h.(groups := h.groups + [name])
  }

  function Derive(h: Handler, d: Derivation): (h': Handler)
    requires Valid(h)
    ensures Valid(h')
  {
    match d
    case With(attrs) => HandlerWithAttrs(h, attrs)
    case Open(name) => HandlerWithGroup(h, name)
  }

  function Derived(h: Handler, ops: seq<Derivation>): (h': Handler)
    requires Valid(h)
    ensures Valid(h')
    decreases |ops|
  {
    if ops == [] then h else Derived(Derive(h, ops[0]), ops[1..])
  }

  /** The line: the text written ahead, the record's attributes in the groups due, and every opened group closed. */
  function Handled(h: Handler, record: seq<Attr>): seq<Token>
    requires Valid(h)
  {
    var (rendered, b) := SlogAttrs(record, Ready(h));
    if rendered then b.text + CloseAll(|h.groups|) else h.text + CloseAll(h.begun)
  }

  /** The line of a new handler, derived and given a record, behind the built-in fields of that record. */
  function LineText(built: seq<Field>, ops: seq<Derivation>, record: seq<Attr>): seq<Token> {
    Handled(Derived(Handler(Print(built, false), [], 0), ops), record)
  }

  // ---------------------------------------------------------------- what the text means

  /** The line of a correct printer that has written h's text and still has these fields to write. */
  function Completed(h: Handler, fields: seq<Field>): seq<Token>
    requires Valid(h)
  {
    if fields == [] then h.text + CloseAll(h.begun)
    else Printed(Ready(h), fields).text + CloseAll(|h.groups|)
  }

  lemma {:induction false} SettledText(attrs: seq<Attr>, b: Buffer)
    requires Settled(attrs)
    ensures SlogAttrs(attrs, b) == (RenderAttrs(attrs) != [], Printed(b, RenderAttrs(attrs)))
    decreases |attrs|
  {
    if attrs == [] {
      assert b.text + [] == b.text;
    } else {
      assert attrs[0] == ZERO_ATTR || Normal(attrs[0]);
      var mid := if attrs[0] == ZERO_ATTR then b else Printed(b, RenderAttr(attrs[0]));
      if attrs[0] != ZERO_ATTR {
        RendersIffFields(attrs[0]);
        NormalText(attrs[0], b);
        PrintedTwice(b, RenderAttr(attrs[0]), RenderAttrs(attrs[1..]));
      } else {
        assert RenderAttrs(attrs) == [] + RenderAttrs(attrs[1..]) == RenderAttrs(attrs[1..]);
      }
      SettledText(attrs[1..], mid);
    }
  }

  lemma PrintedEnds(b: Buffer, fields: seq<Field>)
    requires fields != []
    ensures Due(Printed(b, fields).text) && Printed(b, fields).comma
    decreases |fields|
  {
    var init, last := fields[..|fields| - 1], fields[|fields| - 1];
    assert fields == init + [last];
    PrintConcat(init, [last], b.comma);
    var tail := Print([last], b.comma || init != []);
    assert [last][1..] == [] && tail == Separator(b.comma || init != []) + [Name(last.name)] + PrintContent(last.content);
  }

  /** Attributes written ahead of time come before whatever is still to be written. */
  lemma {:induction false} WithAttrsCompletes(h: Handler, attrs: seq<Attr>, fields: seq<Field>)
    requires Valid(h) && Settled(attrs)
    ensures Completed(HandlerWithAttrs(h, attrs), fields) == Completed(h, RenderAttrs(attrs) + fields)
  {
    var mine := RenderAttrs(attrs);
    SettledText(attrs, Ready(h));
    if mine == [] {
      assert mine + fields == fields;
    } else {
      var h' := HandlerWithAttrs(h, attrs);
      var b := Printed(Ready(h), mine);
      PrintedEnds(Ready(h), mine);
      assert h'.groups[h'.begun..] == [] && Ready(h') == b;
      PrintedTwice(Ready(h), mine, fields);
      if fields == [] {
        assert mine + fields == mine;
      }
    }
  }

  lemma ReadyInside(h: Handler, name: string)
    requires Valid(h) && name != ""
    ensures Ready(HandlerWithGroup(h, name)) == OpenGroup(Ready(h), name)
  {
    var due := HandlerWithGroup(h, name).groups[h.begun..];
    assert due[..|due| - 1] == h.groups[h.begun..] && due[|due| - 1] == name;
  }

  /** A group opened now holds whatever is still to be written, and is never written when nothing is. */
  lemma WithGroupCompletes(h: Handler, name: string, fields: seq<Field>)
    requires Valid(h) && name != ""
    ensures Completed(HandlerWithGroup(h, name), fields) == Completed(h, Place(name, fields))
  {
    if fields != [] {
      var h' := HandlerWithGroup(h, name);
      ReadyInside(h, name);
      PrintNested(Ready(h), name, fields);
      var inner := Printed(Ready(h'), fields).text;
      CloseFirst(|h.groups|);
      Assoc(inner, [CloseBrace], CloseAll(|h.groups|));
    }
  }

  lemma {:induction false} CloseFirst(n: nat)
    ensures CloseAll(n + 1) == [CloseBrace] + CloseAll(n)
  {
    if n > 0 {
      CloseFirst(n - 1);
      Assoc([CloseBrace], CloseAll(n - 1), [CloseBrace]);
    }
  }

  lemma {:induction false} DeriveCompletes(h: Handler, d: Derivation, rest: seq<Attr>)
    requires Valid(h) && (d.With? ==> Settled(d.attrs))
    ensures Completed(Derive(h, d), RenderAttrs(rest)) == Completed(h, RenderAttrs(Wrap([d], rest)))
  {
    WrapOne(d, rest);
    match d
    case With(attrs) =>
      WithAttrsCompletes(h, attrs, RenderAttrs(rest));
      RenderConcat(attrs, rest);
    case Open(name) =>
      if name != "" {
        WithGroupCompletes(h, name, RenderAttrs(rest));
        RenderOne(Attr(name, Group(rest)));
      }
  }

  lemma {:induction false} DerivedCompletes(h: Handler, ops: seq<Derivation>, record: seq<Attr>)
    requires Valid(h) && SettledOps(ops) && Settled(record)
    ensures Handled(Derived(h, ops), record) == Completed(h, RenderAttrs(Wrap(ops, record)))
    decreases |ops|
  {
    if ops == [] {
      SettledText(record, Ready(h));
    } else {
      SettledTail(ops);
      DerivedCompletes(Derive(h, ops[0]), ops[1..], record);
      DeriveCompletes(h, ops[0], Wrap(ops[1..], record));
      WrapOne(ops[0], Wrap(ops[1..], record));
    }
  }

  /** Through any chain of filtered derivations, slog's defective handler writes a readable line that holds exactly
      the built-in fields and those the chain and the record stand for. */
  lemma {:induction false} FilteredChainIsReadable(built: seq<Field>, ops: seq<Derivation>, record: seq<Attr>)
    requires SettledOps(ops) && Settled(record) && Encodable(built)
    ensures ParseLine(LineText(built, ops, record)) == Some(built + RenderAttrs(Wrap(ops, record)))
    ensures StdRecord(ops, record).fields == RenderAttrs(Wrap(ops, record))
  {
    SettledStdRecord(ops, record);
    var h, fields := Handler(Print(built, false), [], 0), RenderAttrs(Wrap(ops, record));
    DerivedCompletes(h, ops, record);
    CompletedBehind(built, fields);
    RendersEncodable(Wrap(ops, record));
    EncodableConcat(built, fields);
    PrintParses(built + fields, false, []);
    assert Print(built + fields, false) + [] == Print(built + fields, false);
  }

  lemma {:induction false} CompletedBehind(built: seq<Field>, fields: seq<Field>)
    ensures Completed(Handler(Print(built, false), [], 0), fields) == Print(built + fields, false)
  {
    var h := Handler(Print(built, false), [], 0);
    assert h.groups[h.begun..] == [];
    assert CloseAll(0) == [];
    if built != [] {
      PrintedEnds(Buffer([], false), built);
      assert [] + Print(built, false) == Print(built, false);
    }
    PrintConcat(built, fields, false);
    if fields == [] {
      assert built + fields == built && Print(built, false) + [] == Print(built, false);
    } else {
      var text := Print(built, false) + Print(fields, built != []);
      assert text + [] == text;
    }
  }
}
