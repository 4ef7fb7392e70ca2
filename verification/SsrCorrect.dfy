/** When the output of the string generator is read as the expression that was meant.

    Every literal of the output is raw text between quotes, and a reader of literals decides whether it is one. Text,
    tags and markers are escaped or bare and always read back; a string attribute does unless it holds a carriage
    return, which its escaper leaves in place. The properties of a component are written without quotes, and the value of
    a boolean attribute without parentheses. */
module SsrCorrect {
  import opened Common
  import opened JsString
  import opened Ssr
  import JsxText

  // ------------------------------------------------------------------------------------------
  // What the grammar of JSX guarantees, and what the generator takes for granted
  // ------------------------------------------------------------------------------------------

  /** A name that needs no escaping between quotes. */
  predicate IsBare(name: string) {
    forall i | 0 <= i < |name| :: name[i] != '\'' && name[i] != '\\' && name[i] != '\n' && name[i] != '\r'
  }

  ghost predicate Bare(node: Node)
    decreases node, 1
  {
    match node
    case Element(tag, attrs, children) => IsBare(tag) && (forall i | 0 <= i < |attrs| :: IsBare(attrs[i].name)) && BareAll(children)
    case Fragment(children) => BareAll(children)
    case Container(e) => BareExpr(e)
    case _ => true
  }

  ghost predicate BareAll(nodes: seq<Node>)
    decreases nodes, 2
  {
    forall i | 0 <= i < |nodes| :: Bare(nodes[i])
  }

  ghost predicate BareExpr(e: Expr)
    decreases e, 0
  {
    match e
    case Cond(_, yes, no) => BareExpr(yes) && BareExpr(no)
    case And(_, right) => BareExpr(right)
    case MapCall(_, _, _, body) => body.Some? ==> Bare(body.value)
    case Jsx(_, node) => Bare(node)
    case Plain(_) => true
  }

  /** No string attribute that is written holds a carriage return, no boolean attribute has a conditional, an assignment or a
      function for its value, and the properties of components have names for keys. */
  ghost predicate Parsable(node: Node)
    decreases node, 1
  {
    match node
    case Element(tag, attrs, children) =>
      if IsComponent(tag) then IsCallee(tag) && KeysAreNames(attrs) && ParsableAll(children)
      else AllPrint(attrs) && (IsVoid(tag) || ParsableAll(children))
    case Fragment(children) => ParsableAll(children)
    case Container(e) => ParsableExpr(e)
    case _ => true
  }

  /** JSX as a value, and empty braces, are no property. */
  ghost predicate KeysAreNames(attrs: seq<Attr>) {
    forall i | 0 <= i < |attrs| && !attrs[i].value.OtherValue? :: IsKey(attrs[i].name)
  }

  ghost predicate Prints(a: Attr) {
    && (!IsEventHandler(a.name) && !IsSkipped(a.name) && a.value.StringValue? ==> '\r' !in a.value.value)
    && (IsLate(a) ==> !a.value.js.form.Loose?)
  }

  ghost predicate AllPrint(attrs: seq<Attr>) {
    forall i | 0 <= i < |attrs| :: Prints(attrs[i])
  }

  ghost predicate ParsableAll(nodes: seq<Node>)
    decreases nodes, 2
  {
    forall i | 0 <= i < |nodes| :: Parsable(nodes[i])
  }

  /** JSX directly in braces is copied as text; only as a branch of a conditional is it generated from. */
  ghost predicate ParsableExpr(e: Expr)
    decreases e, 1
  {
    match e
    case MapCall(_, _, _, body) => body.Some? ==> Parsable(body.value)
    case Jsx(_, _) => true
    case _ => ParsableBranch(e)
  }

  ghost predicate ParsableBranch(e: Expr)
    decreases e, 0
  {
    match e
    case Jsx(_, node) => Parsable(node)
    case Cond(test, yes, no) => !test.form.Loose? && ParsableBranch(yes) && ParsableBranch(no)
    case And(left, right) => !left.form.Loose? && ParsableBranch(right)
    case _ => true
  }

  // ------------------------------------------------------------------------------------------
  // The literals
  // ------------------------------------------------------------------------------------------

  lemma {:induction false} BareReads(s: string)
    requires IsBare(s)
    ensures Read(s, '\'') == Some(s)
  {
    if s != "" {
      BareReads(s[1..]);
      assert s == [s[0]] + s[1..];
    }
  }

  /** A literal reads piece by piece: where a piece reads, what follows reads on its own. */
  lemma {:induction false} ReadConcat(a: string, b: string)
    requires Read(a, '\'').Some?
    ensures Read(a + b, '\'') ==
      if Read(b, '\'').Some? then Some(Read(a, '\'').value + Read(b, '\'').value) else None
    decreases |a|
  {
    if a == "" {
      assert a + b == b;
      if Read(b, '\'').Some? { assert "" + Read(b, '\'').value == Read(b, '\'').value; }
    } else {
      var n := if a[0] == '\\' then 2 else 1;
      ReadConcat(a[n..], b);
      assert (a + b)[n..] == a[n..] + b;
      if Read(b, '\'').Some? {
        var c := if n == 2 then Unescape(a[1]).value else a[0];
        assert [c] + (Read(a[n..], '\'').value + Read(b, '\'').value) == [c] + Read(a[n..], '\'').value + Read(b, '\'').value;
      }
    }
  }

  lemma StringAttrReads(name: string, v: string)
    requires IsBare(name)
    ensures Read(name + "=\"" + EscapeAttrValue(v) + "\"", '\'') ==
      if '\r' in v then None else Some(name + "=\"" + v + "\"")
  {
    var head, body := name + "=\"", EscapeAttrValue(v);
    assert IsBare(head) && IsBare("\"");
    BareReads(head);
    BareReads("\"");
    AttrValueRoundTrip(v);
    assert head + body + "\"" == head + (body + "\"");
    ReadConcat(head, body + "\"");
    if '\r' in v {
      AttrQuoteStaysUnread(v);
    } else {
      ReadConcat(body, "\"");
      assert head + (v + "\"") == head + v + "\"";
    }
  }

  lemma AttrQuoteStaysUnread(v: string)
    requires '\r' in v
    ensures Read(EscapeAttrValue(v) + "\"", '\'') == None
  {
    EscapeAttrValueIsMap(v);
    ReturnStaysUnread(v, "\"");
  }

  lemma {:induction false} ReturnStaysUnread(v: string, after: string)
    requires '\r' in v
    ensures Read(PerChar(v, AttrChar) + after, '\'') == None
  {
    var rest := PerChar(v[1..], AttrChar) + after;
    assert PerChar(v, AttrChar) + after == AttrChar(v[0]) + rest;
    if v[0] != '\r' {
      ReturnStaysUnread(v[1..], after);
      ReadPiece(AttrChar(v[0]), v[0], rest, '\'');
    } else {
      assert (AttrChar(v[0]) + rest)[0] == '\r';
    }
  }

  lemma RawReads(s: string)
    requires IsBare(s)
    ensures Readable(Lit(s)) && Cooked(s) == s && ReadablePiece(Raw(s))
  {
    BareReads(s);
  }

  // ------------------------------------------------------------------------------------------
  // When the generated module parses
  // ------------------------------------------------------------------------------------------

  lemma AttrReadable(a: Attr)
    requires IsBare(a.name)
    ensures EmitAttr(a).Some? ==> (ReadablePiece(EmitAttr(a).value) <==> Prints(a))
    ensures EmitAttr(a).None? ==> Prints(a)
  {
    hide EscapeAttrValue, IsBoolean, IsEventHandler, IsSkipped, Read;
    var name := HtmlName(a.name);
    if EmitAttr(a).Some? {
      match a.value {
        case StringValue(v) => StringAttrReads(name, v);
        case ExprValue(js) =>
          assert IsBare(" " + name) && IsBare(name + "=\"") && IsBare("style=\"") && IsBare("\"");
          RawReads(" " + name);
          EmptyReads();
          Template3Readable(name + "=\"", EscAttr(js), "\"");
          Template3Readable("style=\"", Style(js), "\"");
        case NoValue => RawReads(name);
        case OtherValue(_) =>
      }
    }
  }

  lemma Template3Readable(a: string, mid: Out, b: string)
    requires IsBare(a) && IsBare(b)
    ensures Readable(Template([Raw(a), Splice(mid), Raw(b)])) <==> Readable(mid)
  {
    RawReads(a);
    RawReads(b);
    var pieces := [Raw(a), Splice(mid), Raw(b)];
    assert pieces[1] == Splice(mid);
  }

  ghost predicate ReadablePieces(pieces: seq<Piece>) {
    forall i | 0 <= i < |pieces| :: ReadablePiece(pieces[i])
  }

  lemma {:induction false} AttrsReadable(attrs: seq<Attr>)
    requires forall i | 0 <= i < |attrs| :: IsBare(attrs[i].name)
    ensures ReadablePieces(Static(attrs)) && ReadablePieces(Late(attrs)) <==> AllPrint(attrs)
  {
    if attrs != [] {
      hide ReadablePieces, AllPrint, EmitAttr, IsLate, IsBare;
      AttrReadable(attrs[0]);
      AttrsReadable(attrs[1..]);
      var p := EmitAttr(attrs[0]);
      if p.Some? { ReadableOne(p.value); }
      ReadableConcat(if p.Some? && !IsLate(attrs[0]) then [p.value] else [], Static(attrs[1..]));
      ReadableConcat(if p.Some? && IsLate(attrs[0]) then [p.value] else [], Late(attrs[1..]));
    }
  }

  lemma ReadableOne(p: Piece)
    ensures ReadablePieces([p]) <==> ReadablePiece(p)
  {
    assert [p][0] == p;
  }

  lemma ReadableConcat(a: seq<Piece>, b: seq<Piece>)
    ensures ReadablePieces(a + b) <==> ReadablePieces(a) && ReadablePieces(b)
  {
    if ReadablePieces(a + b) {
      forall i | 0 <= i < |a| ensures ReadablePiece(a[i]) { assert (a + b)[i] == a[i]; }
      forall i | 0 <= i < |b| ensures ReadablePiece(b[i]) { assert (a + b)[|a|+i] == b[i]; }
    }
  }

  lemma {:induction false} SpacedReadable(pieces: seq<Piece>)
    ensures ReadablePieces(Spaced(pieces)) <==> ReadablePieces(pieces)
  {
    if pieces != [] {
      SpacedReadable(pieces[1..]);
      assert IsBare(" ");
      RawReads(" ");
      ReadableConcat([Raw(" ")] + [pieces[0]], Spaced(pieces[1..]));
      ReadableConcat([Raw(" ")], [pieces[0]]);
      assert [Raw(" ")] + [pieces[0]] == [Raw(" "), pieces[0]];
      ReadableConcat([pieces[0]], pieces[1..]);
      assert [pieces[0]] + pieces[1..] == pieces;
    }
  }

  lemma OpenTagReadable(tag: string, attrs: seq<Attr>, hydration: string)
    requires IsBare(tag) && IsBare(hydration) && forall i | 0 <= i < |attrs| :: IsBare(attrs[i].name)
    ensures Readable(Template([Raw("<" + tag)] + EmitAttrs(attrs, hydration) + [Raw(">")]))
       <==> AllPrint(attrs)
  {
    var hyd := if hydration == "" then [] else [Raw(" data-v-id=\"" + hydration + "\"")];
    assert IsBare("<" + tag) && IsBare(">") && IsBare(" data-v-id=\"" + hydration + "\"");
    RawReads("<" + tag);
    RawReads(">");
    RawReads(" data-v-id=\"" + hydration + "\"");
    AttrsReadable(attrs);
    SpacedReadable(Static(attrs));
    ReadableConcat(Spaced(Static(attrs)), Late(attrs));
    ReadableConcat(Spaced(Static(attrs)) + Late(attrs), hyd);
    ReadableConcat([Raw("<" + tag)], EmitAttrs(attrs, hydration));
    ReadableConcat([Raw("<" + tag)] + EmitAttrs(attrs, hydration), [Raw(">")]);
  }

  ghost predicate ReadableProps(props: seq<Prop>) {
    forall i | 0 <= i < |props| :: ReadableProp(props[i])
  }

  lemma {:induction false} PropsReadable(attrs: seq<Attr>)
    ensures ReadableProps(EmitProps(attrs)) <==> KeysAreNames(attrs)
  {
    if attrs != [] {
      hide ReadableProps, KeysAreNames, EmitProp;
      PropsReadable(attrs[1..]);
      PropReadable(attrs[0]);
      ReadablePropsConcat(EmitProp(attrs[0]), EmitProps(attrs[1..]));
      KeysCons(attrs);
    } else {
      assert ReadableProps([]) && KeysAreNames([]);
    }
  }

  lemma PropReadable(a: Attr)
    ensures ReadableProps(EmitProp(a)) <==> a.value.OtherValue? || IsKey(a.name)
  {
    hide IsKey, EscapeStringLiteral, Read;
    if a.value.StringValue? { StringLiteralRoundTrip(a.value.value); }
    if EmitProp(a) != [] { assert EmitProp(a)[0].name == a.name; }
  }

  lemma ReadablePropsConcat(a: seq<Prop>, b: seq<Prop>)
    ensures ReadableProps(a + b) <==> ReadableProps(a) && ReadableProps(b)
  {
    if ReadableProps(a + b) {
      forall i | 0 <= i < |a| ensures ReadableProp(a[i]) { assert (a + b)[i] == a[i]; }
      forall i | 0 <= i < |b| ensures ReadableProp(b[i]) { assert (a + b)[|a|+i] == b[i]; }
    }
  }

  lemma KeysCons(attrs: seq<Attr>)
    requires attrs != []
    ensures KeysAreNames(attrs) <==> (attrs[0].value.OtherValue? || IsKey(attrs[0].name)) && KeysAreNames(attrs[1..])
  {
    assert forall i | 1 <= i < |attrs| :: attrs[i] == attrs[1..][i-1];
  }

  ghost predicate ReadableAll(parts: seq<Out>) {
    forall i | 0 <= i < |parts| :: Readable(parts[i])
  }

  lemma EmptyReads()
    ensures Readable(EMPTY) && Cooked("") == ""
  {
  }

  lemma CallReadable(tag: string, attrs: seq<Attr>, parts: seq<Out>)
    ensures Readable(Call(tag, EmitProps(attrs) + ChildrenProp(parts)))
       <==> IsCallee(tag) && KeysAreNames(attrs) && ReadableAll(parts)
  {
    hide KeysAreNames, IsCallee;
    var a, b := EmitProps(attrs), ChildrenProp(parts);
    PropsReadable(attrs);
    ReadablePropsConcat(a, b);
    assert Readable(Call(tag, a + b)) <==> IsCallee(tag) && ReadableProps(a + b);
    if parts != [] {
      assert IsKey("children");
      assert ReadableProps(b) <==> ReadableProp(b[0]);
      assert ReadableProp(b[0]) <==> ReadableAll(parts);
    }
  }

  lemma Plus3Readable(a: string, mid: Out, b: string)
    requires IsBare(a) && IsBare(b)
    ensures Readable(Plus([Lit(a), mid, Lit(b)])) <==> Readable(mid)
  {
    RawReads(a);
    RawReads(b);
    var parts := [Lit(a), mid, Lit(b)];
    assert parts[1] == mid;
  }

  lemma ElementReadable(tag: string, attrs: seq<Attr>, children: seq<Node>, reactive: set<string>, hydration: string)
    requires !IsComponent(tag) && IsBare(tag) && IsBare(hydration) && forall i | 0 <= i < |attrs| :: IsBare(attrs[i].name)
    requires !IsVoid(tag) ==> (ReadableAll(EmitAll(children, reactive, IsRawText(tag))) <==> ParsableAll(children))
    ensures Readable(Emit(Element(tag, attrs, children), reactive, false, hydration)) <==> Parsable(Element(tag, attrs, children))
  {
    hide EmitAttrs, Prints, Read;
    OpenTagReadable(tag, attrs, hydration);
    if !IsVoid(tag) {
      var open := Template([Raw("<" + tag)] + EmitAttrs(attrs, hydration) + [Raw(">")]);
      var mid := Joined(EmitAll(children, reactive, IsRawText(tag)));
      EmptyReads();
      assert IsBare("</" + tag + ">");
      RawReads("</" + tag + ">");
      var parts := [open, mid, Lit("</" + tag + ">")];
      assert parts[0] == open && parts[1] == mid;
    }
  }

  /** The generated text is read as the expression exactly when no string attribute it writes holds a carriage return, no
      boolean attribute and no conditional has a test that needs parentheses, and every property of a component that it
      calls has a name for a key. */
  lemma {:induction false} EmitReadable(node: Node, reactive: set<string>, raw: bool, hydration: string)
    requires Bare(node) && IsBare(hydration)
    ensures Readable(Emit(node, reactive, raw, hydration)) <==> Parsable(node)
    decreases node, 1
  {
    hide Read, EmitAttrs, Prints;
    match node {
      case Text(t) => EmptyReads(); StringLiteralRoundTrip(JsxText.ServerClean(t));
      case Element(tag, attrs, children) =>
        if IsComponent(tag) {
          EmitAllReadable(children, {}, false);
          CallReadable(tag, attrs, EmitAll(children, {}, false));
        } else {
          if !IsVoid(tag) { EmitAllReadable(children, reactive, IsRawText(tag)); }
          ElementReadable(tag, attrs, children, reactive, hydration);
        }
      case Fragment(children) => EmptyReads(); EmitAllReadable(children, reactive, false);
      case Container(e) => EmitExprReadable(e, reactive, raw);
      case Nothing(_) => EmptyReads();
    }
  }

  lemma {:induction false} EmitAllReadable(children: seq<Node>, reactive: set<string>, raw: bool)
    requires BareAll(children)
    ensures ReadableAll(EmitAll(children, reactive, raw)) <==> ParsableAll(children)
    decreases children, 2
  {
    if children == [] {
      ParsableNone();
    } else {
      hide ReadableAll, ParsableAll, Parsable, Readable, Emit, Read;
      var first, rest := Emit(children[0], reactive, raw, ""), EmitAll(children[1..], reactive, raw);
      EmitReadable(children[0], reactive, raw, "");
      EmitAllReadable(children[1..], reactive, raw);
      EmptyReads();
      ReadableCons(first, rest);
      assert [] + rest == rest;
    }
  }

  lemma ParsableNone()
    ensures ParsableAll([]) && ReadableAll([])
  {
  }

  lemma ReadableCons(first: Out, rest: seq<Out>)
    ensures ReadableAll([first] + rest) <==> Readable(first) && ReadableAll(rest)
  {
    var all := [first] + rest;
    assert all[0] == first && forall i | 0 <= i < |rest| :: all[i+1] == rest[i];
  }

  lemma {:induction false} EmitExprReadable(e: Expr, reactive: set<string>, raw: bool)
    requires BareExpr(e)
    ensures Readable(EmitExpr(e, reactive, raw)) <==> ParsableExpr(e)
    decreases e, 1
  {
    hide Emit, Bare, Parsable, Read, EmitBranch, IsReactive;
    match e {
      case Cond(_, _, _) => EmitBranchReadable(e, reactive);
      case And(_, _) => EmitBranchReadable(e, reactive);
      case MapCall(whole, list, params, body) =>
        if body.Some? {
          EmitReadable(body.value, reactive, false, "");
          Plus3Readable("<!--list-->", MapJoin(list, ParamName(params), Emit(body.value, reactive, false, "")), "<!--/list-->");
        }
      case _ => Plus3Readable("<!--child-->", Esc(Whole(e)), "<!--/child-->");
    }
  }

  lemma {:induction false} EmitBranchReadable(e: Expr, reactive: set<string>)
    requires BareExpr(e)
    ensures Readable(EmitBranch(e, reactive)) <==> ParsableBranch(e)
    decreases e, 0
  {
    hide Emit, Bare, Parsable, Read;
    match e {
      case Jsx(_, node) => EmitReadable(node, reactive, false, "");
      case Cond(test, yes, no) =>
        EmitBranchReadable(yes, reactive);
        EmitBranchReadable(no, reactive);
        Plus3Readable("<!--conditional-->", Choice(test, EmitBranch(yes, reactive), EmitBranch(no, reactive)), "<!--/conditional-->");
      case And(left, right) =>
        EmitBranchReadable(right, reactive);
        EmptyReads();
        Plus3Readable("<!--conditional-->", Choice(left, EmitBranch(right, reactive), EMPTY), "<!--/conditional-->");
      case _ =>
    }
  }

  /** <Card data-id="x"/> becomes a call with the property data-id, which cannot be read. */
  lemma DataPropertyDoesNotParse(reactive: set<string>, raw: bool, hydration: string)
    ensures var card := Element("Card", [Attr("data-id", StringValue("x"))], []);
      Emit(card, reactive, raw, hydration) == Call("Card", [Prop("data-id", PropString("x"))])
      && Bare(card) && !Readable(Emit(card, reactive, raw, hydration))
  {
    hide Read, EscapeStringLiteral, IsBare, EmitAttrs;
    var attr := Attr("data-id", StringValue("x"));
    var props := [Prop("data-id", PropString("x"))];
    LetterStays();
    CardCall(attr, props);
    assert IsBare("Card") && IsBare("data-id") by { BareNames(); }
    assert !IsNameChar("data-id"[4]);
    assert !ReadableProp(props[0]);
  }

  /** <tag disabled={a ? b : c}/>: the attribute's text comes into the test of another conditional. */
  lemma LooseFlagDoesNotParse(tag: string, name: string, js: Js, reactive: set<string>, hydration: string)
    requires IsBare(tag) && !IsComponent(tag) && IsBare(name) && IsBare(hydration) && IsLate(Attr(name, ExprValue(js))) && js.form.Loose?
    ensures !Readable(Emit(Element(tag, [Attr(name, ExprValue(js))], []), reactive, false, hydration))
  {
    hide Readable, Emit;
    var attr := Attr(name, ExprValue(js));
    var node := Element(tag, [attr], []);
    assert [attr][0] == attr && BareAll([]);
    EmitReadable(node, reactive, false, hydration);
    assert !Prints([attr][0]);
  }

  lemma LetterStays()
    ensures EscapeStringLiteral("x") == "x"
  {
    EscapeStringLiteralIsMap("x");
    Solo('x');
  }

  lemma BareNames()
    ensures IsBare("Card") && IsBare("data-id")
  {
  }

  lemma CardCall(attr: Attr, props: seq<Prop>)
    requires attr == Attr("data-id", StringValue("x")) && props == [Prop("data-id", PropString("x"))]
    requires EscapeStringLiteral("x") == "x"
    ensures EmitProps([attr]) + ChildrenProp(EmitAll([], {}, false)) == props
  {
    hide EscapeStringLiteral;
    Solo(attr);
    assert EmitProps([attr]) == props + [] == props;
    assert EmitAll([], {}, false) == [] && props + [] == props;
  }
}
