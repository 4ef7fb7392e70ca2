/** What the program of the DOM generator shows of texts, attributes, keys and expressions, read off what is built and
    stated with the trees themselves. */
module DomShown {
  import opened Common
  import opened JsString
  import JsxText
  import opened DomKeys
  import opened Dom
  import opened DomRuns
  import opened DomParses
  import opened DomMeaning

  // ------------------------------------------------------------------------------------------
  // Texts
  // ------------------------------------------------------------------------------------------

  /** The texts of a tree, as they are written, in order. */
  function RawTexts(n: Node): seq<string>
    decreases n, 0
  {
    match n
    case Text(raw) => [raw]
    case Element(_, _, children) => RawTextsOf(children)
    case Component(_, _, children) => RawTextsOf(children)
    case Fragment(children) => RawTextsOf(children)
    case _ => []
  }

  function RawTextsOf(children: seq<Node>): seq<string>
    decreases children, 0
  {
    if children == [] then [] else RawTexts(children[0]) + RawTextsOf(children[1..])
  }

  /** The same, cleaned; a text of which nothing is left is none. */
  function Cleaned(texts: seq<string>): seq<string> {
    if texts == [] then []
    else
      var text := JsxText.ClientClean(texts[0]);
      (if text == "" then [] else [text]) + Cleaned(texts[1..])
  }

  function Joined(texts: seq<string>): string { if texts == [] then "" else texts[0] + Joined(texts[1..]) }

  predicate NoBraces(n: Node)
    decreases n, 0
  {
    match n
    case Element(_, _, children) => NoBracesIn(children)
    case Component(_, _, children) => NoBracesIn(children)
    case Fragment(children) => NoBracesIn(children)
    case Braces(_) => false
    case _ => true
  }

  predicate NoBracesIn(children: seq<Node>)
    decreases children, 0
  {
    children == [] || (NoBraces(children[0]) && NoBracesIn(children[1..]))
  }

  /** The letters that are shown, in order. */
  function ShownTexts(v: View): seq<string>
    decreases v, 0
  {
    match v
    case Letters(text) => [text]
    case Tag(_, _, children) => ShownTextsOf(children)
    case Use(_, _, children) => ShownTextsOf(children)
    case Group(children) => ShownTextsOf(children)
    case _ => []
  }

  function ShownTextsOf(vs: seq<View>): seq<string>
    decreases vs, 0
  {
    if vs == [] then [] else ShownTexts(vs[0]) + ShownTextsOf(vs[1..])
  }

  lemma {:induction false} CleanedConcat(a: seq<string>, b: seq<string>)
    ensures Cleaned(a + b) == Cleaned(a) + Cleaned(b)
  {
    if a == [] {
      assert a + b == b;
    } else {
      assert (a + b)[1..] == a[1..] + b;
      CleanedConcat(a[1..], b);
    }
  }

  lemma {:induction false} ShownConcat(a: seq<View>, b: seq<View>)
    ensures ShownTextsOf(a + b) == ShownTextsOf(a) + ShownTextsOf(b)
  {
    hide ShownTexts;
    if a == [] {
      assert a + b == b;
    } else {
      assert (a + b)[1..] == a[1..] + b;
      ShownConcat(a[1..], b);
    }
  }

  lemma ShownOne(v: View)
    ensures ShownTextsOf([v]) == ShownTexts(v)
  {
    hide ShownTexts;
    Solo(v);
    assert ShownTexts(v) + [] == ShownTexts(v);
  }

  /** What a tree of elements, components, fragments and texts shows are its texts, cleaned and in order. */
  lemma {:induction false} TextsAreBuilt(n: Node, c: nat, mode: Mode, top: Option<nat>, sc: Scope, w: World)
    requires NoBraces(n) && IsJsx(n)
    ensures ShownTexts(Erase(Built(n, c, mode, top, sc, w))) == Cleaned(RawTexts(n))
    decreases n, 0
  {
    hide BuiltInside, BuiltValues, BuiltProps, EraseProps, EraseAll, Meanings, NoBracesIn, ShownTextsOf, RawTextsOf, Cleaned;
    match n
    case Element(_, _, children) => TextsInside(children, c + 1, mode, Some(c), sc, w);
    case Component(_, attrs, children) => TextsInside(children, c + PropVars(attrs), mode, top, sc, w);
    case Fragment(children) => TextsInside(children, c + 1, mode, top, sc, w);
  }

  lemma {:induction false} TextsInside(children: seq<Node>, c: nat, mode: Mode, top: Option<nat>, sc: Scope, w: World)
    requires NoBracesIn(children)
    ensures ShownTextsOf(EraseAll(BuiltInside(children, c, mode, top, sc, w))) == Cleaned(RawTextsOf(children))
    ensures ShownTextsOf(EraseAll(BuiltValues(children, c, mode, top, sc, w))) == Cleaned(RawTextsOf(children))
    decreases children, 0
  {
    hide Built, Erase, ShownTexts, RawTexts, Absent, NoBraces, Cleaned;
    if children == [] {
      NothingShown();
    } else {
      var n, next := children[0], c + Vars(children[0]);
      var built := Built(n, c, ChildMode(n, mode), top, sc, w);
      var inside := if Absent(n) then [] else Spliced(built);
      var value := if Absent(n) then [] else [built];
      OneChild(n, c, ChildMode(n, mode), top, sc, w);
      TextsInside(children[1..], next, mode, top, sc, w);
      EraseConcat(inside, BuiltInside(children[1..], next, mode, top, sc, w));
      EraseConcat(value, BuiltValues(children[1..], next, mode, top, sc, w));
      ShownConcat(EraseAll(inside), EraseAll(BuiltInside(children[1..], next, mode, top, sc, w)));
      ShownConcat(EraseAll(value), EraseAll(BuiltValues(children[1..], next, mode, top, sc, w)));
      CleanedConcat(RawTexts(n), RawTextsOf(children[1..]));
    }
  }

  lemma NothingShown()
    ensures ShownTextsOf(EraseAll([])) == [] == Cleaned([])
  {
  }

  lemma {:induction false} OneChild(n: Node, c: nat, mode: Mode, top: Option<nat>, sc: Scope, w: World)
    requires NoBraces(n)
    ensures var built := Built(n, c, mode, top, sc, w);
      ShownTextsOf(EraseAll(if Absent(n) then [] else Spliced(built))) == Cleaned(RawTexts(n))
      && ShownTextsOf(EraseAll(if Absent(n) then [] else [built])) == Cleaned(RawTexts(n))
    decreases n, 1
  {
    hide BuiltInside, BuiltValues, BuiltProps, Meanings, ShownTextsOf, EraseAll, NoBracesIn, EraseProps, RawTextsOf;
    var built := Built(n, c, mode, top, sc, w);
    NothingShown();
    if IsJsx(n) {
      TextsAreBuilt(n, c, mode, top, sc, w);
      EraseOne(built);
      ShownOne(Erase(built));
    } else if n.Text? {
      EraseOne(built);
      ShownOne(Erase(built));
      var text := JsxText.ClientClean(n.raw);
      Solo(n.raw);
      assert Cleaned([n.raw]) == (if text == "" then [] else [text]) + Cleaned([]);
    }
  }

  /** Every text of a tree without expressions is shown, cleaned and in its place: none is dropped but those of which
      cleaning leaves nothing. */
  lemma TextsAreShown(n: Node, w: World)
    requires NoBraces(n) && IsJsx(n) && Shown(n, w).Some?
    ensures ShownTexts(Shown(n, w).value) == Cleaned(RawTexts(n))
    ensures JsxText.Visible(Joined(ShownTexts(Shown(n, w).value))) == JsxText.Visible(Joined(RawTexts(n)))
  {
    hide Shown, Built, Erase, Cleaned, Compiles;
    ShownIsBuilt(n, w);
    TextsAreBuilt(n, 0, Collecting, None, map[], w);
    LettersAreKept(RawTexts(n));
  }

  lemma {:induction false} LettersAreKept(texts: seq<string>)
    ensures JsxText.Visible(Joined(Cleaned(texts))) == JsxText.Visible(Joined(texts))
  {
    if texts != [] {
      var text := JsxText.ClientClean(texts[0]);
      LettersAreKept(texts[1..]);
      JsxText.CleaningKeepsVisibleText(texts[0]);
      JsxText.VisibleConcat(texts[0], Joined(texts[1..]));
      JsxText.VisibleConcat(text, Joined(Cleaned(texts[1..])));
      if text == "" {
        NoPrefix(Cleaned(texts[1..]));
        NoPrefix(Joined(Cleaned(texts[1..])));
      } else {
        ConsEqual(text, Cleaned(texts[1..]), text, Cleaned(texts[1..]));
      }
    }
  }

  /** <p>Hello</p> and <P>Hello</P>. */
  lemma TextIsShown(tag: string, raw: string, w: World)
    requires JsxText.ClientClean(raw) != ""
    ensures Shown(Element(tag, [], [Text(raw)]), w) == Some(Tag(tag, [], [Letters(JsxText.ClientClean(raw))]))
    ensures IsCallee(tag) ==> Shown(Component(tag, [], [Text(raw)]), w) == Some(Use(tag, [], [Letters(JsxText.ClientClean(raw))]))
  {
    hide Run, Emit, JsxText.ClientClean;
    var none: Scope := map[];
    var text := JsxText.ClientClean(raw);
    var t := Text(raw);
    Solo(t);
    ShownIsBuilt(Element(tag, [], [t]), w);
    ShownIsBuilt(Component(tag, [], [t]), w);
    assert CompilesChild(t, Collecting);
    assert CompilesInside([], Collecting) && CompilesInside([t], Collecting) && CompilesAttrs(tag, [], Collecting);
    assert CompilesValues([], Collecting, true) && CompilesValue(t, Deeper(Collecting), true) && CompilesValues([t], Collecting, true);
    assert Present([]) == 0 && Present([t]) == 1 && CompilesProps([], Collecting);
    var inside, value := Words(text, Some(0)), Words(text, None);
    Solo(inside);
    Solo(value);
    assert BuiltInside([], 1, Collecting, Some(0), none, w) == [] && BuiltInside([t], 1, Collecting, Some(0), none, w) == [inside];
    assert BuiltValues([], 0, Collecting, None, none, w) == [] && BuiltValues([t], 0, Collecting, None, none, w) == [value];
    EraseOne(inside);
    EraseOne(value);
    assert Meanings(tag, [], false, none, w) == [] && BuiltProps([], 0, Collecting, None, none, w) == [] && EraseProps([]) == [];
  }

  // ------------------------------------------------------------------------------------------
  // Attributes and expressions
  // ------------------------------------------------------------------------------------------

  /** <tag className="v"/>, and <tag onClick={f}/>. */
  lemma ClassIsSetAndClickIsHeard(tag: string, v: string, js: Js, literal: bool, reactive: bool, w: World)
    requires js.holds == []
    ensures Shown(Element(tag, [Static("className", v)], []), w) == Some(Tag(tag, [Attribute("class", v)], []))
    ensures Shown(Element(tag, [Expression("onClick", js, literal, reactive, Loose)], []), w)
         == Some(Tag(tag, [Listener("click", Close(js, map[]))], []))
  {
    hide Shown, WantedBy, Close;
    var class', click := Static("className", v), Expression("onClick", js, literal, reactive, Loose);
    OneSettingShows(tag, class', w);
    OneSettingShows(tag, click, w);
    ClickIsWanted(tag, v, js, literal, reactive, w);
  }

  lemma ClickIsWanted(tag: string, v: string, js: Js, literal: bool, reactive: bool, w: World)
    ensures WantedBy(tag, Static("className", v), map[], w) == [Attribute("class", v)]
    ensures WantedBy(tag, Expression("onClick", js, literal, reactive, Loose), map[], w) == [Listener("click", Close(js, map[]))]
    ensures CompilesAttr(tag, Expression("onClick", js, literal, reactive, Loose), Collecting) <==> MayBeLost(js, Collecting)
  {
    hide Close, MayBeLost;
    assert [LowerChar('C')] + "onClick"[3..] == "click";
    assert "onClick"[..2] == "on" && DomName("onClick") == "onClick" && IsListener("onClick");
  }

  /** An element with one attribute. */
  lemma OneSettingShows(tag: string, a: Attr, w: World)
    requires CompilesAttr(tag, a, Collecting) && !a.Markup?
    ensures Shown(Element(tag, [a], []), w) == Some(Tag(tag, WantedBy(tag, a, map[], w), []))
  {
    hide Run, Emit, WantedBy, Meaning, CompilesAttr;
    var none: Scope := map[];
    Solo(a);
    ShownIsBuilt(Element(tag, [a], []), w);
    SettingIsWanted(tag, a, none, w);
    assert CompilesAttrs(tag, [], Collecting) && CompilesAttrs(tag, [a], Collecting) && CompilesInside([], Collecting);
    assert Meanings(tag, [], false, none, w) == [];
    assert Meanings(tag, [a], false, none, w) == Meaning(tag, a, false, none, w) + [] == Meaning(tag, a, false, none, w);
    assert BuiltInside([], 1, Collecting, Some(0), none, w) == [] && EraseAll([]) == [];
  }

  lemma NothingCompiles(mode: Mode)
    ensures CompilesProps([], mode) && CompilesHolds([], mode) && CompilesValues([], mode, false)
  {
  }

  /** <Tag name={e}/>: the property is computed anew at each use exactly if its value is no literal. */
  lemma PropertyIsLive(tag: string, name: string, js: Js, literal: bool, reactive: bool, shape: Shape, w: World)
    requires IsCallee(tag) && name != "key" && js.holds == []
    ensures Shown(Component(tag, [Expression(name, js, literal, reactive, shape)], []), w)
         == Some(Use(tag, [PassedCode(name, Close(js, map[]), !literal, [])], []))
  {
    hide Run, Emit, Close;
    var none: Scope := map[];
    var a := Expression(name, js, literal, reactive, shape);
    Solo(a);
    ShownIsBuilt(Component(tag, [a], []), w);
    NothingCompiles(Collecting);
    assert CompilesProp(a, Collecting);
    assert CompilesProps([a], Collecting);
    var p: Passed<Tree> := PassedCode(name, Close(js, none), !literal, []);
    assert BuiltParts([], 0, Collecting, None, none, w) == [];
    assert BuiltProp(a, 0, Collecting, None, none, w) == [p] && BuiltProps([], 0, Collecting, None, none, w) == [];
    assert BuiltProps([a], 0, Collecting, None, none, w) == [p] + [] == [p];
    assert BuiltValues([], 0, Collecting, None, none, w) == [] && EraseAll([]) == [] && EraseProps([]) == [];
    Solo(p);
    Solo(EraseProp(p));
    assert EraseProps([p]) == [EraseProp(p)] + EraseProps([]) == [EraseProp(p)];
  }

  /** <tag>{e}</tag>: what is shown follows what it depends on exactly if the expression is reactive and no literal. */
  lemma ExpressionIsLive(tag: string, js: Js, literal: bool, reactive: bool, w: World)
    requires js.holds == [] && !BeginsWithBrace(js.text)
    ensures Shown(Element(tag, [], [Braces(Plain(js, literal, reactive))]), w)
         == Some(Tag(tag, [], [Slot(Close(js, map[]), reactive && !literal)]))
  {
    hide Run, Emit, Close;
    var none: Scope := map[];
    var slot := Braces(Plain(js, literal, reactive));
    ShownIsBuilt(Element(tag, [], [slot]), w);
    SlotCompiles(js, literal, reactive, Collecting);
    SlotBuilds(js, literal, reactive, 1, Collecting, Some(0), none, w);
    assert CompilesAttrs(tag, [], Collecting);
    EraseOne(Hole(Close(js, none), reactive && !literal, Some(0)));
    assert Meanings(tag, [], false, none, w) == [];
  }

  /** The children stack is entered exactly if there is a child that is something. */
  lemma EntersIffThereIsAChild(tag: string, children: seq<Node>, c: nat, mode: Mode)
    ensures var code := Emit(Element(tag, [], children), c, mode);
      code.Closure? && (Enter(c) in code.body <==>
        exists i | 0 <= i < |children| :: !children[i].Nothing? && (children[i].Text? ==> JsxText.ClientClean(children[i].raw) != ""))
  {
    hide EmitChildren, JsxText.ClientClean;
    assert EmitAttrs(c, tag, [], mode) == [];
    if i :| 0 <= i < |children| && !children[i].Nothing? && (children[i].Text? ==> JsxText.ClientClean(children[i].raw) != "") {
      assert !Absent(children[i]);
    }
  }

  // ------------------------------------------------------------------------------------------
  // Keys
  // ------------------------------------------------------------------------------------------

  predicate IsKey(a: Attr) { a.Expression? && a.name == "key" }

  lemma {:induction false} FirstKeyIsTaken(attrs: seq<Attr>)
    ensures KeyIn(attrs).None? <==> forall a <- attrs :: !IsKey(a)
    ensures forall i | 0 <= i < |attrs| && IsKey(attrs[i]) && (forall j | 0 <= j < i :: !IsKey(attrs[j])) ::
      KeyIn(attrs) == Some(Key(attrs[i].js, attrs[i].shape))
  {
    if attrs != [] {
      FirstKeyIsTaken(attrs[1..]);
      assert forall i | 0 < i < |attrs| :: attrs[i] == attrs[1..][i-1];
      forall i | 0 <= i < |attrs| && IsKey(attrs[i]) && (forall j | 0 <= j < i :: !IsKey(attrs[j]))
        ensures KeyIn(attrs) == Some(Key(attrs[i].js, attrs[i].shape))
      {
        if i > 0 {
          assert !IsKey(attrs[0]);
          assert forall j | 0 <= j < i - 1 :: attrs[1..][j] == attrs[j+1];
          assert attrs[1..][i-1] == attrs[i];
        }
      }
    }
  }

  /** items.map((x, i, ..) => <tag ../>), alone and behind declarations: the list gets the text of the first attribute named
      key that has an expression, and no key function without one; the rows that were written have that attribute's value. */
  lemma ListTakesTheFirstKey(list: Js, item: string, others: seq<Identifier>, index: bool, body: Body, parent: nat, c: nat, mode: Mode, w: World)
    requires (body.Whole? || body.Block?) && (body.node.Element? || body.node.Component?)
    requires w.items(Close(list, map[])) != []
    ensures var n, attrs := Braces(Mapped(list, item, others, index, body)), body.node.attrs;
      var code, stmts, meant := Emit(n, c, mode), EmitChild(n, parent, c, mode), Meant(n, map[], w);
      && code.ListValue? && |stmts| == 1 && stmts[0].ListInto? && stmts[0].key == code.key && meant.Lines?
      && (code.key.None? <==> forall a <- attrs :: !IsKey(a))
      && (meant.keys == [] <==> forall a <- attrs :: !IsKey(a))
      && (forall i | 0 <= i < |attrs| && IsKey(attrs[i]) && (forall j | 0 <= j < i :: !IsKey(attrs[j])) ::
            code.key.Some? && code.key.value.text == FormatExprText(attrs[i].shape)
            && meant.keys[0].Closed? && meant.keys[0].text == attrs[i].js.text)
  {
    hide EmitBody, References, FormatExprText, MeantRows, KeyIn, ScopeIn, Inside;
    FirstKeyIsTaken(body.node.attrs);
    var n := Braces(Mapped(list, item, others, index, body));
    assert !Absent(n) && !IsInserted(n, mode) && BodyKey(body) == KeyIn(body.node.attrs);
  }

  /** A fragment, and a body without JSX, have no key. */
  lemma NothingElseHasAKey(list: Js, item: string, others: seq<Identifier>, index: bool, children: seq<Node>, js: Js, c: nat, mode: Mode)
    ensures Emit(Braces(Mapped(list, item, others, index, Whole(Fragment(children)))), c, mode)
         == ListValue(CopyOf(list, mode), None, item, EmitBody(Whole(Fragment(children)), c, mode))
    ensures Emit(Braces(Mapped(list, item, others, index, Without(js))), c, mode) == ListValue(CopyOf(list, mode), None, item, Raw(CopyOf(js, mode)))
  {
    hide Emit, References, CopyOf;
    var a, b := Mapped(list, item, others, index, Whole(Fragment(children))), Mapped(list, item, others, index, Without(js));
    EmitsExpression(a, c, mode);
    EmitsExpression(b, c, mode);
    assert EmitBody(Without(js), c, mode) == Raw(CopyOf(js, mode));
  }

  /** Of several returns the key that was found is taken. */
  lemma FoundKeyIsTaken(list: Js, item: string, others: seq<Identifier>, index: bool, around: Js, locals: seq<string>, kept: bool,
                        key: Option<Key>, node: Node, c: nat, mode: Mode, w: World)
    requires w.items(Close(list, map[])) != []
    ensures var n := Braces(Mapped(list, item, others, index, Buried(around, locals, kept, key, node)));
      var code, meant := Emit(n, c, mode), Meant(n, map[], w);
      && code.ListValue? && meant.Lines? && (code.key.None? <==> key.None?) && (meant.keys == [] <==> key.None?)
      && (key.Some? ==> code.key.value.text == FormatExprText(key.value.shape)
                        && meant.keys[0].Closed? && meant.keys[0].text == key.value.js.text)
  {
    hide EmitBody, References, FormatExprText, MeantRows, ScopeIn, Inside;
  }

  lemma EmitsExpression(e: Expr, c: nat, mode: Mode)
    ensures Emit(Braces(e), c, mode) == EmitExpr(e, c, mode)
  {
  }

  // ------------------------------------------------------------------------------------------
  // How far the collector goes
  // ------------------------------------------------------------------------------------------

  /** Array.from(rows, () => <span/>) */
  function Callback(): Node {
    Braces(Plain(Js("Array.from(rows, () => <span/>)", {"rows"}, [Held(Element("span", [], []), true)]), false, false))
  }

  /** The callback's JSX is generated if the callback stands in braces directly in a root, whatever that is. */
  lemma CallbackOfARootIsEntered(tag: string, c: nat)
    ensures Parses(Emit(Element(tag, [], [Callback()]), c, Collecting)) && Parses(Emit(Fragment([Callback()]), c, Collecting))
    ensures IsCallee(tag) ==> Parses(Emit(Component(tag, [], [Callback()]), c, Collecting))
  {
    hide Parses, Emit;
    var n := Callback();
    CompilesIffParses(Element(tag, [], [n]), c, Collecting);
    CompilesIffParses(Fragment([n]), c, Collecting);
    CompilesIffParses(Component(tag, [], [n]), c, Collecting);
    SlotCompiles(n.expr.js, false, false, Collecting);
    Solo(n);
    assert CompilesAttrs(tag, [], Collecting) && CompilesProps([], Collecting);
    BracesArePresent(n.expr);
    assert Present([]) == 0 && Present([n]) == 1;
    assert CompilesValue(n, Collecting, true) && CompilesValues([], Collecting, true);
  }

  ghost predicate IsLeft(within: Node, tag: string, c: nat) { !Parses(Emit(Element(tag, [], [within]), c, Collecting)) }

  /** In an element, a fragment or a component inside the root it is not, nor in JSX that is a branch of a conditional, that a
      callback of map returns, or that stands in the value of a component's property. */
  lemma CallbackFurtherInIsLeft(tag: string, inner: string, test: Js, list: Js, item: string, name: string, text: string, c: nat)
    ensures IsLeft(Element(inner, [], [Callback()]), tag, c) && IsLeft(Fragment([Callback()]), tag, c)
    ensures IsLeft(Component(inner, [], [Callback()]), tag, c)
    ensures IsLeft(Braces(And(test, Jsx(Element(inner, [], [Callback()])))), tag, c)
    ensures IsLeft(Braces(Mapped(list, item, [], false, Whole(Element(inner, [], [Callback()])))), tag, c)
    ensures name != "key" ==>
      var prop := Expression(name, Js(text, {}, [Held(Element(inner, [], [Callback()]), false)]), false, false, Loose);
      !Parses(Emit(Component(tag, [prop], []), c, Collecting))
  {
    hide Parses, Emit;
    var n := Callback();
    var element := Element(inner, [], [n]);
    InsideIsLeft(element, inner);
    InsideIsLeft(Fragment([n]), inner);
    InsideIsLeft(Component(inner, [], [n]), inner);
    ChildIsLeft(element, tag, c);
    ChildIsLeft(Fragment([n]), tag, c);
    ChildIsLeft(Component(inner, [], [n]), tag, c);
    var both, each := And(test, Jsx(element)), Mapped(list, item, [], false, Whole(element));
    assert !CompilesBranch(Jsx(element), Collecting, Copying);
    AndCompiles(test, Jsx(element));
    assert !CompilesBody(Whole(element), Collecting) && !CompilesExpr(each, Collecting);
    BracesLeft(both, tag, c);
    BracesLeft(each, tag, c);
    if name != "key" {
      var prop := Expression(name, Js(text, {}, [Held(element, false)]), false, false, Loose);
      CompilesIffParses(Component(tag, [prop], []), c, Collecting);
      assert !CompilesHeld(Held(element, false), Collecting) && !CompilesHolds(prop.js.holds, Collecting);
      assert !CompilesProp(prop, Collecting) && !CompilesProps([prop], Collecting);
    }
  }

  lemma InsideIsLeft(n: Node, inner: string)
    requires n in {Element(inner, [], [Callback()]), Fragment([Callback()]), Component(inner, [], [Callback()])}
    ensures !Compiles(n, Copying)
  {
    var n := Callback();
    SlotCompiles(n.expr.js, false, false, Copying);
    Solo(n);
    assert !CompilesExpr(n.expr, Copying) && !CompilesValue(n, Copying, true) && !CompilesValue(n, Copying, false);
    assert !CompilesValues([n], Copying, true) && !CompilesValues([n], Copying, false);
  }

  lemma ChildIsLeft(n: Node, tag: string, c: nat)
    requires !n.Braces? && !Compiles(n, Copying)
    ensures IsLeft(n, tag, c)
  {
    hide Parses, Emit, Compiles;
    CompilesIffParses(Element(tag, [], [n]), c, Collecting);
    assert !CompilesChild([n][0], Collecting) && !CompilesInside([n], Collecting);
    ElementCompiles(tag, [n]);
  }

  lemma BracesLeft(e: Expr, tag: string, c: nat)
    requires !e.Plain? && !CompilesExpr(e, Collecting)
    ensures IsLeft(Braces(e), tag, c)
  {
    hide Parses, Emit, CompilesExpr;
    var n := Braces(e);
    CompilesIffParses(Element(tag, [], [n]), c, Collecting);
    assert !Compiles(n, Collecting);
    assert !CompilesChild([n][0], Collecting) && !CompilesInside([n], Collecting);
    ElementCompiles(tag, [n]);
  }

  lemma AndCompiles(test: Js, yes: Branch)
    ensures Compiles(Braces(And(test, yes)), Collecting) <==> CompilesExpr(And(test, yes), Collecting)
    ensures CompilesExpr(And(test, yes), Collecting) <==> Returns(test, Collecting) && CompilesBranch(yes, Collecting, Copying)
  {
  }

  lemma ElementCompiles(tag: string, children: seq<Node>)
    ensures Compiles(Element(tag, [], children), Collecting) ==> CompilesInside(children, Collecting)
  {
  }

  predicate Fine(js: Js) { js.holds == [] && !BeginsWithBrace(js.text) }

  lemma FineIsCopied(js: Js)
    requires Fine(js)
    ensures Returns(js, Collecting) && Returns(js, Copying) && !Returns(js, Blanked)
  {
  }

  /** {ok && wrap(() => a ? <b>{t}</b> : null)}: the branch in the callback has been replaced by its own program when it is
      read for the conditional, and shows nothing in it. */
  lemma BranchInACallbackIsBlank(inner: string, ok: Js, wrap: Js, a: Js, t: Js, no: Js, reactive: bool, w: World)
    requires Fine(ok) && Fine(a) && Fine(t) && Fine(no) && w.truth(Close(ok, map[])) && w.truth(Close(a, map[]))
    ensures var b := Jsx(Element(inner, [], [Braces(Plain(t, false, reactive))]));
      Shown(Braces(And(ok, Around(wrap, true, false, a, b, Other(no)))), w) == Some(Switch(Switch(Tag(inner, [], [Slot(Gone, false)]))))
  {
    hide Close, Run, Emit, Parses, Fine, Returns;
    var none: Scope := map[];
    var el := Element(inner, [], [Braces(Plain(t, false, reactive))]);
    var around := Around(wrap, true, false, a, Jsx(el), Other(no));
    FineIsCopied(ok);
    FineIsCopied(a);
    FineIsCopied(no);
    ShownIsBuilt(Braces(And(ok, around)), w);
    BlankedElement(inner, t, reactive, w);
    OtherCompiles(no, Collecting, Blanked);
    assert CompilesBranch(Jsx(el), Collecting, Blanked);
    assert CompilesBranch(around, Collecting, Copying);
    AndCompiles(ok, around);
    var built := Built(el, 0, Blanked, None, none, w);
    var region := Region(built, None);
    assert BuiltBranch(Jsx(el), 0, Collecting, Blanked, None, none, w) == built;
    assert BuiltBranch(around, 0, Collecting, Copying, None, none, w) == region;
    assert BuiltExpr(And(ok, around), 0, Collecting, None, none, w) == Region(region, None);
    assert Erase(region) == Switch(Erase(built)) && Erase(Region(region, None)) == Switch(Erase(region));
  }

  lemma OtherCompiles(js: Js, mode: Mode, jsx: Mode)
    ensures CompilesBranch(Other(js), mode, jsx) <==> Returns(js, mode)
  {
  }

  lemma BlankedElement(inner: string, t: Js, reactive: bool, w: World)
    ensures var el := Element(inner, [], [Braces(Plain(t, false, reactive))]);
      Compiles(el, Blanked) && Erase(Built(el, 0, Blanked, None, map[], w)) == Tag(inner, [], [Slot(Gone, false)])
  {
    var none: Scope := map[];
    var el := Element(inner, [], [Braces(Plain(t, false, reactive))]);
    SlotCompiles(t, false, reactive, Blanked);
    assert CompilesAttrs(inner, [], Blanked);
    SlotBuilds(t, false, reactive, 1, Blanked, Some(0), none, w);
    EraseOne(Hole(Gone, false, Some(0)));
    assert Meanings(inner, [], true, none, w) == [];
    assert Built(el, 0, Blanked, None, none, w) == Elem(0, inner, [], [Hole(Gone, false, Some(0))], None);
  }

  /** If there is other JSX around the conditional in the callback, its test is lost as well, and the output is no
      JavaScript; in JSX outside of a callback it is not. */
  lemma TestInACallbackIsLost(ok: Js, wrap: Js, a: Js, t: Js, no: Js, c: nat)
    requires Fine(ok) && Fine(a) && Fine(t) && Fine(no)
    ensures !Parses(Emit(Braces(And(ok, Around(wrap, true, true, a, Other(t), Other(no)))), c, Collecting))
    ensures Parses(Emit(Braces(And(ok, Around(wrap, false, true, a, Other(t), Other(no)))), c, Collecting))
  {
    hide Emit, Parses, Fine, Returns;
    FineIsCopied(ok);
    FineIsCopied(a);
    FineIsCopied(t);
    FineIsCopied(no);
    var lost, kept := Around(wrap, true, true, a, Other(t), Other(no)), Around(wrap, false, true, a, Other(t), Other(no));
    CompilesIffParses(Braces(And(ok, lost)), c, Collecting);
    CompilesIffParses(Braces(And(ok, kept)), c, Collecting);
    assert !CompilesBranch(lost, Collecting, Copying);
    assert CompilesBranch(Other(t), Copying, Copying) && CompilesBranch(Other(no), Copying, Copying);
    assert CompilesBranch(kept, Collecting, Copying);
    AndCompiles(ok, lost);
    AndCompiles(ok, kept);
  }

  // ------------------------------------------------------------------------------------------
  // Trees without lists
  // ------------------------------------------------------------------------------------------

  /** No call of map with a callback that the generator looks into. */
  predicate NoLists(n: Node)
    decreases n, 0
  {
    match n
    case Element(_, _, children) => NoListsIn(children)
    case Component(_, attrs, children) => NoListsInProps(attrs) && NoListsIn(children)
    case Fragment(children) => NoListsIn(children)
    case Braces(Cond(_, yes, no)) => NoListsInBranch(yes) && NoListsInBranch(no)
    case Braces(And(_, yes)) => NoListsInBranch(yes)
    case Braces(Mapped(_, _, _, _, _)) => false
    case _ => true
  }

  predicate NoListsIn(children: seq<Node>)
    decreases children, 0
  {
    children == [] || (NoLists(children[0]) && NoListsIn(children[1..]))
  }

  predicate NoListsInProps(attrs: seq<Attr>)
    decreases attrs, 0
  {
    attrs == [] || (NoListsInProp(attrs[0]) && NoListsInProps(attrs[1..]))
  }

  predicate NoListsInProp(a: Attr)
    decreases a, 0
  {
    a.Expression? ==> NoListsInHolds(a.js.holds)
  }

  predicate NoListsInHolds(holds: seq<Held>)
    decreases holds, 0
  {
    holds == [] || (NoListsInHeld(holds[0]) && NoListsInHolds(holds[1..]))
  }

  predicate NoListsInHeld(h: Held)
    decreases h, 0
  {
    NoLists(h.node)
  }

  predicate NoListsInBranch(b: Branch)
    decreases b, 0
  {
    match b
    case Jsx(n) => NoLists(n)
    case Other(_) => true
    case Inner(_, yes, no) => NoListsInBranch(yes) && NoListsInBranch(no)
    case Around(_, _, _, _, yes, no) => NoListsInBranch(yes) && NoListsInBranch(no)
  }

  lemma {:induction false} NothingIsLost(n: Node)
    requires NoLists(n)
    ensures Handled(n)
    decreases n, 0
  {
    match n
    case Element(_, _, children) => NothingIsLostIn(children);
    case Component(_, attrs, children) => NothingIsLostInProps(attrs); NothingIsLostIn(children);
    case Fragment(children) => NothingIsLostIn(children);
    case Braces(Cond(_, yes, no)) => NothingIsLostInBranch(yes); NothingIsLostInBranch(no);
    case Braces(And(_, yes)) => NothingIsLostInBranch(yes);
    case _ =>
  }

  lemma {:induction false} NothingIsLostIn(children: seq<Node>)
    requires NoListsIn(children)
    ensures HandledAll(children)
    decreases children, 0
  {
    if children != [] { NothingIsLost(children[0]); NothingIsLostIn(children[1..]); }
  }

  lemma {:induction false} NothingIsLostInProps(attrs: seq<Attr>)
    requires NoListsInProps(attrs)
    ensures HandledProps(attrs)
    decreases attrs, 0
  {
    if attrs != [] { NothingIsLostInProp(attrs[0]); NothingIsLostInProps(attrs[1..]); }
  }

  lemma {:induction false} NothingIsLostInProp(a: Attr)
    requires NoListsInProp(a)
    ensures HandledProp(a)
    decreases a, 0
  {
    if a.Expression? { NothingIsLostInHolds(a.js.holds); }
  }

  lemma {:induction false} NothingIsLostInHolds(holds: seq<Held>)
    requires NoListsInHolds(holds)
    ensures HandledHolds(holds)
    decreases holds, 0
  {
    if holds != [] { NothingIsLostInHeld(holds[0]); NothingIsLostInHolds(holds[1..]); }
  }

  lemma {:induction false} NothingIsLostInHeld(h: Held)
    requires NoListsInHeld(h)
    ensures HandledHeld(h)
    decreases h, 0
  {
    NothingIsLost(h.node);
  }

  lemma {:induction false} NothingIsLostInBranch(b: Branch)
    requires NoListsInBranch(b)
    ensures HandledBranch(b)
    decreases b, 0
  {
    match b
    case Jsx(n) => NothingIsLost(n);
    case Other(_) =>
    case Inner(_, yes, no) => NothingIsLostInBranch(yes); NothingIsLostInBranch(no);
    case Around(_, _, _, _, yes, no) => NothingIsLostInBranch(yes); NothingIsLostInBranch(no);
  }

  /** Of a tree without lists the program runs exactly if it compiles, and then it builds the tree that was written exactly
      when what is shown is whole. */
  lemma TreeWithoutListsIsBuilt(n: Node, c: nat, mode: Mode, m: Machine, w: World)
    requires NoLists(n) && forall v <- m.vars :: v < c
    ensures var r := Load(Emit(n, c, mode), m, w);
      (r.Some? <==> Compiles(n, mode)) && (r.Some? ==> (Erase(r.value.tree) == Meant(n, m.scope, w) <==> Keeps(n, mode, m.scope, w)))
  {
    hide Load, Emit, Erase, Meant, Keeps, Compiles, NoLists, Handled, Nested;
    NothingIsLost(n);
    ProgramBuildsTheTree(n, c, mode, m, w);
  }

  lemma OneSlotIsHandled(slot: Js, literal: bool, reactive: bool)
    ensures HandledAll([Braces(Plain(slot, literal, reactive))])
  {
    var child := Braces(Plain(slot, literal, reactive));
    assert [child][1..] == [] && HandledAll([]);
    assert Handled(child);
  }

  /** What rows are handled. */
  lemma RowIsHandled(list: Js, item: string, others: seq<Identifier>, index: bool, row: RowOf, slot: Js, literal: bool, reactive: bool)
    ensures Handled(Braces(Mapped(list, item, others, index, BodyOf(row, slot, literal, reactive)))) <==>
      match row
      case Behind(_, around, locals, kept) =>
        Names(others) !! around.free + (slot.free - Names(locals)) && (kept || Names(locals) !! slot.free)
      case _ => Names(others) !! slot.free
  {
    var child := Braces(Plain(slot, literal, reactive));
    Solo(child);
    BracesArePresent(child.expr);
    RowsHaveNoKey(row, slot, literal, reactive);
    assert FreeAll([]) == {} && AttrsFree([]) == {} && FreeAll([child]) == slot.free + {} == slot.free;
    OneSlotIsHandled(slot, literal, reactive);
    var body := BodyOf(row, slot, literal, reactive);
    if !row.Bare? {
      assert Handled(body.node) && Free(body.node) == {} + slot.free == slot.free;
    }
    match row
    case Behind(_, around, locals, kept) =>
      assert FreeBody(body) == around.free + (slot.free - Names(locals));
      assert HandledBody(body) <==> kept || Names(locals) !! slot.free;
    case _ => assert FreeBody(body) == slot.free && HandledBody(body);
  }
}
