/** The HTML that the generated expression gives, read as the tokenizer of a browser reads it, is the tree: and exactly
    when. */
module SsrHtml {
  import opened Common
  import opened JsString
  import opened Ssr
  import opened SsrCorrect
  import opened SsrMeaning
  import opened SsrTokens
  import JsxText

  // ------------------------------------------------------------------------------------------
  // What the tree means
  // ------------------------------------------------------------------------------------------

  /** The attributes of an element, as they should be read. */
  ghost function TagAttrs(I: Interp, attrs: seq<Attr>, hydration: string, env: Env): seq<HtmlAttr> {
    WrittenAttrs(I, attrs, env) + if hydration == "" then [] else [HtmlAttr("data-v-id", Some(hydration))]
  }

  /** Where a part of the page stands: among markup, in a text with character references, or in one without. */
  datatype Place = Flow | Referenced | Literal

  function PlaceOf(tag: string): Place {
    if HasReferences(tag) then Referenced else if IsTextElement(tag) then Literal else Flow
  }

  /** What is in a text element stays text. */
  function Inner(place: Place, tag: string): Place { if place.Flow? then PlaceOf(tag) else place }

  /** The parts of the page that a tree stands for. In a text element there are no comments, and an expression is its text:
      with escapes where references are read. */
  ghost function Doc(I: Interp, node: Node, reactive: set<string>, place: Place, hydration: string, env: Env): seq<Token>
    decreases node, 1
  {
    match node
    case Text(t) => Chars(JsxText.ServerClean(t))
    case Element(tag, attrs, children) =>
      if IsComponent(tag) then Tokens(Html(I, node, reactive, false, "", env))
      else
        [Open(tag, TagAttrs(I, attrs, hydration, env))]
        + if IsVoid(tag) then [] else DocAll(I, children, reactive, Inner(place, tag), env) + [Close(tag)]
    case Fragment(children) => DocAll(I, children, reactive, place, env)
    case Container(e) => DocExpr(I, e, reactive, place, env)
    case Nothing(_) => []
  }

  ghost function DocAll(I: Interp, children: seq<Node>, reactive: set<string>, place: Place, env: Env): seq<Token>
    decreases children, 2
  {
    if children == [] then []
    else Doc(I, children[0], reactive, place, "", env) + DocAll(I, children[1..], reactive, place, env)
  }

  ghost function Between(place: Place, mark: string, inside: seq<Token>): seq<Token> {
    if place.Flow? then [Remark(mark)] + inside + [Remark("/" + mark)] else inside
  }

  ghost function Shown(I: Interp, v: Val, place: Place): seq<Token> {
    match place
    case Flow => Tokens(I.esc(v))
    case Referenced => Chars(I.esc(v))
    case Literal => Chars(I.text(v))
  }

  ghost function DocExpr(I: Interp, e: Expr, reactive: set<string>, place: Place, env: Env): seq<Token>
    decreases e, 1
  {
    match e
    case Cond(_, _, _) => DocBranch(I, e, reactive, place, env)
    case And(_, _) => DocBranch(I, e, reactive, place, env)
    case MapCall(whole, list, params, body) =>
      if body.None? then Shown(I, Value(I, whole, env), place)
      else
        Between(place, "list", DocItems(I, body.value, reactive, place, params, Value(I, list, env), I.items(Value(I, list, env)), 0, env))
    case Plain(js) => DocValue(I, js, reactive, place, env)
    case Jsx(whole, _) => DocValue(I, whole, reactive, place, env)
  }

  ghost function DocValue(I: Interp, js: Js, reactive: set<string>, place: Place, env: Env): seq<Token> {
    var shown := Shown(I, Value(I, js, env), place);
    if js.mentions !! reactive then shown else Between(place, "child", shown)
  }

  ghost function DocItems(I: Interp, body: Node, reactive: set<string>, place: Place, params: seq<Param>, list: Val,
                          items: seq<Val>, i: nat, env: Env): seq<Token>
    decreases body, 2, items
  {
    if items == [] then []
    else
      Doc(I, body, reactive, place, "", env + Bindings(I, params, items[0], i, list))
      + DocItems(I, body, reactive, place, params, list, items[1..], i + 1, env)
  }

  ghost function DocBranch(I: Interp, e: Expr, reactive: set<string>, place: Place, env: Env): seq<Token>
    decreases e, 0
  {
    match e
    case Jsx(_, node) => Doc(I, node, reactive, place, "", env)
    case Cond(test, yes, no) =>
      Between(place, "conditional",
              if I.truthy(Value(I, test, env)) then DocBranch(I, yes, reactive, place, env) else DocBranch(I, no, reactive, place, env))
    case And(left, right) =>
      Between(place, "conditional", if I.truthy(Value(I, left, env)) then DocBranch(I, right, reactive, place, env) else [])
    case MapCall(whole, _, _, _) => Shown(I, Value(I, whole, env), place)
    case Plain(js) => Shown(I, Value(I, js, env), place)
  }

  // ------------------------------------------------------------------------------------------
  // What is taken for granted
  // ------------------------------------------------------------------------------------------

  /** What __esc and the other components print stands for itself wherever it is put, and the printers of attributes give
      no double quote. */
  ghost predicate Tame(I: Interp) {
    && (forall v :: IsClosed(I.esc(v)))
    && (forall v :: '"' !in I.escAttr(v) && '"' !in I.style(v))
    && (forall tag, props :: IsClosed(I.call(tag, props)))
  }

  ghost predicate IsClosed(s: string) { Reads(s, Tokens(s)) }

  /** What the grammar of JSX guarantees of names and texts; and text elements, which are not in an svg or math, hold only
      what fits in them. */
  ghost predicate Proper(node: Node, reactive: set<string>, foreign: bool)
    decreases node, 1
  {
    match node
    case Text(t) => '<' !in t
    case Element(tag, attrs, children) =>
      IsComponent(tag)
      || (IsTagName(tag) && NamesAreFine(attrs) && Lower(tag) != "plaintext"
          && (IsVoid(tag)
              || if IsTextElement(tag) then !foreign && FitsAll(children, PlaceOf(tag), IsKnownText(tag), reactive)
                 else ProperAll(children, reactive, foreign || IsForeign(tag))))
    case Fragment(children) => ProperAll(children, reactive, foreign)
    case Container(e) => ProperExpr(e, reactive, foreign)
    case Nothing(_) => true
  }

  /** The text elements that the generator should know. */
  predicate IsKnownText(tag: string) { tag == "style" || tag == "script" }

  /** In an svg or math other rules hold. */
  predicate IsForeign(tag: string) { Lower(tag) == "svg" || Lower(tag) == "math" }

  ghost predicate NamesAreFine(attrs: seq<Attr>) { forall a <- attrs :: IsAttrName(HtmlName(a.name)) }

  ghost predicate ProperAll(nodes: seq<Node>, reactive: set<string>, foreign: bool)
    decreases nodes, 2
  {
    nodes == [] || (Proper(nodes[0], reactive, foreign) && ProperAll(nodes[1..], reactive, foreign))
  }

  ghost predicate ProperExpr(e: Expr, reactive: set<string>, foreign: bool)
    decreases e, 1
  {
    match e
    case Cond(_, _, _) => ProperBranch(e, reactive, foreign)
    case And(_, _) => ProperBranch(e, reactive, foreign)
    case MapCall(_, _, _, body) => body.Some? ==> Proper(body.value, reactive, foreign)
    case _ => true
  }

  ghost predicate ProperBranch(e: Expr, reactive: set<string>, foreign: bool)
    decreases e, 0
  {
    match e
    case Jsx(_, node) => Proper(node, reactive, foreign)
    case Cond(_, yes, no) => ProperBranch(yes, reactive, foreign) && ProperBranch(no, reactive, foreign)
    case And(_, right) => ProperBranch(right, reactive, foreign)
    case _ => true
  }

  /** A child of a text element that is generated as it should be: a text, and an expression where it comes without marks
      and with escapes exactly where references are read. raw is the mode of the generator, which a fragment drops. */
  ghost predicate Fits(node: Node, place: Place, raw: bool, reactive: set<string>)
    decreases node, 0
  {
    match node
    case Text(_) => true
    case Nothing(_) => true
    case Container(e) => FitsExpr(e, place, raw, reactive)
    case Fragment(children) => FitsAll(children, place, false, reactive)
    case Element(_, _, _) => false
  }

  ghost predicate FitsAll(nodes: seq<Node>, place: Place, raw: bool, reactive: set<string>)
    decreases nodes, 1
  {
    nodes == [] || (Fits(nodes[0], place, raw, reactive) && FitsAll(nodes[1..], place, raw, reactive))
  }

  predicate FitsExpr(e: Expr, place: Place, raw: bool, reactive: set<string>) {
    match e
    case Cond(_, _, _) => false
    case And(_, _) => false
    case MapCall(_, _, _, body) => place.Referenced? && body.None?
    case _ => if raw then place.Literal? else place.Referenced? && !IsReactive(Whole(e), reactive)
  }

  ghost function Content(I: Interp, node: Node, place: Place, env: Env): string
    decreases node, 0
  {
    match node
    case Text(t) => JsxText.ServerClean(t)
    case Container(e) => if place.Referenced? then I.esc(Value(I, Whole(e), env)) else I.text(Value(I, Whole(e), env))
    case Fragment(children) => ContentAll(I, children, place, env)
    case _ => ""
  }

  ghost function ContentAll(I: Interp, nodes: seq<Node>, place: Place, env: Env): string
    decreases nodes, 1
  {
    if nodes == [] then "" else Content(I, nodes[0], place, env) + ContentAll(I, nodes[1..], place, env)
  }

  // ------------------------------------------------------------------------------------------
  // When nothing breaks out
  // ------------------------------------------------------------------------------------------

  /** In what is rendered no string attribute holds a double quote, and nothing in a text element ends it. */
  ghost predicate Intact(I: Interp, node: Node, env: Env)
    decreases node, 1
  {
    match node
    case Element(tag, attrs, children) =>
      IsComponent(tag)
      || (NoQuotes(attrs)
          && (IsVoid(tag) || if IsTextElement(tag) then IsQuiet(ContentAll(I, children, PlaceOf(tag), env), tag) else IntactAll(I, children, env)))
    case Fragment(children) => IntactAll(I, children, env)
    case Container(e) => IntactExpr(I, e, env)
    case _ => true
  }

  ghost predicate NoQuote(a: Attr) {
    !IsEventHandler(a.name) && !IsSkipped(a.name) && a.value.StringValue? ==> '"' !in a.value.value
  }

  ghost predicate NoQuotes(attrs: seq<Attr>) { forall a <- attrs :: NoQuote(a) }

  ghost predicate IntactAll(I: Interp, nodes: seq<Node>, env: Env)
    decreases nodes, 2
  {
    nodes == [] || (Intact(I, nodes[0], env) && IntactAll(I, nodes[1..], env))
  }

  ghost predicate IntactExpr(I: Interp, e: Expr, env: Env)
    decreases e, 1
  {
    match e
    case Cond(_, _, _) => IntactBranch(I, e, env)
    case And(_, _) => IntactBranch(I, e, env)
    case MapCall(_, list, params, body) =>
      body.Some? ==> IntactItems(I, body.value, params, Value(I, list, env), I.items(Value(I, list, env)), 0, env)
    case _ => true
  }

  ghost predicate IntactItems(I: Interp, body: Node, params: seq<Param>, list: Val, items: seq<Val>, i: nat, env: Env)
    decreases body, 2, items
  {
    items == []
    || (Intact(I, body, env + Bindings(I, params, items[0], i, list)) && IntactItems(I, body, params, list, items[1..], i + 1, env))
  }

  ghost predicate IntactBranch(I: Interp, e: Expr, env: Env)
    decreases e, 0
  {
    match e
    case Jsx(_, node) => Intact(I, node, env)
    case Cond(test, yes, no) => if I.truthy(Value(I, test, env)) then IntactBranch(I, yes, env) else IntactBranch(I, no, env)
    case And(left, right) => I.truthy(Value(I, left, env)) ==> IntactBranch(I, right, env)
    case _ => true
  }

  // ------------------------------------------------------------------------------------------
  // The HTML is read as the tree exactly if nothing breaks out
  // ------------------------------------------------------------------------------------------

  ghost predicate Judged(ok: bool, s: string, doc: seq<Token>) { if ok then Reads(s, doc) else Diverges(s, doc) }

  lemma JudgedConcat(ok: bool, a: string, da: seq<Token>, ok': bool, b: string, db: seq<Token>)
    requires Judged(ok, a, da) && Judged(ok', b, db)
    ensures Judged(ok && ok', a + b, da + db)
  {
    hide Reads, Diverges;
    if !ok {
      DivergesAtOnce(a, da, b, db);
    } else if ok' {
      ReadsConcat(a, da, b, db);
    } else {
      DivergesLater(a, da, b, db);
    }
  }

  lemma MarkedReads(ok: bool, mark: string, s: string, doc: seq<Token>)
    requires Judged(ok, s, doc) && mark != "" && '-' !in mark && mark[0] != '>'
    ensures Judged(ok, "<!--" + mark + "-->" + s + ("<!--" + ("/" + mark) + "-->"), Between(Flow, mark, doc))
  {
    hide Reads, Diverges;
    RemarkReads(mark);
    RemarkReads("/" + mark);
    JudgedConcat(true, "<!--" + mark + "-->", [Remark(mark)], ok, s, doc);
    JudgedConcat(ok, "<!--" + mark + "-->" + s, [Remark(mark)] + doc, true, "<!--" + ("/" + mark) + "-->", [Remark("/" + mark)]);
  }

  lemma MarksAre()
    ensures "<!--" + "list" + "-->" == "<!--list-->" && "<!--" + ("/" + "list") + "-->" == "<!--/list-->"
    ensures "<!--" + "child" + "-->" == "<!--child-->" && "<!--" + ("/" + "child") + "-->" == "<!--/child-->"
    ensures "<!--" + "conditional" + "-->" == "<!--conditional-->" && "<!--" + ("/" + "conditional") + "-->" == "<!--/conditional-->"
  {
  }

  lemma {:induction false} VisibleHas(s: string, c: char)
    requires !JsxText.IsWhite(c)
    ensures c in s <==> c in JsxText.Visible(s)
  {
    if s != "" { VisibleHas(s[1..], c); }
  }

  lemma CleanHasNoTag(t: string)
    requires '<' !in t
    ensures '<' !in JsxText.ServerClean(t)
  {
    JsxText.CleaningKeepsVisibleText(t);
    VisibleHas(t, '<');
    VisibleHas(JsxText.ServerClean(t), '<');
  }

  lemma {:induction false} WrittenAreFine(I: Interp, attrs: seq<Attr>, env: Env)
    requires Tame(I) && NamesAreFine(attrs)
    ensures AttrNames(AttrsOf(I, attrs, env))
    ensures AllQuotable(AttrsOf(I, attrs, env)) <==> NoQuotes(attrs)
  {
    hide Tame, IsAttrName;
    if attrs != [] {
      WrittenAreFine(I, attrs[1..], env);
      var a, rest := AttrOf(I, attrs[0], env), AttrsOf(I, attrs[1..], env);
      AttrIsFine(I, attrs[0], env);
      assert AttrsOf(I, attrs, env) == (if a.Some? then [a.value] else []) + rest;
      assert NoQuotes(attrs) <==> NoQuote(attrs[0]) && NoQuotes(attrs[1..]);
      if a.None? { NoPrefix(rest); }
    }
  }

  lemma AttrIsFine(I: Interp, a: Attr, env: Env)
    requires Tame(I)
    ensures var r := AttrOf(I, a, env);
      if r.Some? then r.value.name == HtmlName(a.name) && (IsQuotable(r.value) <==> NoQuote(a)) else NoQuote(a)
  {
    hide IsClosed, IsBoolean;
  }

  lemma {:induction false} OnlyIsFine(attrs: seq<Attr>)
    ensures NamesAreFine(Only(attrs, false)) && NamesAreFine(Only(attrs, true)) <==> NamesAreFine(attrs)
    ensures NoQuotes(Only(attrs, false)) && NoQuotes(Only(attrs, true)) <==> NoQuotes(attrs)
  {
    hide IsLate, NoQuote, IsAttrName;
    if attrs != [] {
      OnlyIsFine(attrs[1..]);
      assert attrs == [attrs[0]] + attrs[1..];
      NoPrefix(Only(attrs[1..], false));
      NoPrefix(Only(attrs[1..], true));
    }
  }

  lemma TagAttrsAreFine(I: Interp, attrs: seq<Attr>, hydration: string, env: Env)
    requires Tame(I) && NamesAreFine(attrs) && '"' !in hydration
    ensures AttrNames(TagAttrs(I, attrs, hydration, env))
    ensures AllQuotable(TagAttrs(I, attrs, hydration, env)) <==> NoQuotes(attrs)
    ensures WriteAttrs(TagAttrs(I, attrs, hydration, env)) == WriteAttrs(WrittenAttrs(I, attrs, env)) + Hydration(hydration)
  {
    hide Tame, NamesAreFine, AttrsOf, WriteAttrs, Only, AttrNames, AllQuotable, NoQuotes;
    OnlyIsFine(attrs);
    WrittenAreFine(I, Only(attrs, false), env);
    WrittenAreFine(I, Only(attrs, true), env);
    var tail := if hydration == "" then [] else [HtmlAttr("data-v-id", Some(hydration))];
    FineConcat(AttrsOf(I, Only(attrs, false), env), AttrsOf(I, Only(attrs, true), env));
    FineConcat(WrittenAttrs(I, attrs, env), tail);
    HydrationIsFine(hydration);
    WriteConcat(WrittenAttrs(I, attrs, env), tail);
  }

  lemma FineConcat(a: seq<HtmlAttr>, b: seq<HtmlAttr>)
    ensures AttrNames(a + b) <==> AttrNames(a) && AttrNames(b)
    ensures AllQuotable(a + b) <==> AllQuotable(a) && AllQuotable(b)
  {
    hide IsAttrName, IsQuotable;
    assert forall x :: x in a + b <==> x in a || x in b;
  }

  lemma HydrationIsFine(hydration: string)
    requires '"' !in hydration
    ensures var tail := if hydration == "" then [] else [HtmlAttr("data-v-id", Some(hydration))];
      AttrNames(tail) && AllQuotable(tail) && WriteAttrs(tail) == Hydration(hydration)
  {
    hide WriteAttrs, IsAttrName;
    if hydration == "" {
      NothingWritten();
    } else {
      WriteOne(HtmlAttr("data-v-id", Some(hydration)));
      DataIsAName();
    }
  }

  lemma DataIsAName()
    ensures IsAttrName("data-v-id")
  {
  }

  lemma NothingWritten()
    ensures WriteAttrs([]) == ""
  {
  }

  lemma {:induction false} HtmlIsRead(I: Interp, node: Node, reactive: set<string>, foreign: bool, hydration: string, env: Env)
    requires Tame(I) && Proper(node, reactive, foreign) && '"' !in hydration
    ensures Judged(Intact(I, node, env), Html(I, node, reactive, false, hydration, env), Doc(I, node, reactive, Flow, hydration, env))
    decreases node, 1
  {
    hide Tame, ProperAll, IntactAll, HtmlAll, DocAll, Judged, IsTagName, NamesAreFine, NoQuotes, WriteAttrs, WrittenAttrs, TagAttrs,
      FitsAll, ContentAll, IsQuiet, Tokens, Reads, Diverges, IsTextElement, IsForeign;
    match node
    case Text(t) => CleanHasNoTag(t); CharsRead(JsxText.ServerClean(t)); ReadsAre(JsxText.ServerClean(t), Chars(JsxText.ServerClean(t)));
    case Element(tag, attrs, children) =>
      if IsComponent(tag) {
        ComponentIsRead(I, node, reactive, env);
      } else if IsVoid(tag) {
        VoidIsNoText(tag);
        OpenIsJudged(I, tag, attrs, hydration, env);
        VoidHtml(I, node, reactive, hydration, env);
      } else if IsTextElement(tag) {
        TextElementIsRead(I, node, reactive, hydration, env);
      } else {
        AllIsRead(I, children, reactive, foreign || IsForeign(tag), env);
        ElementIsRead(I, node, reactive, hydration, env);
      }
    case Fragment(children) => AllIsRead(I, children, reactive, foreign, env);
    case Container(e) => ExprIsRead(I, e, reactive, foreign, env);
    case Nothing(_) => NothingReads(); ReadsAre("", []);
  }

  lemma VoidIsNoText(tag: string)
    requires IsVoid(tag)
    ensures !IsTextElement(tag)
  {
    assert forall i | 0 <= i < |tag| :: LowerChar(tag[i]) == tag[i];
    assert Lower(tag) == tag;
  }

  lemma ReadsAre(s: string, doc: seq<Token>)
    requires Reads(s, doc)
    ensures Judged(true, s, doc)
  {
  }

  lemma ComponentIsRead(I: Interp, node: Node, reactive: set<string>, env: Env)
    requires Tame(I) && node.Element? && IsComponent(node.tag)
    ensures forall hydration ::
      Judged(true, Html(I, node, reactive, false, hydration, env), Doc(I, node, reactive, Flow, hydration, env))
  {
    hide Tokens, Reads, HtmlAll, PropsOf;
    var s := Html(I, node, reactive, false, "", env);
    assert IsClosed(s);
    forall hydration ensures Judged(true, Html(I, node, reactive, false, hydration, env), Doc(I, node, reactive, Flow, hydration, env)) {
      assert Html(I, node, reactive, false, hydration, env) == s;
    }
  }

  lemma OpenIsJudged(I: Interp, tag: string, attrs: seq<Attr>, hydration: string, env: Env)
    requires Tame(I) && NamesAreFine(attrs) && '"' !in hydration && IsTagName(tag) && !IsTextElement(tag)
    ensures Judged(NoQuotes(attrs), "<" + tag + WriteAttrs(WrittenAttrs(I, attrs, env)) + Hydration(hydration) + ">",
                   [Open(tag, TagAttrs(I, attrs, hydration, env))])
  {
    hide Tame, NamesAreFine, NoQuotes, WriteAttrs, WrittenAttrs, TagAttrs, Reads, Diverges, Hydration, IsTagName, IsTextElement;
    TagAttrsAreFine(I, attrs, hydration, env);
    OpenReads(tag, TagAttrs(I, attrs, hydration, env));
    Regroup("<" + tag, WriteAttrs(WrittenAttrs(I, attrs, env)), Hydration(hydration));
  }

  lemma VoidHtml(I: Interp, node: Node, reactive: set<string>, hydration: string, env: Env)
    requires node.Element? && !IsComponent(node.tag) && IsVoid(node.tag)
    ensures Html(I, node, reactive, false, hydration, env)
         == "<" + node.tag + WriteAttrs(WrittenAttrs(I, node.attrs, env)) + Hydration(hydration) + ">"
    ensures Doc(I, node, reactive, Flow, hydration, env) == [Open(node.tag, TagAttrs(I, node.attrs, hydration, env))]
  {
    hide WriteAttrs, WrittenAttrs, TagAttrs;
    assert [Open(node.tag, TagAttrs(I, node.attrs, hydration, env))] + [] == [Open(node.tag, TagAttrs(I, node.attrs, hydration, env))];
  }

  /** The text of an element with a content, and what it should be read as. */
  lemma ElementHtml(I: Interp, node: Node, reactive: set<string>, hydration: string, env: Env)
    requires node.Element? && !IsComponent(node.tag) && !IsVoid(node.tag)
    ensures Html(I, node, reactive, false, hydration, env)
         == "<" + node.tag + WriteAttrs(WrittenAttrs(I, node.attrs, env)) + Hydration(hydration) + ">"
            + HtmlAll(I, node.children, reactive, IsRawText(node.tag), env) + ("</" + node.tag + ">")
    ensures Doc(I, node, reactive, Flow, hydration, env)
         == [Open(node.tag, TagAttrs(I, node.attrs, hydration, env))]
            + DocAll(I, node.children, reactive, PlaceOf(node.tag), env) + [Close(node.tag)]
  {
    hide WriteAttrs, WrittenAttrs, TagAttrs, HtmlAll, DocAll, IsRawText, IsVoid, IsComponent, PlaceOf;
    var open := "<" + node.tag + WriteAttrs(WrittenAttrs(I, node.attrs, env)) + Hydration(hydration) + ">";
    var inside := HtmlAll(I, node.children, reactive, IsRawText(node.tag), env);
    Regroup(open, inside, "</" + node.tag + ">");
    assert inside + "</" + node.tag + ">" == inside + ("</" + node.tag + ">");
    Regroup([Open(node.tag, TagAttrs(I, node.attrs, hydration, env))], DocAll(I, node.children, reactive, PlaceOf(node.tag), env),
            [Close(node.tag)]);
  }

  lemma ElementIsRead(I: Interp, node: Node, reactive: set<string>, hydration: string, env: Env)
    requires Tame(I) && '"' !in hydration && node.Element? && NamesAreFine(node.attrs) && IsTagName(node.tag)
    requires !IsComponent(node.tag) && !IsVoid(node.tag) && !IsTextElement(node.tag)
    requires Judged(IntactAll(I, node.children, env), HtmlAll(I, node.children, reactive, false, env),
                    DocAll(I, node.children, reactive, Flow, env))
    ensures Judged(Intact(I, node, env), Html(I, node, reactive, false, hydration, env), Doc(I, node, reactive, Flow, hydration, env))
  {
    hide Tame, NamesAreFine, NoQuotes, WriteAttrs, WrittenAttrs, TagAttrs, Reads, Diverges, Hydration, IsTagName, HtmlAll, DocAll,
      IntactAll, Judged, Html, Doc, IsVoid, IsTextElement, IsComponent;
    PlainPlace(node.tag);
    var tag, attrs := node.tag, node.attrs;
    var open := "<" + tag + WriteAttrs(WrittenAttrs(I, attrs, env)) + Hydration(hydration) + ">";
    var first := [Open(tag, TagAttrs(I, attrs, hydration, env))];
    ElementHtml(I, node, reactive, hydration, env);
    OpenIsJudged(I, tag, attrs, hydration, env);
    TagHasNoEnd(tag);
    CloseReads(tag);
    ReadsAre("</" + tag + ">", [Close(tag)]);
    JudgedConcat(NoQuotes(attrs), open, first, IntactAll(I, node.children, env), HtmlAll(I, node.children, reactive, false, env),
                 DocAll(I, node.children, reactive, Flow, env));
    JudgedConcat(NoQuotes(attrs) && IntactAll(I, node.children, env), open + HtmlAll(I, node.children, reactive, false, env),
                 first + DocAll(I, node.children, reactive, Flow, env), true, "</" + tag + ">", [Close(tag)]);
  }

  lemma TagHasNoEnd(tag: string)
    requires IsTagName(tag)
    ensures '>' !in tag
  {
  }

  /** The generator knows only two of the text elements. */
  lemma PlainPlace(tag: string)
    ensures PlaceOf(tag).Flow? <==> !IsTextElement(tag)
    ensures IsRawText(tag) ==> PlaceOf(tag).Literal?
    ensures IsRawText(tag) <==> IsKnownText(tag)
  {
    if tag == "script" { assert Lower(tag) == "script"; }
    if tag == "style" { assert Lower(tag) == "style"; }
  }

  lemma TextElementIsRead(I: Interp, node: Node, reactive: set<string>, hydration: string, env: Env)
    requires Tame(I) && '"' !in hydration && node.Element? && NamesAreFine(node.attrs)
    requires !IsComponent(node.tag) && !IsVoid(node.tag) && IsTextElement(node.tag)
    requires FitsAll(node.children, PlaceOf(node.tag), IsKnownText(node.tag), reactive)
    ensures Judged(Intact(I, node, env), Html(I, node, reactive, false, hydration, env), Doc(I, node, reactive, Flow, hydration, env))
  {
    hide Tame, NamesAreFine, NoQuotes, WriteAttrs, WrittenAttrs, TagAttrs, Reads, Diverges, Hydration, HtmlAll, DocAll, ContentAll,
      IsQuiet, Html, Doc, FitsAll, Chars, PlaceOf, IsTextElement, IsRawText;
    var tag, attrs, place := node.tag, node.attrs, PlaceOf(node.tag);
    var x := ContentAll(I, node.children, place, env);
    PlainPlace(tag);
    ElementHtml(I, node, reactive, hydration, env);
    FittingChildren(I, node.children, reactive, place, IsRawText(tag), env);
    TagAttrsAreFine(I, attrs, hydration, env);
    RawElementReads(tag, TagAttrs(I, attrs, hydration, env), x);
    Regroup("<" + tag, WriteAttrs(WrittenAttrs(I, attrs, env)), Hydration(hydration));
  }

  /** What fits is generated as it should be. */
  lemma {:induction false} FittingChildren(I: Interp, nodes: seq<Node>, reactive: set<string>, place: Place, raw: bool, env: Env)
    requires FitsAll(nodes, place, raw, reactive) && !place.Flow?
    ensures HtmlAll(I, nodes, reactive, raw, env) == ContentAll(I, nodes, place, env)
    ensures DocAll(I, nodes, reactive, place, env) == Chars(ContentAll(I, nodes, place, env))
    decreases nodes, 1
  {
    hide Html, Doc, Fits, Content, Chars;
    if nodes == [] {
      NoChars();
    } else {
      FittingChild(I, nodes[0], reactive, place, raw, env);
      FittingChildren(I, nodes[1..], reactive, place, raw, env);
      CharsConcat(Content(I, nodes[0], place, env), ContentAll(I, nodes[1..], place, env));
    }
  }

  lemma {:induction false} FittingChild(I: Interp, node: Node, reactive: set<string>, place: Place, raw: bool, env: Env)
    requires Fits(node, place, raw, reactive) && !place.Flow?
    ensures Html(I, node, reactive, raw, "", env) == Content(I, node, place, env)
    ensures Doc(I, node, reactive, place, "", env) == Chars(Content(I, node, place, env))
    decreases node, 0
  {
    hide HtmlAll, DocAll, ContentAll, FitsAll, Chars, Value;
    NoChars();
    if node.Fragment? { FittingChildren(I, node.children, reactive, place, false, env); }
  }

  lemma NoChars()
    ensures Chars("") == []
  {
  }

  lemma {:induction false} CharsConcat(a: string, b: string)
    ensures Chars(a + b) == Chars(a) + Chars(b)
  {
    if a == "" {
      assert a + b == b;
    } else {
      assert (a + b)[1..] == a[1..] + b;
      CharsConcat(a[1..], b);
    }
  }

  lemma {:induction false} AllIsRead(I: Interp, nodes: seq<Node>, reactive: set<string>, foreign: bool, env: Env)
    requires Tame(I) && ProperAll(nodes, reactive, foreign)
    ensures Judged(IntactAll(I, nodes, env), HtmlAll(I, nodes, reactive, false, env), DocAll(I, nodes, reactive, Flow, env))
    decreases nodes, 2
  {
    hide Tame, Proper, Intact, Html, Doc, Judged, Reads, Diverges;
    if nodes == [] {
      NothingReads();
      ReadsAre("", []);
    } else {
      HtmlIsRead(I, nodes[0], reactive, foreign, "", env);
      AllIsRead(I, nodes[1..], reactive, foreign, env);
      JudgedConcat(Intact(I, nodes[0], env), Html(I, nodes[0], reactive, false, "", env), Doc(I, nodes[0], reactive, Flow, "", env),
                   IntactAll(I, nodes[1..], env), HtmlAll(I, nodes[1..], reactive, false, env), DocAll(I, nodes[1..], reactive, Flow, env));
    }
  }

  lemma EscIsRead(I: Interp, v: Val)
    requires Tame(I)
    ensures Judged(true, I.esc(v), Shown(I, v, Flow))
  {
    hide Reads, Tokens;
    assert IsClosed(I.esc(v));
  }

  lemma {:induction false} ExprIsRead(I: Interp, e: Expr, reactive: set<string>, foreign: bool, env: Env)
    requires Tame(I) && ProperExpr(e, reactive, foreign)
    ensures Judged(IntactExpr(I, e, env), HtmlExpr(I, e, reactive, false, env), DocExpr(I, e, reactive, Flow, env))
    decreases e, 1
  {
    hide Tame, Proper, Judged, Reads, Diverges, HtmlItems, DocItems, IntactItems, Value, Shown, Between;
    match e
    case Cond(_, _, _) => BranchIsRead(I, e, reactive, foreign, env);
    case And(_, _) => BranchIsRead(I, e, reactive, foreign, env);
    case MapCall(whole, list, params, body) =>
      if body.None? {
        EscIsRead(I, Value(I, whole, env));
      } else {
        var v := Value(I, list, env);
        ItemsAreRead(I, body.value, reactive, foreign, params, v, I.items(v), 0, env);
        MarkedReads(IntactItems(I, body.value, params, v, I.items(v), 0, env), "list",
          HtmlItems(I, body.value, reactive, params, v, I.items(v), 0, env),
          DocItems(I, body.value, reactive, Flow, params, v, I.items(v), 0, env));
        MarksAre();
      }
    case Plain(_) => PlainIsRead(I, e, reactive, env);
    case Jsx(_, _) => PlainIsRead(I, e, reactive, env);
  }

  lemma PlainIsRead(I: Interp, e: Expr, reactive: set<string>, env: Env)
    requires Tame(I) && (e.Plain? || e.Jsx?)
    ensures Judged(true, HtmlExpr(I, e, reactive, false, env), DocExpr(I, e, reactive, Flow, env))
  {
    hide Tame, Judged, Reads, Diverges, Value, Shown, Between;
    var v := Value(I, Whole(e), env);
    EscIsRead(I, v);
    MarkedReads(true, "child", I.esc(v), Shown(I, v, Flow));
    MarksAre();
  }

  lemma {:induction false} ItemsAreRead(I: Interp, body: Node, reactive: set<string>, foreign: bool, params: seq<Param>, list: Val,
                                        items: seq<Val>, i: nat, env: Env)
    requires Tame(I) && Proper(body, reactive, foreign)
    ensures Judged(IntactItems(I, body, params, list, items, i, env), HtmlItems(I, body, reactive, params, list, items, i, env),
                   DocItems(I, body, reactive, Flow, params, list, items, i, env))
    decreases body, 2, items
  {
    hide Tame, Proper, Intact, Html, Doc, Judged, Reads, Diverges, Bindings;
    if items == [] {
      NothingReads();
      ReadsAre("", []);
    } else {
      var row := env + Bindings(I, params, items[0], i, list);
      HtmlIsRead(I, body, reactive, foreign, "", row);
      ItemsAreRead(I, body, reactive, foreign, params, list, items[1..], i + 1, env);
      JudgedConcat(Intact(I, body, row), Html(I, body, reactive, false, "", row), Doc(I, body, reactive, Flow, "", row),
                   IntactItems(I, body, params, list, items[1..], i + 1, env),
                   HtmlItems(I, body, reactive, params, list, items[1..], i + 1, env),
                   DocItems(I, body, reactive, Flow, params, list, items[1..], i + 1, env));
    }
  }

  lemma {:induction false} BranchIsRead(I: Interp, e: Expr, reactive: set<string>, foreign: bool, env: Env)
    requires Tame(I) && ProperBranch(e, reactive, foreign)
    ensures Judged(IntactBranch(I, e, env), HtmlBranch(I, e, reactive, env), DocBranch(I, e, reactive, Flow, env))
    decreases e, 0
  {
    hide Tame, Proper, Judged, Reads, Diverges, Value, Shown, Between, Html, Doc, Intact;
    match e
    case Jsx(_, node) => HtmlIsRead(I, node, reactive, foreign, "", env);
    case Cond(test, yes, no) =>
      var taken := if I.truthy(Value(I, test, env)) then yes else no;
      BranchIsRead(I, yes, reactive, foreign, env);
      BranchIsRead(I, no, reactive, foreign, env);
      MarkedReads(IntactBranch(I, taken, env), "conditional", HtmlBranch(I, taken, reactive, env), DocBranch(I, taken, reactive, Flow, env));
      MarksAre();
    case And(left, right) =>
      if I.truthy(Value(I, left, env)) {
        BranchIsRead(I, right, reactive, foreign, env);
        MarkedReads(IntactBranch(I, right, env), "conditional", HtmlBranch(I, right, reactive, env), DocBranch(I, right, reactive, Flow, env));
      } else {
        NothingReads();
        ReadsAre("", []);
        MarkedReads(true, "conditional", "", []);
      }
      MarksAre();
    case Plain(_) => EscIsRead(I, Value(I, Whole(e), env));
    case MapCall(_, _, _, _) => EscIsRead(I, Value(I, Whole(e), env));
  }

  /** Where every callback keeps the names it renders from, and text elements hold what fits in them: the generated text is
      read as the expression exactly if the tree is Parsable; and what the tokenizer of a browser reads in its value is the
      tree, exactly if in what is rendered no string attribute holds a double quote and nothing in a text element ends it. */
  lemma GeneratedHtmlIsFaithful(node: Node, reactive: set<string>, hydration: string)
    requires Bare(node) && IsBare(hydration) && '"' !in hydration && Kept(node) && Proper(node, reactive, false)
    ensures Readable(Emit(node, reactive, false, hydration)) <==> Parsable(node)
    ensures Parsable(node) ==> forall I, env | Tame(I) ::
      Tokens(Eval(I, Emit(node, reactive, false, hydration), env)) == Doc(I, node, reactive, Flow, hydration, env) <==> Intact(I, node, env)
  {
    hide Tame, Proper, Intact, Html, Doc, Eval, Emit, Tokens, Reads, Diverges, Readable, Parsable, Bare, Kept;
    GeneratedExpressionIsFaithful(node, reactive, hydration);
    if Parsable(node) {
      forall I, env | Tame(I)
        ensures Tokens(Eval(I, Emit(node, reactive, false, hydration), env)) == Doc(I, node, reactive, Flow, hydration, env)
           <==> Intact(I, node, env)
      {
        HtmlIsRead(I, node, reactive, false, hydration, env);
        ReadsAlone(Html(I, node, reactive, false, hydration, env), Doc(I, node, reactive, Flow, hydration, env));
      }
    }
  }

  // ------------------------------------------------------------------------------------------
  // Attributes
  // ------------------------------------------------------------------------------------------

  /** A double quote ends the value, and what follows is read as attributes: <p title='a" b="'/> gives a tag with two. */
  lemma QuoteMakesTwoAttributes(I: Interp, tag: string, name: string, v: string, other: string, w: string, reactive: set<string>, env: Env)
    requires IsTagName(tag) && IsBare(tag) && !IsComponent(tag) && !IsVoid(tag) && !IsTextElement(tag)
    requires IsBare(name) && !IsEventHandler(name) && !IsSkipped(name) && IsAttrName(HtmlName(name)) && IsAttrName(other)
    requires '"' !in v && '"' !in w && '\r' !in v + "\" " + other + "=\"" + w
    ensures var node := Element(tag, [Attr(name, StringValue(v + "\" " + other + "=\"" + w))], []);
      Tokens(Eval(I, Emit(node, reactive, false, ""), env))
        == [Open(tag, [HtmlAttr(HtmlName(name), Some(v)), HtmlAttr(other, Some(w))]), Close(tag)]
      && Doc(I, node, reactive, Flow, "", env)
        == [Open(tag, [HtmlAttr(HtmlName(name), Some(v + "\" " + other + "=\"" + w))]), Close(tag)]
  {
    hide Tokens, Eval, Emit, Reads, IsBoolean, IsTagName, IsAttrName, HtmlName, IsBare, WriteAttrs, IsEventHandler, IsSkipped, IsComponent,
      IsVoid, IsRawText, IsTextElement, Html, Doc;
    PlainPlace(tag);
    var value := v + "\" " + other + "=\"" + w;
    var node := Element(tag, [Attr(name, StringValue(value))], []);
    var two := [HtmlAttr(HtmlName(name), Some(v)), HtmlAttr(other, Some(w))];
    OneStringIsFine(tag, name, value);
    EmitEvaluates(I, node, reactive, false, "", env);
    OneString(I, name, value, env);
    ElementHtml(I, node, reactive, "", env);
    assert HtmlAll(I, [], reactive, IsRawText(tag), env) == "" && DocAll(I, [], reactive, PlaceOf(tag), env) == [];
    SplitsAtQuote(HtmlName(name), v, other, w);
    OpenIsRead(tag, two, "</" + tag + ">");
    TagHasNoEnd(tag);
    CloseReads(tag);
    ReadsAlone("</" + tag + ">", [Close(tag)]);
    OneElementText(tag, WriteAttrs(two));
    assert [Open(tag, two)] + [Close(tag)] == [Open(tag, two), Close(tag)];
  }

  lemma OneElementText(tag: string, attrs: string)
    ensures "<" + tag + attrs + Hydration("") + ">" + "" + ("</" + tag + ">") == "<" + tag + attrs + ">" + ("</" + tag + ">")
  {
  }

  lemma OneStringIsFine(tag: string, name: string, value: string)
    requires IsBare(tag) && !IsComponent(tag) && IsBare(name) && '\r' !in value
    ensures Fine(Element(tag, [Attr(name, StringValue(value))], [])) && IsBare("")
  {
    var attrs := [Attr(name, StringValue(value))];
    assert Prints(attrs[0]) && AllPrint(attrs);
    assert BareAll([]) && ParsableAll([]) && KeptAll([]);
  }

  lemma OneString(I: Interp, name: string, value: string, env: Env)
    requires !IsEventHandler(name) && !IsSkipped(name)
    ensures var a := Attr(name, StringValue(value));
      TagAttrs(I, [a], "", env) == WrittenAttrs(I, [a], env) == [HtmlAttr(HtmlName(name), Some(value))]
  {
    hide IsBoolean, IsEventHandler, IsSkipped, HtmlName;
    var a := Attr(name, StringValue(value));
    Solo(a);
    assert Only([], false) == [] && Only([], true) == [];
    assert Only([a], false) == [a] + [] == [a] && Only([a], true) == [] + [] == [];
    AttrOne(I, a, env);
    assert AttrsOf(I, [], env) == [];
  }

  lemma SplitsAtQuote(name: string, v: string, other: string, w: string)
    ensures WriteAttrs([HtmlAttr(name, Some(v + "\" " + other + "=\"" + w))])
         == WriteAttrs([HtmlAttr(name, Some(v)), HtmlAttr(other, Some(w))])
  {
    hide WriteAttrs;
    var a, b := HtmlAttr(name, Some(v)), HtmlAttr(other, Some(w));
    WriteOne(HtmlAttr(name, Some(v + "\" " + other + "=\"" + w)));
    WriteOne(a);
    WriteOne(b);
    WriteConcat([a], [b]);
    assert [a] + [b] == [a, b];
    TwoTexts(name, v, other, w);
  }

  lemma TwoTexts(name: string, v: string, other: string, w: string)
    ensures " " + (name + ("=\"" + (v + "\" " + other + "=\"" + w) + "\""))
         == " " + (name + ("=\"" + v + "\"")) + (" " + (other + ("=\"" + w + "\"")))
  {
    var head, tail := " " + name + "=\"" + v, other + "=\"" + w + "\"";
    assert " " + (name + ("=\"" + (v + "\" " + other + "=\"" + w) + "\"")) == head + "\" " + tail;
    assert " " + (name + ("=\"" + v + "\"")) == head + "\"";
    assert " " + (other + ("=\"" + w + "\"")) == " " + tail;
    assert head + "\" " + tail == head + "\"" + (" " + tail);
  }

  /** What a browser finds under a name in the tag that is written is what stands in the source first under it. */
  lemma BrowserFinds(I: Interp, tag: string, attrs: seq<Attr>, hydration: string, env: Env, name: string, rest: string)
    requires Tame(I) && IsTagName(tag) && NamesAreFine(attrs) && NoQuotes(attrs) && '"' !in hydration
    requires LateNamesUnique(attrs) && (hydration == "" || name != "data-v-id")
    ensures var t := Tokens("<" + tag + WriteAttrs(WrittenAttrs(I, attrs, env)) + Hydration(hydration) + ">" + rest);
      t != [] && t[0].Open? && t[0].tag == tag && Lookup(t[0].attrs, name) == Lookup(AttrsOf(I, attrs, env), name)
  {
    hide Tame, NamesAreFine, NoQuotes, WriteAttrs, WrittenAttrs, Tokens, Hydration, IsTagName, AttrsOf, LateNamesUnique, AllQuotable;
    var read := TagAttrs(I, attrs, hydration, env);
    TagAttrsAreFine(I, attrs, hydration, env);
    Regroup("<" + tag, WriteAttrs(WrittenAttrs(I, attrs, env)), Hydration(hydration));
    OpenIsFirst(tag, read, rest);
    WrittenLast(I, attrs, env, name);
    var tail := if hydration == "" then [] else [HtmlAttr("data-v-id", Some(hydration))];
    LookupConcat(WrittenAttrs(I, attrs, env), tail, name);
  }
}
