/** Text elements: what the string generator puts into them is right exactly where it comes without comments and tags, and
    with escapes just where references are read. A script or style takes texts and plain expressions; a title or textarea
    texts and plain expressions that use nothing reactive; the others, which the generator does not know, texts only. */
module SsrRaw {
  import opened Common
  import opened JsString
  import opened Ssr
  import opened SsrCorrect
  import opened SsrMeaning
  import opened SsrTokens
  import opened SsrHtml
  import JsxText

  // ------------------------------------------------------------------------------------------
  // The trees and the runtimes in question
  // ------------------------------------------------------------------------------------------

  /** What the grammar of JSX guarantees: no text holds a <, and no tag begins with a slash. */
  ghost predicate Grammatical(node: Node)
    decreases node, 1
  {
    match node
    case Text(t) => '<' !in t
    case Element(tag, _, children) => tag != "" && tag[0] != '/' && GrammaticalAll(children)
    case Fragment(children) => GrammaticalAll(children)
    case Container(e) => GrammaticalExpr(e)
    case Nothing(_) => true
  }

  ghost predicate GrammaticalAll(nodes: seq<Node>)
    decreases nodes, 2
  {
    nodes == [] || (Grammatical(nodes[0]) && GrammaticalAll(nodes[1..]))
  }

  ghost predicate GrammaticalExpr(e: Expr)
    decreases e, 0
  {
    match e
    case Cond(_, yes, no) => GrammaticalExpr(yes) && GrammaticalExpr(no)
    case And(_, right) => GrammaticalExpr(right)
    case MapCall(_, _, _, body) => body.Some? ==> Grammatical(body.value)
    case Jsx(_, node) => Grammatical(node)
    case Plain(_) => true
  }

  /** No value that is printed there ends the element. */
  ghost predicate Calm(I: Interp, place: Place) { forall v :: '<' !in if place.Referenced? then I.esc(v) else I.text(v) }

  /** A runtime whose components are elements, and whose escapes are comments but where they should be printed. */
  ghost function Marking(place: Place): Interp {
    Interp((t, m) => 0, v => true, v => [], v => if place.Referenced? then "" else "<!--e-->", v => "", v => "", v => "", s => 0, 0, i => 0, (names, v) => map[],
           (tag, props) => "<b></b>")
  }

  lemma ClosedIf(s: string, doc: seq<Token>)
    requires Reads(s, doc)
    ensures IsClosed(s) && Tokens(s) == doc
  {
    ReadsAlone(s, doc);
  }

  lemma MarkingIsTame(place: Place)
    ensures Tame(Marking(place)) && Calm(Marking(place), place)
    ensures Tokens("") == [] && Tokens("<!--e-->") == [Remark("e")] && Tokens("<b></b>") == [Open("b", []), Close("b")]
  {
    hide Reads, Tokens;
    NothingReads();
    ClosedIf("", []);
    RemarkReads("e");
    assert "<!--" + "e" + "-->" == "<!--e-->";
    ClosedIf("<!--e-->", [Remark("e")]);
    assert IsTagName("b") && !IsTextElement("b");
    OpenReads("b", []);
    CloseReads("b");
    assert "<" + "b" + WriteAttrs([]) + ">" == "<b>" && "</" + "b" + ">" == "</b>" && "<b>" + "</b>" == "<b></b>";
    ReadsConcat("<b>", [Open("b", [])], "</b>", [Close("b")]);
    assert [Open("b", [])] + [Close("b")] == [Open("b", []), Close("b")];
    ClosedIf("<b></b>", [Open("b", []), Close("b")]);
  }

  // ------------------------------------------------------------------------------------------
  // In that runtime no < is meant as text
  // ------------------------------------------------------------------------------------------

  ghost predicate NoTagChar(doc: seq<Token>) { Char('<') !in doc }

  lemma {:induction false} CharsHaveNone(s: string)
    requires '<' !in s
    ensures NoTagChar(Chars(s))
  {
    if s != "" { CharsHaveNone(s[1..]); }
  }

  lemma {:induction false} DocHasNone(node: Node, reactive: set<string>, place: Place, hydration: string, env: Env)
    requires Grammatical(node) && !place.Flow?
    ensures NoTagChar(Doc(Marking(place), node, reactive, place, hydration, env))
    decreases node, 1
  {
    hide GrammaticalAll, DocAll, DocExpr, Tokens, TagAttrs, HtmlAll, PropsOf;
    MarkingIsTame(place);
    match node
    case Text(t) => CleanHasNoTag(t); CharsHaveNone(JsxText.ServerClean(t));
    case Element(tag, attrs, children) => if !IsComponent(tag) && !IsVoid(tag) { AllHaveNone(children, reactive, place, env); }
    case Fragment(children) => AllHaveNone(children, reactive, place, env);
    case Container(e) => ExprHasNone(e, reactive, place, env);
    case Nothing(_) =>
  }

  lemma {:induction false} AllHaveNone(nodes: seq<Node>, reactive: set<string>, place: Place, env: Env)
    requires GrammaticalAll(nodes) && !place.Flow?
    ensures NoTagChar(DocAll(Marking(place), nodes, reactive, place, env))
    decreases nodes, 2
  {
    hide Grammatical, Doc;
    if nodes != [] {
      DocHasNone(nodes[0], reactive, place, "", env);
      AllHaveNone(nodes[1..], reactive, place, env);
    }
  }

  lemma ShownHasNone(v: Val, place: Place)
    requires !place.Flow?
    ensures NoTagChar(Shown(Marking(place), v, place))
  {
    hide Tokens;
    MarkingIsTame(place);
    NoChars();
  }

  lemma {:induction false} ExprHasNone(e: Expr, reactive: set<string>, place: Place, env: Env)
    requires GrammaticalExpr(e) && !place.Flow?
    ensures NoTagChar(DocExpr(Marking(place), e, reactive, place, env))
    decreases e, 1
  {
    hide Shown, Value, IsReactive;
    match e
    case Cond(_, _, _) => BranchHasNone(e, reactive, place, env);
    case And(_, _) => BranchHasNone(e, reactive, place, env);
    case MapCall(whole, _, _, _) => ShownHasNone(Value(Marking(place), whole, env), place);
    case Plain(js) => ShownHasNone(Value(Marking(place), js, env), place);
    case Jsx(whole, _) => ShownHasNone(Value(Marking(place), whole, env), place);
  }

  lemma {:induction false} BranchHasNone(e: Expr, reactive: set<string>, place: Place, env: Env)
    requires GrammaticalExpr(e) && !place.Flow?
    ensures NoTagChar(DocBranch(Marking(place), e, reactive, place, env))
    decreases e, 0
  {
    hide Shown, Value, Doc, Grammatical;
    match e
    case Jsx(_, node) => DocHasNone(node, reactive, place, "", env);
    case Cond(_, yes, no) => BranchHasNone(yes, reactive, place, env); BranchHasNone(no, reactive, place, env);
    case And(_, right) => BranchHasNone(right, reactive, place, env);
    case Plain(js) => ShownHasNone(Value(Marking(place), js, env), place);
    case MapCall(whole, _, _, _) => ShownHasNone(Value(Marking(place), whole, env), place);
  }

  // ------------------------------------------------------------------------------------------
  // But one is written
  // ------------------------------------------------------------------------------------------

  /** The first < is not that of an end tag. */
  ghost predicate Leads(s: string) {
    exists p: nat :: LeadsAt(s, p)
  }

  ghost predicate LeadsAt(s: string, p: nat) { p + 1 < |s| && '<' !in s[..p] && s[p] == '<' && s[p+1] != '/' }

  lemma LeadsFirst(a: string, b: string)
    requires Leads(a)
    ensures Leads(a + b)
  {
    var p: nat :| LeadsAt(a, p);
    assert (a + b)[..p] == a[..p];
    assert LeadsAt(a + b, p);
  }

  lemma LeadsLater(a: string, b: string)
    requires '<' !in a && Leads(b)
    ensures Leads(a + b)
  {
    var p: nat :| LeadsAt(b, p);
    assert (a + b)[..|a|+p] == a + b[..p];
    assert LeadsAt(a + b, |a| + p);
  }

  lemma OpensLead(s: string)
    requires |s| >= 2 && s[0] == '<' && s[1] != '/'
    ensures Leads(s)
  {
    assert LeadsAt(s, 0);
  }

  lemma {:induction false} WhatDoesNotFitLeads(node: Node, reactive: set<string>, place: Place, raw: bool, env: Env)
    requires Grammatical(node) && !place.Flow? && (raw ==> place.Literal?)
    ensures var s := Html(Marking(place), node, reactive, raw, "", env);
      if Fits(node, place, raw, reactive) then '<' !in s else Leads(s)
    decreases node, 0
  {
    hide HtmlAll, FitsAll, FitsExpr, GrammaticalAll, WriteAttrs, WrittenAttrs, PropsOf, Value, HtmlExpr, Leads;
    match node
    case Text(t) => CleanHasNoTag(t);
    case Element(tag, attrs, children) => OpensLead(Html(Marking(place), node, reactive, raw, "", env));
    case Fragment(children) => AllFitOrLead(children, reactive, place, false, env);
    case Container(e) => if FitsExpr(e, place, raw, reactive) { PrintsNothing(e, reactive, place, raw, env); } else { ExprLeads(e, reactive, place, raw, env); }
    case Nothing(_) =>
  }

  lemma PrintsNothing(e: Expr, reactive: set<string>, place: Place, raw: bool, env: Env)
    requires FitsExpr(e, place, raw, reactive) && (raw ==> place.Literal?)
    ensures HtmlExpr(Marking(place), e, reactive, raw, env) == ""
  {
    hide Value;
  }

  lemma ExprLeads(e: Expr, reactive: set<string>, place: Place, raw: bool, env: Env)
    requires !FitsExpr(e, place, raw, reactive) && !place.Flow? && (raw ==> place.Literal?)
    ensures Leads(HtmlExpr(Marking(place), e, reactive, raw, env))
  {
    hide Html, HtmlItems, Value, Leads, IsReactive;
    match e
    case Cond(test, yes, no) =>
      hide HtmlBranch;
      var taken := if Marking(place).truthy(Value(Marking(place), test, env)) then yes else no;
      BranchHtml(e, taken, reactive, place, env);
      MarkLeads("<!--conditional-->", HtmlBranch(Marking(place), taken, reactive, env), "<!--/conditional-->");
    case And(left, right) =>
      hide HtmlBranch;
      BranchHtml(e, right, reactive, place, env);
      MarkLeads("<!--conditional-->", HtmlBranch(Marking(place), right, reactive, env), "<!--/conditional-->");
    case MapCall(_, _, _, body) =>
      if body.Some? {
        MarkLeads("<!--list-->", "", "<!--/list-->");
        NoItems(e, reactive, place, raw, env);
      } else {
        OpensLead("<!--e-->");
      }
    case Plain(_) => EscLeads(e, reactive, place, env);
    case Jsx(_, _) => EscLeads(e, reactive, place, env);
  }

  lemma BranchHtml(e: Expr, taken: Expr, reactive: set<string>, place: Place, env: Env)
    requires e.Cond? || e.And?
    requires e.Cond? ==> taken == if Marking(place).truthy(Value(Marking(place), e.test, env)) then e.yes else e.no
    requires e.And? ==> taken == e.right
    ensures HtmlBranch(Marking(place), e, reactive, env) == "<!--conditional-->" + HtmlBranch(Marking(place), taken, reactive, env) + "<!--/conditional-->"
  {
    hide Html, Value;
  }

  lemma NoItems(e: Expr, reactive: set<string>, place: Place, raw: bool, env: Env)
    requires e.MapCall? && e.body.Some?
    ensures HtmlExpr(Marking(place), e, reactive, raw, env) == "<!--list-->" + "" + "<!--/list-->"
  {
    hide Html, Value;
  }

  lemma EscLeads(e: Expr, reactive: set<string>, place: Place, env: Env)
    requires (e.Plain? || e.Jsx?) && (place.Literal? || IsReactive(Whole(e), reactive))
    ensures Leads(HtmlExpr(Marking(place), e, reactive, false, env))
  {
    hide Value, Leads;
    OpensLead("<!--e-->");
    MarkLeads("<!--child-->", Marking(place).esc(Value(Marking(place), Whole(e), env)), "<!--/child-->");
  }

  lemma MarkLeads(mark: string, inside: string, end: string)
    requires |mark| >= 2 && mark[0] == '<' && mark[1] != '/'
    ensures Leads(mark + inside + end)
  {
    OpensLead(mark + inside + end);
  }

  lemma {:induction false} AllFitOrLead(nodes: seq<Node>, reactive: set<string>, place: Place, raw: bool, env: Env)
    requires GrammaticalAll(nodes) && !place.Flow? && (raw ==> place.Literal?)
    ensures var s := HtmlAll(Marking(place), nodes, reactive, raw, env); if FitsAll(nodes, place, raw, reactive) then '<' !in s else Leads(s)
    decreases nodes, 1
  {
    hide Html, Fits, Grammatical, Leads;
    if nodes != [] {
      WhatDoesNotFitLeads(nodes[0], reactive, place, raw, env);
      AllFitOrLead(nodes[1..], reactive, place, raw, env);
      Joins(Fits(nodes[0], place, raw, reactive), Html(Marking(place), nodes[0], reactive, raw, "", env),
            FitsAll(nodes[1..], place, raw, reactive), HtmlAll(Marking(place), nodes[1..], reactive, raw, env));
    }
  }

  lemma Joins(ok: bool, a: string, ok': bool, b: string)
    requires if ok then '<' !in a else Leads(a)
    requires if ok' then '<' !in b else Leads(b)
    ensures if ok && ok' then '<' !in a + b else Leads(a + b)
  {
    if !ok { LeadsFirst(a, b); } else if !ok' { LeadsLater(a, b); }
  }

  // ------------------------------------------------------------------------------------------
  // The two directions
  // ------------------------------------------------------------------------------------------

  lemma {:induction false} FittingIsCalm(I: Interp, nodes: seq<Node>, place: Place, raw: bool, reactive: set<string>, env: Env)
    requires Calm(I, place) && FitsAll(nodes, place, raw, reactive) && GrammaticalAll(nodes)
    ensures '<' !in ContentAll(I, nodes, place, env)
    decreases nodes, 1
  {
    hide Fits, Content, Grammatical;
    if nodes != [] {
      ChildIsCalm(I, nodes[0], place, raw, reactive, env);
      FittingIsCalm(I, nodes[1..], place, raw, reactive, env);
    }
  }

  lemma {:induction false} ChildIsCalm(I: Interp, node: Node, place: Place, raw: bool, reactive: set<string>, env: Env)
    requires Calm(I, place) && Fits(node, place, raw, reactive) && Grammatical(node)
    ensures '<' !in Content(I, node, place, env)
    decreases node, 0
  {
    hide ContentAll, Value;
    if node.Text? { CleanHasNoTag(node.raw); }
    if node.Fragment? { FittingIsCalm(I, node.children, place, false, reactive, env); }
  }

  lemma {:induction false} CalmIsQuiet(x: string, tag: string)
    requires '<' !in x
    ensures IsQuiet(x, tag)
  {
    if x != "" { CalmIsQuiet(x[1..], tag); }
  }

  /** What is written into a text element is read as it is meant, in every runtime whose values do not end the element,
      exactly if it fits. */
  lemma TextIsRightIffItFits(tag: string, attrs: seq<Attr>, children: seq<Node>, reactive: set<string>)
    requires IsTextElement(tag) && !IsComponent(tag) && NamesAreFine(attrs) && NoQuotes(attrs) && GrammaticalAll(children)
    ensures var node, place := Element(tag, attrs, children), PlaceOf(tag);
      FitsAll(children, place, IsKnownText(tag), reactive) <==>
      forall I, env | Tame(I) && Calm(I, place) :: Tokens(Html(I, node, reactive, false, "", env)) == Doc(I, node, reactive, Flow, "", env)
  {
    hide Tame, Calm, NamesAreFine, NoQuotes, GrammaticalAll, FitsAll, Html, Doc, Tokens, Marking, IsTextElement, IsComponent, PlaceOf,
      IsKnownText, IsRawText;
    var node, place := Element(tag, attrs, children), PlaceOf(tag);
    PlainPlace(tag);
    if FitsAll(children, place, IsKnownText(tag), reactive) {
      forall I, env | Tame(I) && Calm(I, place) ensures Tokens(Html(I, node, reactive, false, "", env)) == Doc(I, node, reactive, Flow, "", env) {
        FittingIsRight(I, tag, attrs, children, reactive, env);
      }
    } else {
      MarkingIsTame(place);
      NotFittingIsWrong(tag, attrs, children, reactive, map[]);
    }
  }

  lemma TextIsNotVoid(tag: string)
    requires IsTextElement(tag)
    ensures !IsVoid(tag)
  {
    hide IsVoid, IsTextElement;
    if IsVoid(tag) { VoidIsNoText(tag); }
  }

  lemma FittingIsRight(I: Interp, tag: string, attrs: seq<Attr>, children: seq<Node>, reactive: set<string>, env: Env)
    requires IsTextElement(tag) && !IsComponent(tag) && NamesAreFine(attrs) && NoQuotes(attrs) && GrammaticalAll(children)
    requires Tame(I) && Calm(I, PlaceOf(tag)) && FitsAll(children, PlaceOf(tag), IsRawText(tag), reactive)
    ensures var node := Element(tag, attrs, children);
      Tokens(Html(I, node, reactive, false, "", env)) == Doc(I, node, reactive, Flow, "", env)
  {
    hide Tame, Calm, NamesAreFine, NoQuotes, GrammaticalAll, FitsAll, Html, Doc, Tokens, Reads, Diverges, ContentAll, IsTextElement, IsVoid,
      PlaceOf, IsRawText, IsComponent;
    var node := Element(tag, attrs, children);
    TextIsNotVoid(tag);
    PlainPlace(tag);
    FittingIsCalm(I, children, PlaceOf(tag), IsRawText(tag), reactive, env);
    CalmIsQuiet(ContentAll(I, children, PlaceOf(tag), env), tag);
    TextElementIsRead(I, node, reactive, "", env);
    ReadsAlone(Html(I, node, reactive, false, "", env), Doc(I, node, reactive, Flow, "", env));
  }

  lemma NotFittingIsWrong(tag: string, attrs: seq<Attr>, children: seq<Node>, reactive: set<string>, env: Env)
    requires IsTextElement(tag) && !IsComponent(tag) && NamesAreFine(attrs) && NoQuotes(attrs) && GrammaticalAll(children)
    requires !FitsAll(children, PlaceOf(tag), IsRawText(tag), reactive)
    ensures var node, I := Element(tag, attrs, children), Marking(PlaceOf(tag));
      Tokens(Html(I, node, reactive, false, "", env)) != Doc(I, node, reactive, Flow, "", env)
  {
    hide Tame, NamesAreFine, NoQuotes, GrammaticalAll, FitsAll, Html, Doc, Tokens, Leads, Marking, HtmlAll, DocAll, TagAttrs,
      WriteAttrs, WrittenAttrs, RawLength, IsTextElement, IsVoid, PlaceOf, IsRawText, IsComponent;
    var node, place := Element(tag, attrs, children), PlaceOf(tag);
    var x := HtmlAll(Marking(place), children, reactive, IsRawText(tag), env);
    TextIsNotVoid(tag);
    PlainPlace(tag);
    MarkingIsTame(place);
    ElementHtml(Marking(place), node, reactive, "", env);
    TagAttrsAreFine(Marking(place), attrs, "", env);
    Regroup("<" + tag, WriteAttrs(WrittenAttrs(Marking(place), attrs, env)), Hydration(""));
    AllFitOrLead(children, reactive, place, IsRawText(tag), env);
    AllHaveNone(children, reactive, place, env);
    LeadIsRead(tag, TagAttrs(Marking(place), attrs, "", env), x);
  }

  lemma LeadIsRead(tag: string, attrs: seq<HtmlAttr>, x: string)
    requires IsTextElement(tag) && AttrNames(attrs) && AllQuotable(attrs) && Leads(x)
    ensures Char('<') in Tokens("<" + tag + WriteAttrs(attrs) + ">" + x + ("</" + tag + ">"))
  {
    hide Tokens, WriteAttrs, AllQuotable, RawLength, Chars, IsTextElement;
    var p: nat :| LeadsAt(x, p);
    var n := RawLength(x, tag);
    RawTextReads(tag, attrs, x, "");
    LeadIsNoEnd(x, tag, p);
    CharsAre(x[..n]);
    assert x[..n][p] == '<';
    assert Chars(x[..n])[p] == Char('<');
    var s := "<" + tag + WriteAttrs(attrs) + ">" + x + ("</" + tag + ">");
    assert s + "" == s;
  }

  lemma {:induction false} LeadIsNoEnd(x: string, tag: string, p: nat)
    requires LeadsAt(x, p)
    ensures p < RawLength(x, tag)
  {
    if p > 0 {
      assert x[0] == x[..p][0];
      assert x[1..][..p-1] == x[..p][1..];
      LeadIsNoEnd(x[1..], tag, p - 1);
    }
  }

  /** <title>{n}</title> with n reactive: the marks are characters of the title. */
  lemma MarksAreShownInATitle(I: Interp, n: string, shown: string, reactive: set<string>, env: Env)
    requires n in reactive && '<' !in shown && forall v :: I.esc(v) == shown
    ensures var js := Js(n, {n}, {n}, Simple);
      var node := Element("title", [], [Container(Plain(js))]);
      Tokens(Html(I, node, reactive, false, "", env)) == [Open("title", [])] + Chars("<!--child-->" + shown + "<!--/child-->") + [Close("title")]
      && Doc(I, node, reactive, Flow, "", env) == [Open("title", [])] + Chars(shown) + [Close("title")]
  {
    hide Tokens, Chars, Reads, Diverges, IsReactive, Value, RawLength, WriteAttrs;
    var js := Js(n, {n}, {n}, Simple);
    var child := Container(Plain(js));
    var node := Element("title", [], [child]);
    var x := "<!--child-->" + shown + "<!--/child-->";
    TitleIsText();
    ReactiveChild(I, js, shown, n, reactive, env);
    ElementHtml(I, node, reactive, "", env);
    NoTagAttrs(I, env);
    TitleGoesOn(x, shown);
    RawElementReads("title", [], x);
    ReadsAlone("<title" + WriteAttrs([]) + ">" + x + "</title>", [Open("title", [])] + Chars(x) + [Close("title")]);
    TitleText(WriteAttrs([]), x);
  }

  lemma ReactiveChild(I: Interp, js: Js, shown: string, n: string, reactive: set<string>, env: Env)
    requires n in reactive && n in js.mentions && forall v :: I.esc(v) == shown
    ensures var child := Container(Plain(js));
      HtmlAll(I, [child], reactive, false, env) == "<!--child-->" + shown + "<!--/child-->"
      && DocAll(I, [child], reactive, Referenced, env) == Chars(shown)
  {
    hide Value, Chars;
    var child := Container(Plain(js));
    Solo(child);
    assert IsReactive(js, reactive);
    assert HtmlAll(I, [], reactive, false, env) == "" && DocAll(I, [], reactive, Referenced, env) == [];
    assert Html(I, child, reactive, false, "", env) == "<!--child-->" + shown + "<!--/child-->";
    assert Doc(I, child, reactive, Referenced, "", env) == Shown(I, Value(I, js, env), Referenced) == Chars(shown);
    assert Chars(shown) + [] == Chars(shown);
  }

  lemma TitleIsText()
    ensures IsTextElement("title") && PlaceOf("title") == Referenced && !IsRawText("title") && !IsVoid("title") && !IsComponent("title")
  {
    assert Lower("title") == "title";
  }

  lemma NoTagAttrs(I: Interp, env: Env)
    ensures TagAttrs(I, [], "", env) == [] == WrittenAttrs(I, [], env) && AttrNames([]) && AllQuotable([])
  {
  }

  lemma TitleText(attrs: string, x: string)
    ensures "<" + "title" + attrs + Hydration("") + ">" + x + ("</" + "title" + ">") == "<title" + attrs + ">" + x + "</title>"
    ensures "<" + "title" + attrs + ">" + x + ("</" + "title" + ">") == "<title" + attrs + ">" + x + "</title>"
  {
  }

  /** Neither of the two marks ends a title. */
  lemma TitleGoesOn(x: string, shown: string)
    requires '<' !in shown && x == "<!--child-->" + shown + "<!--/child-->"
    ensures IsQuiet(x, "title")
  {
    hide RawLength;
    var open, close := "<!--child-->", "<!--/child-->";
    assert x == open + (shown + (close + ""));
    MarkGoesOn(open, shown + (close + ""), "title");
    CalmGoesOn(shown, close + "", "title");
    MarkGoesOn(close, "", "title");
    CalmIsQuiet("", "title");
  }

  lemma MarkGoesOn(mark: string, rest: string, tag: string)
    requires |mark| >= 2 && mark[1] != '/' && '<' !in mark[1..]
    ensures RawLength(mark + rest, tag) == |mark| + RawLength(rest, tag)
  {
    var s := mark + rest;
    assert s[1] == mark[1] && s[1..] == mark[1..] + rest;
    CalmGoesOn(mark[1..], rest, tag);
  }

  lemma {:induction false} CalmGoesOn(x: string, rest: string, tag: string)
    requires '<' !in x
    ensures RawLength(x + rest, tag) == |x| + RawLength(rest, tag)
  {
    if x == "" {
      assert x + rest == rest;
    } else {
      assert (x + rest)[0] == x[0] && (x + rest)[1..] == x[1..] + rest;
      CalmGoesOn(x[1..], rest, tag);
    }
  }
}
