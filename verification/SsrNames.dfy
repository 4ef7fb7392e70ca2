/** Which names the string generator writes, and what for: attributes, tags and marks, each read off the page and stated
    with the names themselves. */
module SsrNames {
  import opened Common
  import opened JsString
  import opened Ssr
  import opened SsrCorrect
  import opened SsrMeaning
  import opened SsrTokens
  import opened SsrHtml
  import JsxText

  // ------------------------------------------------------------------------------------------
  // Attributes
  // ------------------------------------------------------------------------------------------

  /** The attribute of the page that an attribute of the source stands for. */
  ghost function Expected(I: Interp, a: Attr, env: Env): Option<HtmlAttr> {
    if |a.name| > 2 && a.name[0] == 'o' && a.name[1] == 'n' && 'A' <= a.name[2] <= 'Z' then None
    else if a.name in {"key", "ref", "dangerouslySetInnerHTML"} then None
    else if a.name == "className" then ExpectedValue(I, "class", a.value, env)
    else if a.name == "htmlFor" then ExpectedValue(I, "for", a.value, env)
    else ExpectedValue(I, a.name, a.value, env)
  }

  ghost function ExpectedValue(I: Interp, name: string, value: AttrValue, env: Env): Option<HtmlAttr> {
    match value
    case NoValue => Some(HtmlAttr(name, None))
    case OtherValue(_) => None
    case StringValue(v) => Some(HtmlAttr(name, Some(v)))
    case ExprValue(js) =>
      if name == "style" then Some(HtmlAttr(name, Some(I.style(Value(I, js, env)))))
      else if IsFlag(Lower(name)) then (if I.truthy(Value(I, js, env)) then Some(HtmlAttr(name, None)) else None)
      else Some(HtmlAttr(name, Some(I.escAttr(Value(I, js, env)))))
  }

  /** The boolean attributes of the HTML standard. */
  predicate IsFlag(name: string) {
    || name in {"disabled", "hidden", "inert", "autofocus"}
    || name in {"checked", "multiple", "readonly", "required", "selected", "formnovalidate", "novalidate"}
    || name in {"autoplay", "controls", "loop", "muted", "playsinline", "default"}
    || name in {"async", "defer", "nomodule"}
    || name in {"allowfullscreen", "ismap", "itemscope", "open", "reversed"}
  }

  lemma FlagsAre(name: string)
    ensures IsBoolean(name) <==> IsFlag(Lower(name))
  {
    hide Lower;
  }

  /** The case of the letters does not matter. */
  lemma ReadOnlyIsAFlag()
    ensures IsFlag(Lower("readOnly")) && IsFlag(Lower("DISABLED")) && IsBoolean("readOnly") && IsBoolean("DISABLED")
  {
    assert Lower("readOnly") == "readonly" && Lower("DISABLED") == "disabled";
  }

  lemma AttributeIsExpected(I: Interp, a: Attr, env: Env)
    ensures AttrOf(I, a, env) == Expected(I, a, env)
  {
    hide IsBoolean, IsFlag, Value;
    FlagsAre(a.name);
    FlagsAre("class");
    FlagsAre("for");
  }

  /** The first attribute under a name. */
  ghost function FirstUnder(I: Interp, attrs: seq<Attr>, env: Env, name: string): Option<Option<string>> {
    if attrs == [] then None
    else
      var first := Expected(I, attrs[0], env);
      if first.Some? && first.value.name == name then Some(first.value.value) else FirstUnder(I, attrs[1..], env, name)
  }

  lemma {:induction false} FirstUnderIs(I: Interp, attrs: seq<Attr>, env: Env, name: string)
    ensures Lookup(AttrsOf(I, attrs, env), name) == FirstUnder(I, attrs, env, name)
  {
    hide AttrOf, Expected;
    if attrs != [] {
      AttributeIsExpected(I, attrs[0], env);
      FirstUnderIs(I, attrs[1..], env, name);
      var a, rest := AttrOf(I, attrs[0], env), AttrsOf(I, attrs[1..], env);
      if a.Some? { ConsEqual(a.value, rest, a.value, rest); } else { NoPrefix(rest); }
    }
  }

  /** What a browser finds under a name in a tag is what the first attribute of the source says that stands for that name:
      className for class, htmlFor for for, and any other for its own name. Handlers, key, ref and dangerouslySetInnerHTML
      are not in the page, and neither are the names className and htmlFor. */
  lemma AttributesAreFound(I: Interp, tag: string, attrs: seq<Attr>, hydration: string, env: Env, name: string, rest: string)
    requires Tame(I) && IsTagName(tag) && NamesAreFine(attrs) && NoQuotes(attrs) && '"' !in hydration
    requires LateNamesUnique(attrs) && (hydration == "" || name != "data-v-id")
    ensures var t := Tokens("<" + tag + WriteAttrs(WrittenAttrs(I, attrs, env)) + Hydration(hydration) + ">" + rest);
      t != [] && t[0].Open? && t[0].tag == tag && Lookup(t[0].attrs, name) == FirstUnder(I, attrs, env, name)
    ensures name == "className" || name == "htmlFor" ==> FirstUnder(I, attrs, env, name) == None
  {
    hide Tame, NamesAreFine, NoQuotes, WriteAttrs, WrittenAttrs, Tokens, Hydration, IsTagName, LateNamesUnique, Lookup, FirstUnder;
    BrowserFinds(I, tag, attrs, hydration, env, name, rest);
    FirstUnderIs(I, attrs, env, name);
    NoSourceName(I, attrs, env, name);
  }

  lemma {:induction false} NoSourceName(I: Interp, attrs: seq<Attr>, env: Env, name: string)
    ensures name == "className" || name == "htmlFor" ==> FirstUnder(I, attrs, env, name) == None
  {
    hide IsFlag, Value;
    if attrs != [] { NoSourceName(I, attrs[1..], env, name); }
  }

  /** <tag className="v" htmlFor="w">: the tag that is read. */
  lemma ClassAndForAreRead(I: Interp, tag: string, v: string, w: string, reactive: set<string>, env: Env)
    requires Tame(I) && IsTagName(tag) && IsBare(tag) && !IsComponent(tag)
    requires forall c | c == '"' || c == '\r' :: c !in v && c !in w
    ensures var node := Element(tag, [Attr("className", StringValue(v)), Attr("htmlFor", StringValue(w))], []);
      var t := Tokens(Eval(I, Emit(node, reactive, false, ""), env));
      t != [] && t[0] == Open(tag, [HtmlAttr("class", Some(v)), HtmlAttr("for", Some(w))])
  {
    hide Tokens, Eval, Emit, Tame, IsTagName, IsBare, WriteAttrs, Html, Doc, IsVoid, IsTextElement, IsRawText, IsComponent;
    var attrs := [Attr("className", StringValue(v)), Attr("htmlFor", StringValue(w))];
    var read := [HtmlAttr("class", Some(v)), HtmlAttr("for", Some(w))];
    var node := Element(tag, attrs, []);
    TwoAttrsAreFine(tag, v, w);
    EmitEvaluates(I, node, reactive, false, "", env);
    TwoAttrs(I, v, w, env);
    var rest := if IsVoid(tag) then "" else "</" + tag + ">";
    ChildlessHtml(I, tag, attrs, reactive, env);
    NoHydration("<" + tag + WriteAttrs(read));
    OpenIsFirst(tag, read, rest);
  }

  lemma NoHydration(s: string)
    ensures s + Hydration("") == s
  {
  }

  /** The page of an element without children. */
  lemma ChildlessHtml(I: Interp, tag: string, attrs: seq<Attr>, reactive: set<string>, env: Env)
    requires !IsComponent(tag)
    ensures Html(I, Element(tag, attrs, []), reactive, false, "", env)
         == "<" + tag + WriteAttrs(WrittenAttrs(I, attrs, env)) + Hydration("") + ">" + if IsVoid(tag) then "" else "</" + tag + ">"
  {
    hide WriteAttrs, WrittenAttrs, IsVoid, IsComponent, IsRawText, HtmlAll;
    NothingInside(I, reactive, IsRawText(tag), env);
    NoHydration("<" + tag + WriteAttrs(WrittenAttrs(I, attrs, env)));
    NoPrefix("</" + tag + ">");
  }

  lemma NothingInside(I: Interp, reactive: set<string>, raw: bool, env: Env)
    ensures HtmlAll(I, [], reactive, raw, env) == ""
  {
  }

  lemma TwoAttrsAreFine(tag: string, v: string, w: string)
    requires IsBare(tag) && !IsComponent(tag) && '\r' !in v && '\r' !in w
    ensures Fine(Element(tag, [Attr("className", StringValue(v)), Attr("htmlFor", StringValue(w))], [])) && IsBare("")
  {
    hide IsVoid;
    var attrs := [Attr("className", StringValue(v)), Attr("htmlFor", StringValue(w))];
    assert Prints(attrs[0]) && Prints(attrs[1]) && AllPrint(attrs);
    assert IsBare(attrs[0].name) && IsBare(attrs[1].name);
    assert BareAll([]) && ParsableAll([]) && KeptAll([]);
  }

  lemma TwoAttrs(I: Interp, v: string, w: string, env: Env)
    requires '"' !in v && '"' !in w
    ensures var attrs := [Attr("className", StringValue(v)), Attr("htmlFor", StringValue(w))];
      var read := [HtmlAttr("class", Some(v)), HtmlAttr("for", Some(w))];
      WrittenAttrs(I, attrs, env) == read && AttrNames(read) && AllQuotable(read)
  {
    hide IsFlag, IsBoolean, AttrOf, IsLate;
    var a, b := Attr("className", StringValue(v)), Attr("htmlFor", StringValue(w));
    var attrs := [a, b];
    AttributeIsExpected(I, a, env);
    AttributeIsExpected(I, b, env);
    StringsAreNotLate("className", v);
    StringsAreNotLate("htmlFor", w);
    NoneLate(attrs);
    assert attrs[1..] == [b] && [b][1..] == [];
    assert AttrsOf(I, [], env) == [];
    assert AttrsOf(I, [b], env) == [HtmlAttr("for", Some(w))];
    assert AttrsOf(I, attrs, env) == [HtmlAttr("class", Some(v)), HtmlAttr("for", Some(w))];
    ClassAndForAreNames();
  }

  lemma StringsAreNotLate(name: string, v: string)
    ensures !IsLate(Attr(name, StringValue(v)))
  {
  }

  lemma {:induction false} NoneLate(attrs: seq<Attr>)
    requires forall a <- attrs :: !IsLate(a)
    ensures Only(attrs, false) == attrs && Only(attrs, true) == []
  {
    hide IsLate;
    if attrs != [] {
      NoneLate(attrs[1..]);
      assert attrs == [attrs[0]] + attrs[1..];
    }
  }

  lemma ClassAndForAreNames()
    ensures IsAttrName("class") && IsAttrName("for")
  {
  }

  // ------------------------------------------------------------------------------------------
  // Tags
  // ------------------------------------------------------------------------------------------

  /** The void elements of the HTML standard, with param, which it calls obsolete. */
  predicate HasNoEnd(tag: string) {
    || tag in {"area", "base", "br", "col", "embed", "hr", "img"}
    || tag in {"input", "link", "meta", "param", "source", "track", "wbr"}
  }

  /** An element without children whose name begins with a small letter is read as a tag, and as its end tag unless it is a
      void one. */
  lemma EmptyElementIsRead(I: Interp, tag: string, reactive: set<string>, env: Env)
    requires IsTagName(tag) && IsBare(tag) && 'a' <= tag[0] <= 'z'
    ensures Tokens(Eval(I, Emit(Element(tag, [], []), reactive, false, ""), env))
         == if HasNoEnd(tag) then [Open(tag, [])] else [Open(tag, []), Close(tag)]
  {
    hide Tokens, Eval, Emit, IsBare, WriteAttrs, Html, IsTextElement, IsRawText, HasNoEnd, IsVoid, RawLength, Chars, Reads, Diverges;
    VoidsAre(tag);
    NoHydration("<" + tag + WriteAttrs([]));
    NothingIsFine(tag);
    EmitEvaluates(I, Element(tag, [], []), reactive, false, "", env);
    ChildlessHtml(I, tag, [], reactive, env);
    EmptyTagText(I, tag, env);
    var open := "<" + tag + WriteAttrs([]) + ">";
    TagHasNoEnd(tag);
    CloseReads(tag);
    if IsTextElement(tag) {
      if IsVoid(tag) { VoidIsNoText(tag); }
      EmptyTextIsRead(tag);
    } else {
      OpenReads(tag, []);
      if IsVoid(tag) {
        ReadsAlone(open, [Open(tag, [])]);
        assert open + "" == open;
      } else {
        ReadsConcat(open, [Open(tag, [])], "</" + tag + ">", [Close(tag)]);
        ReadsAlone(open + ("</" + tag + ">"), [Open(tag, [])] + [Close(tag)]);
        assert [Open(tag, [])] + [Close(tag)] == [Open(tag, []), Close(tag)];
      }
    }
  }

  lemma VoidsAre(tag: string)
    ensures IsVoid(tag) <==> HasNoEnd(tag)
  {
  }

  lemma EmptyTextIsRead(tag: string)
    requires IsTextElement(tag)
    ensures Tokens("<" + tag + WriteAttrs([]) + ">" + ("</" + tag + ">")) == [Open(tag, []), Close(tag)]
  {
    hide Tokens, WriteAttrs, IsTextElement, Reads, Diverges;
    RawElementReads(tag, [], "");
    assert Chars("") == [] && IsQuiet("", tag);
    var s := "<" + tag + WriteAttrs([]) + ">" + "" + ("</" + tag + ">");
    ReadsAlone(s, [Open(tag, [])] + [] + [Close(tag)]);
    assert s == "<" + tag + WriteAttrs([]) + ">" + ("</" + tag + ">");
    assert [Open(tag, [])] + [] + [Close(tag)] == [Open(tag, []), Close(tag)];
  }

  lemma EmptyTagText(I: Interp, tag: string, env: Env)
    ensures WrittenAttrs(I, [], env) == [] && AttrNames([]) && AllQuotable([])
  {
  }

  lemma NothingIsFine(tag: string)
    requires IsBare(tag) && tag != "" && 'a' <= tag[0] <= 'z'
    ensures Fine(Element(tag, [], [])) && IsBare("") && !IsComponent(tag)
  {
    assert AllPrint([]) && BareAll([]) && ParsableAll([]) && KeptAll([]);
  }

  /** An element whose name begins with a capital letter is a call of that component. */
  lemma CapitalIsACall(I: Interp, tag: string, reactive: set<string>, env: Env)
    requires tag != "" && 'A' <= tag[0] <= 'Z'
    ensures Eval(I, Emit(Element(tag, [], []), reactive, false, ""), env) == I.call(tag, [])
  {
    assert EmitProps([]) + ChildrenProp(EmitAll([], {}, false)) == [];
  }

  /** <My-card/> and <my:Card/> are no calls, and a name of letters is one. */
  lemma HyphenatedIsNoCall(tag: string, reactive: set<string>)
    requires tag != "" && 'A' <= tag[0] <= 'Z'
    ensures '-' in tag || ':' in tag ==> !Readable(Emit(Element(tag, [], []), reactive, false, ""))
    ensures (forall c <- tag :: IsLetter(c)) ==> Readable(Emit(Element(tag, [], []), reactive, false, ""))
  {
    assert EmitProps([]) + ChildrenProp(EmitAll([], {}, false)) == [];
    assert forall i | 0 <= i < |tag| :: tag[i] in tag;
    if c :| c in tag && (c == '-' || c == ':') { var i :| 0 <= i < |tag| && tag[i] == c; }
  }

  /** A property of a component: the call is read exactly if the name is of letters, digits, _ and $, and begins with no
      digit. */
  lemma PropertyNames(tag: string, name: string, js: Js, reactive: set<string>)
    requires tag != "" && 'A' <= tag[0] <= 'Z' && (forall c <- tag :: IsLetter(c)) && forall c <- name :: c < '\U{0080}'
    ensures Readable(Emit(Element(tag, [Attr(name, ExprValue(js))], []), reactive, false, "")) <==>
      name != "" && !('0' <= name[0] <= '9') && forall c <- name :: IsLetter(c) || '0' <= c <= '9' || c == '_' || c == '$'
  {
    var a := Attr(name, ExprValue(js));
    Solo(a);
    assert EmitProps([]) == [] && EmitProps([a]) == [Prop(name, PropCode(js))] + [] == [Prop(name, PropCode(js))];
    assert ChildrenProp(EmitAll([], {}, false)) == [];
    var props := [Prop(name, PropCode(js))];
    assert props + [] == props;
    assert forall i | 0 <= i < |tag| :: tag[i] in tag;
    assert forall i | 0 <= i < |name| :: name[i] in name;
    assert IsCallee(tag);
    NameCharsAre(name);
    assert Readable(Call(tag, props)) <==> ReadableProp(props[0]);
  }

  lemma NameCharsAre(name: string)
    requires forall c <- name :: c < '\U{0080}'
    ensures IsKey(name) <==>
      name != "" && !('0' <= name[0] <= '9') && forall c <- name :: IsLetter(c) || '0' <= c <= '9' || c == '_' || c == '$'
  {
    assert forall i | 0 <= i < |name| :: name[i] in name;
    forall c | c in name && IsKey(name) ensures IsNameChar(c) { var i :| 0 <= i < |name| && name[i] == c; }
  }

  // ------------------------------------------------------------------------------------------
  // A list
  // ------------------------------------------------------------------------------------------

  /** <ul className="a">{items.map(x => <li>{e}</li>)}</ul> */
  function ListOf(whole: Js, list: Js, x: string, e: Js): Node {
    Element("ul", [Attr("className", StringValue("a"))], [Container(MapCall(whole, list, [Name(x)], Some(Element("li", [], [Container(Plain(e))]))))])
  }

  /** It is read as the list that was written, whatever names e uses. */
  lemma ListIsRead(I: Interp, whole: Js, list: Js, x: string, e: Js, reactive: set<string>, env: Env)
    requires Tame(I) && !IsReactive(e, reactive)
    ensures var items := I.items(Value(I, list, env));
      Tokens(Eval(I, Emit(ListOf(whole, list, x, e), reactive, false, ""), env))
      == [Open("ul", [HtmlAttr("class", Some("a"))]), Remark("list")] + Rows(I, x, e, items, env) + [Remark("/list"), Close("ul")]
  {
    hide Tokens, Eval, Emit, Tame, Doc, Intact, Proper, Bare, Kept, Parsable, Readable, Value, Rows, IsReactive;
    ListIsOrdinary(whole, list, x, e, reactive);
    ListIsIntact(I, whole, list, x, e, env);
    GeneratedHtmlIsFaithful(ListOf(whole, list, x, e), reactive, "");
    ListDoc(I, whole, list, x, e, reactive, env);
  }

  ghost function Rows(I: Interp, x: string, e: Js, items: seq<Val>, env: Env): seq<Token> {
    if items == [] then []
    else [Open("li", [])] + Tokens(I.esc(Value(I, e, env[x := items[0]]))) + [Close("li")] + Rows(I, x, e, items[1..], env)
  }

  lemma ListIsOrdinary(whole: Js, list: Js, x: string, e: Js, reactive: set<string>)
    ensures var n := ListOf(whole, list, x, e);
      Bare(n) && IsBare("") && Kept(n) && Proper(n, reactive, false) && Parsable(n)
  {
    var slot := Container(Plain(e));
    var li := Element("li", [], [slot]);
    var call := Container(MapCall(whole, list, [Name(x)], Some(li)));
    UlAndLi();
    Solo(slot);
    Solo(call);
    assert Parsable(slot) && Kept(slot) && Bare(slot);
    assert BareAll([slot]) && ParsableAll([slot]) && KeptAll([slot]) && AllPrint([]);
    assert ProperAll([], reactive, false) && Proper(slot, reactive, false) && ProperAll([slot], reactive, false) && NamesAreFine([]);
    assert Bare(li) && Parsable(li) && Kept(li) && Proper(li, reactive, false);
    assert LostNames([Name(x)]) == {} by { assert BoundNames([Name(x)]) == {x}; }
    assert BareAll([call]) && ParsableAll([call]) && KeptAll([call]) && ProperAll([call], reactive, false);
    var a := Attr("className", StringValue("a"));
    assert Prints(a) && AllPrint([a]) && NamesAreFine([a]);
  }

  lemma UlAndLi()
    ensures IsTagName("ul") && IsTagName("li") && IsBare("ul") && IsBare("li") && IsBare("className") && IsBare("")
    ensures !IsVoid("ul") && !IsVoid("li") && !IsTextElement("ul") && !IsTextElement("li") && !IsComponent("ul") && !IsComponent("li")
    ensures Lower("ul") == "ul" && Lower("li") == "li" && !IsForeign("ul") && !IsForeign("li")
    ensures IsAttrName("class") && HtmlName("className") == "class" && !IsEventHandler("className") && !IsSkipped("className")
    ensures PlaceOf("ul").Flow? && PlaceOf("li").Flow? && !IsRawText("ul") && !IsRawText("li")
  {
    assert Lower("ul") == "ul" && Lower("li") == "li";
  }

  lemma ListIsIntact(I: Interp, whole: Js, list: Js, x: string, e: Js, env: Env)
    ensures Intact(I, ListOf(whole, list, x, e), env)
  {
    hide Value;
    UlAndLi();
    var slot := Container(Plain(e));
    var li := Element("li", [], [slot]);
    var call := Container(MapCall(whole, list, [Name(x)], Some(li)));
    Solo(slot);
    Solo(call);
    forall row ensures Intact(I, li, row) {
      NoQuotesAtAll();
      assert IntactAll(I, [], row) && Intact(I, slot, row);
      assert IntactAll(I, [slot], row);
    }
    var v := Value(I, list, env);
    RowsAreIntact(I, li, [Name(x)], v, I.items(v), 0, env);
    assert Intact(I, call, env) && IntactAll(I, [], env) && IntactAll(I, [call], env);
    var a := Attr("className", StringValue("a"));
    assert NoQuote(a) && NoQuotes([a]);
  }

  lemma NoQuotesAtAll()
    ensures NoQuotes([])
  {
  }

  lemma {:induction false} RowsAreIntact(I: Interp, body: Node, params: seq<Param>, list: Val, items: seq<Val>, i: nat, env: Env)
    requires forall row :: Intact(I, body, row)
    ensures IntactItems(I, body, params, list, items, i, env)
    decreases items
  {
    if items != [] { RowsAreIntact(I, body, params, list, items[1..], i + 1, env); }
  }

  lemma ListDoc(I: Interp, whole: Js, list: Js, x: string, e: Js, reactive: set<string>, env: Env)
    requires !IsReactive(e, reactive)
    ensures Doc(I, ListOf(whole, list, x, e), reactive, Flow, "", env)
         == [Open("ul", [HtmlAttr("class", Some("a"))]), Remark("list")] + Rows(I, x, e, I.items(Value(I, list, env)), env) + [Remark("/list"), Close("ul")]
  {
    hide Value, Tokens, Rows, DocItems, DocExpr, IsVoid, IsTextElement, IsComponent, PlaceOf, HasReferences, TagAttrs;
    UlAndLi();
    var li := Element("li", [], [Container(Plain(e))]);
    var call := Container(MapCall(whole, list, [Name(x)], Some(li)));
    var v := Value(I, list, env);
    var rows := Rows(I, x, e, I.items(v), env);
    Solo(call);
    RowsDoc(I, li, x, e, reactive, v, I.items(v), 0, env);
    assert DocAll(I, [], reactive, Flow, env) == [];
    CallDoc(I, whole, list, [Name(x)], li, reactive, env);
    assert DocAll(I, [call], reactive, Flow, env) == [Remark("list")] + rows + [Remark("/list")] + [];
    ClassOnly(I, env);
    assert Inner(Flow, "ul") == Flow;
  }

  lemma CallDoc(I: Interp, whole: Js, list: Js, params: seq<Param>, body: Node, reactive: set<string>, env: Env)
    ensures var v := Value(I, list, env);
      Doc(I, Container(MapCall(whole, list, params, Some(body))), reactive, Flow, "", env)
      == [Remark("list")] + DocItems(I, body, reactive, Flow, params, v, I.items(v), 0, env) + [Remark("/list")]
  {
    hide Value, DocItems;
    assert "/" + "list" == "/list";
  }

  lemma ClassOnly(I: Interp, env: Env)
    ensures TagAttrs(I, [Attr("className", StringValue("a"))], "", env) == [HtmlAttr("class", Some("a"))]
  {
    hide IsBoolean, IsFlag;
    var a := Attr("className", StringValue("a"));
    UlAndLi();
    OneString(I, "className", "a", env);
  }

  lemma {:induction false} RowsDoc(I: Interp, li: Node, x: string, e: Js, reactive: set<string>, list: Val, items: seq<Val>, i: nat, env: Env)
    requires li == Element("li", [], [Container(Plain(e))]) && !IsReactive(e, reactive)
    ensures DocItems(I, li, reactive, Flow, [Name(x)], list, items, i, env) == Rows(I, x, e, items, env)
    decreases items
  {
    hide Value, Tokens, Doc;
    if items != [] {
      RowsDoc(I, li, x, e, reactive, list, items[1..], i + 1, env);
      assert env + Bindings(I, [Name(x)], items[0], i, list) == env[x := items[0]];
      RowDoc(I, li, e, reactive, env[x := items[0]]);
    }
  }

  lemma RowDoc(I: Interp, li: Node, e: Js, reactive: set<string>, env: Env)
    requires li == Element("li", [], [Container(Plain(e))]) && !IsReactive(e, reactive)
    ensures Doc(I, li, reactive, Flow, "", env) == [Open("li", [])] + Tokens(I.esc(Value(I, e, env))) + [Close("li")]
  {
    hide Value, Tokens;
    UlAndLi();
    var slot := Container(Plain(e));
    Solo(slot);
    assert e.mentions !! reactive by { assert forall n | n in e.mentions :: n !in reactive; }
    assert DocAll(I, [], reactive, Flow, env) == [] && Doc(I, slot, reactive, Flow, "", env) == Tokens(I.esc(Value(I, e, env)));
    assert DocAll(I, [slot], reactive, Flow, env) == Tokens(I.esc(Value(I, e, env))) + [];
    assert TagAttrs(I, [], "", env) == [];
  }
}
