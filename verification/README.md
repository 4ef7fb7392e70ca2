# The Vertz compiler core, modelled and proved

The compiler core of Vertz (`native/vertz-compiler-core`) rewrites TypeScript components into programs that build DOM
nodes or HTML strings. This project models the parts of it whose correctness is not visible in any one function, and
proves what they keep: an edit log that is rendered by a sort and a sweep, a reachability analysis, rewrites of scopes
and of control flow, two code generators, and the text scanners under them. Where a property the code is meant to have
does not hold for every input, the exact condition is proved and a concrete input shows the failure.

`dafny verify dfyconfig.toml` checks everything.

| file | what it models |
|---|---|
| `MagicString.dfy` | the edit log, its two renderers, and how sub-ranges of it compose |
| `Reactivity.dfy` | which variables the JSX reaches, and which depend on something reactive |
| `Js.dfy`, `Props.dfy`, `PropsRuns.dfy`, `PropsMeaning.dfy` | a small JavaScript with closures; destructured props become reads of `__props` |
| `Computed.dfy`, `ComputedRuns.dfy`, `ComputedMeaning.dfy` | constants become lazy computeds |
| `MountFrame.dfy` | return statements flush a mount frame |
| `Ssr.dfy`, `SsrCorrect.dfy`, `SsrMeaning.dfy`, `SsrTier.dfy` | JSX becomes an expression that builds HTML |
| `SsrTokens.dfy`, `SsrHtml.dfy`, `SsrRaw.dfy`, `SsrNames.dfy` | a reader of HTML, and what it reads in what the expression builds |
| `Guards.dfy` | `if (...) return <A/>` chains become one nested ternary |
| `Dom.dfy`, `DomKeys.dfy`, `DomParses.dfy`, `DomRuns.dfy`, `DomMeaning.dfy`, `DomShown.dfy` | JSX becomes a program that builds DOM nodes |
| `Words.dfy` | replacement of whole identifiers, and inlining of several |
| `Comments.dfy` | removal of comments from generated code |
| `JsxText.dfy` | whitespace of JSX text, on the server and on the client |
| `JsString.dfy` | escaping for string literals, and reading them back |
| `Common.dfy` | options, small facts about sequences, the names an expression sees, the visitors' stack of scopes |

Text is `seq<char>`. Generated code is a datatype down to the raw text between the quotes of its literals, which is read
back by section 12.9.4 of ECMA-262; HTML is read after section 13.2.5 of the HTML standard, with scripting enabled. Expressions of the source
that the generators only copy are opaque but for the names and the JSX in them; environments and runtimes that give them
values are universally quantified.

The runtime functions that generated code calls are not in this part of the repository. They are given these meanings:

- `__append(parent, child)` adds the child, which must be a node; a fragment's children are spliced in. `__insert` adds
  what the expression shows, and `__child` makes a node that follows it.
- `__enterChildren(el)` pushes `el` on the children stack, `__exitChildren()` pops it.
- `__conditional(test, yes, no)` shows the value of the thunk that the test selects; `__list` and `__listValue` show the
  values of the render function for each item in order, and call the key function with the item and its place.
- `__pushMountFrame()` pushes a frame and gives the old depth, `__flushMountFrame()` pops the top frame,
  `__discardMountFrame(d)` cuts the stack down to depth `d`.
- `computed(f)` is a thunk that `.value` forces.
- `__esc`, `__esc_attr` and the other printing helpers are uninterpreted; where the HTML is read, what `__esc` and a
  component print is read alike wherever it stands, and `__esc_attr` and the style helper print no double quote.

## Model

| member | source | states |
|---|---|---|
| MagicString.MagicString.constructor | native/vertz-compiler-core/src/magic_string.rs:25-30 | a new log keeps the source text and has no edits |
| MagicString.MagicString.Overwrite | native/vertz-compiler-core/src/magic_string.rs:33-39 | appends one overwrite to the log and changes nothing else; the log stays in bounds |
| MagicString.MagicString.PrependLeft | native/vertz-compiler-core/src/magic_string.rs:42-47 | appends one insertion before its place and changes nothing else; where it is printed says InsertionsArePlaced |
| MagicString.MagicString.AppendRight | native/vertz-compiler-core/src/magic_string.rs:50-55 | appends one insertion after its place and changes nothing else |
| MagicString.MagicString.Prepend | native/vertz-compiler-core/src/magic_string.rs:58-63 | an insertion at 0 |
| MagicString.MagicString.Append | native/vertz-compiler-core/src/magic_string.rs:66-72 | an insertion at the end of the source |
| MagicString.InsertionsArePlaced | native/vertz-compiler-core/src/magic_string.rs:266-335 | a new insertion before a position is printed behind the earlier ones before it and in front of all those after it and of the overwrites that start there, one after the position behind all other insertions and in front of the overwrites; neither where an overwrite covers the position from both sides; no other position changes |
| MagicString.BeforesGoFirst | native/vertz-compiler-core/src/magic_string.rs:266-286 | `append_right(0, a)` and then `prepend_left(0, b)` print `ba` |
| MagicString.SortEvents | native/vertz-compiler-core/src/magic_string.rs:266-288 | the sorted events are the same events, ordered by position, then kind, then log index |
| MagicString.SortedIsUnique | native/vertz-compiler-core/src/magic_string.rs:266-288 | two sorted lists of the same events are equal, so the result does not depend on how the sort is done |
| MagicString.SweepPrints | native/vertz-compiler-core/src/magic_string.rs:288-335 | the cursor sweep over the sorted edits prints the position-by-position specification, for overlapping edits too: a character survives iff no overwrite covers it, an insertion iff none starts before and ends after its place, an overwrite's text iff no overwrite earlier in start and log order ends past its start |
| MagicString.MagicString.Sweep | native/vertz-compiler-core/src/magic_string.rs:288-335 | the loop over the events computes the fold that SweepPrints is about |
| MagicString.MagicString.Render | native/vertz-compiler-core/src/magic_string.rs:220-335 | the rendering of a log equals the specification, for every log in bounds |
| MagicString.MagicString.GetTransformedSlice | native/vertz-compiler-core/src/magic_string.rs:90-217 | the rendering of a sub-range equals the specification restricted to the edits that touch it |
| MagicString.SliceIsRange | native/vertz-compiler-core/src/magic_string.rs:90-217 | a sub-range prints each of its positions as the whole log does, and at its end only the insertions, exactly if no empty overwrite prints at its start |
| MagicString.SlicesCompose | native/vertz-compiler-core/src/magic_string.rs:90-217 | two neighbouring sub-ranges concatenate to the sub-range over both exactly when what is inserted at the seam is what empty overwrites print there: with none, exactly when nothing is inserted; for every log in bounds, even where an overwrite straddles the seam |
| MagicString.WholeSliceIsRendering | native/vertz-compiler-core/src/magic_string.rs:90-335 | the sub-range over the whole file is the full rendering exactly if no empty overwrite prints at either end |
| MagicString.EmptyOverwriteIsLost | native/vertz-compiler-core/src/magic_string.rs:98-115 | an empty overwrite at the border: the sub-range misses it, the full rendering prints it |
| MagicString.OverwrittenSliceIsEmpty | native/vertz-compiler-core/src/magic_string.rs:90-217 | what is read strictly inside an overwritten range is empty, whatever else the log holds: so the text of JSX that has been replaced is lost to whoever reads parts of it later |
| MagicString.MagicString.SliceWithNodes | native/vertz-compiler-core/src/jsx_transformer.rs:1602-1639 | the stitching loop gives the gaps and the nodes' code in order |
| MagicString.StitchingRebuilds | native/vertz-compiler-core/src/jsx_transformer.rs:1602-1639 | where each node's code is what its own sub-range would print and nothing is inserted at a node border but what empty overwrites print there, stitching gives back the sub-range |
| Reactivity.ExpandReachable | native/vertz-compiler-core/src/reactivity_analyzer.rs:586-612 | the fixed-point loop terminates with exactly the names reachable from the JSX references through const dependencies, whatever order the map is walked in |
| Reactivity.ExpandOnce | native/vertz-compiler-core/src/reactivity_analyzer.rs:597-612 | one round adds only reachable names, and reports no growth only when the set is closed |
| Reactivity.ReachableIsLeast | native/vertz-compiler-core/src/reactivity_analyzer.rs:586-612 | reachability is the least set that holds the references and is closed under dependencies |
| Reactivity.DependsOnReactive | native/vertz-compiler-core/src/reactivity_analyzer.rs:687-703 | the search answers true exactly if some path through variables that are no function, no structure and no signal api leads to one with a direct reactive dependency, although its one visited set answers false on cycles |
| Reactivity.DependsOnReactiveInner | native/vertz-compiler-core/src/reactivity_analyzer.rs:705-769 | a false answer leaves every name it visited settled: all its ways on lead to visited names; a true answer has a path |
| Reactivity.SettledHasNoPath | native/vertz-compiler-core/src/reactivity_analyzer.rs:705-769 | from a settled set of names no path leads to a reactive dependency |
| Reactivity.ClassifyVariables | native/vertz-compiler-core/src/reactivity_analyzer.rs:579-685 | every variable gets the kind that plain graph reachability gives it |
| Reactivity.KindIsDecidedByPaths | native/vertz-compiler-core/src/reactivity_analyzer.rs:579-769 | a variable is a signal exactly if it is destructured as one or is a let that a path of consts connects with the JSX, and computed exactly if it is a plain const from which a path leads to a variable that mentions a prop, a connected let, a reactive source or a signal property |
| Reactivity.ClassificationIsMonotone | native/vertz-compiler-core/src/reactivity_analyzer.rs:579-685 | more JSX references never make a signal or a computed static |
| Reactivity.ReachedReferencesChangeNothing | native/vertz-compiler-core/src/reactivity_analyzer.rs:586-685 | references to what the JSX reaches already change no variable's kind |
| Reactivity.ComputedSpreads | native/vertz-compiler-core/src/reactivity_analyzer.rs:641-769 | a plain const that depends on a computed is computed |
| Props.CollectBlockVarNames | native/vertz-compiler-core/src/props_transformer.rs:413-423 | the loop adds exactly the names declared directly in the body |
| Props.Replacer.VisitExpression | native/vertz-compiler-core/src/props_transformer.rs:309-410 | the visitor with its stack of shadows replaces what the recursive definition says and leaves the stack as it was |
| Props.Replacer.VisitObjectProperty | native/vertz-compiler-core/src/props_transformer.rs:325-346 | a shorthand property that names an unshadowed prop is expanded |
| Props.Replacer.VisitStatement | native/vertz-compiler-core/src/props_transformer.rs:348-374 | a declaration of a prop's name shadows it in its own initializer only |
| PropsMeaning.CaptureAvoidingIffUncaught | native/vertz-compiler-core/src/props_transformer.rs:348-423 | the replacement is the one that respects every scope exactly when no use of a prop's name, unshadowed by the functions around it, lies in an inner block that declares the name |
| PropsMeaning.RewritePreservesMeaning | native/vertz-compiler-core/src/props_transformer.rs:35-103 | for such a body whose rewritten text is read as it (see RewriteParsesIff) and that uses none of the lost names, with `__props` unused, closed default values and no null prop with a default, whoever uses what the component returns, reading its properties and calling the functions in it as often as he likes, sees what he saw before, and the host functions are called in the same way: through nested closures, temporal dead zones, shorthand properties, defaults and the rest object; for function bodies and for arrow functions with an expression |
| PropsMeaning.Transform | native/vertz-compiler-core/src/props_transformer.rs:41-62 | a component is rewritten exactly if its pattern has a rest or an entry with an identifier for a key |
| PropsMeaning.CardIsPreserved | native/vertz-compiler-core/src/props_transformer.rs:35-103 | `function Card({ title = "x", body }) { const t = title; return { t, body }; }`: the rewritten text, and that it is seen as before by whoever gives no null for the title |
| PropsRuns.EvalCorresponds | native/vertz-compiler-core/src/props_transformer.rs:283-423 | the step of the proof: in corresponding environments and stores an expression and its replacement give corresponding values, closures included |
| PropsMeaning.DefaultsDifferOnNull | native/vertz-compiler-core/src/props_transformer.rs:300-306 | one read of a prop with a default gives what destructuring gave exactly when the prop is not null: `??` replaces null, a default in a pattern does not |
| PropsMeaning.RewriteParsesIff | native/vertz-compiler-core/src/props_transformer.rs:79-102 | the rewritten text is read as the component exactly if no default that needs parentheses behind `??` comes to the place of a use, and a rest element stands before a body of statements and beside an entry with an identifier for a key, or before a body of JSX alone |
| PropsMeaning.RestOfAnArrowIsUnbound | native/vertz-compiler-core/src/props_transformer.rs:79-102 | `({ label, ...rest }) => <button {...rest}>{label}</button>`: the statement that declares the rest is inserted in JSX that is replaced later; the source reads the rest, the rewritten component throws |
| PropsMeaning.FunctionDefaultDoesNotParse | native/vertz-compiler-core/src/props_transformer.rs:300-306 | `({ f = () => 1 })` with f used gives `(__props.f ?? () => 1)`, which is no expression |
| PropsMeaning.QuotedBindingIsUnbound | native/vertz-compiler-core/src/props_transformer.rs:205-210 | an entry with a quoted key beside one without loses its binding: the source returns its value, the rewritten component throws |
| PropsMeaning.LostNamesShow | native/vertz-compiler-core/src/props_transformer.rs:79-102 | a component that returns a name shows what it shows in the source exactly if the name is not lost: the binding of an entry with a quoted key, and the rest where it keeps a property that such an entry takes or where the body is JSX alone |
| PropsMeaning.RestKeepsTaken | native/vertz-compiler-core/src/props_transformer.rs:79-102 | the rest keeps too much exactly if a property is there that only entries with a quoted key take |
| PropsMeaning.BlockShadowIsReplaced | native/vertz-compiler-core/src/props_transformer.rs:348-374 | a constant in an inner block with a prop's name is read as the prop |
| PropsMeaning.BlockShadowChangesMeaning | native/vertz-compiler-core/src/props_transformer.rs:348-374 | the same component, run: 1 before, the prop's 2 after |
| Computed.ReadTransformer.VisitExpression | native/vertz-compiler-core/src/computed_transformer.rs:64-131 | the read visitor with its stack of parameters marks what the recursive definition says and leaves the stack as it was |
| Computed.ReadTransformer.VisitObjectProperty | native/vertz-compiler-core/src/computed_transformer.rs:96-116 | a shorthand property with a computed's name is expanded, shadowed or not |
| ComputedMeaning.TransformFollowsScopes | native/vertz-compiler-core/src/computed_transformer.rs:12-163 | the two passes together make the rewrite that forces exactly the reads of the constants that the second pass wraps, exactly when they misjudge no use of a name: a shorthand under a parameter, a constant under a parameter, a let, a constant declared inside an initializer, any read in a component that is assigned to a const |
| ComputedMeaning.ConstsBecomeLazy | native/vertz-compiler-core/src/computed_transformer.rs:133-163 | the transform keeps the declarations in order, and makes lazy exactly the consts with a computed's name, whatever they are set to: those of a component that is a function declaration, and those of functions outside of initializers |
| ComputedMeaning.ComputedsPreserveMeaning | native/vertz-compiler-core/src/computed_transformer.rs:12-163 | whatever set of names is computed, whatever is seen of the result of the source, by reading its properties and calling the functions in it, is seen of the result of the transformed component, provided no name is misjudged |
| ComputedMeaning.UnshadowedComputedsPreserveMeaning | native/vertz-compiler-core/src/computed_transformer.rs:12-163 | in particular for a function declaration that declares every computed, where no parameter, no let and no constant inside an initializer has a computed's name: chains of computeds of any depth, closures, shorthand properties |
| ComputedMeaning.ChainIsPreserved | native/vertz-compiler-core/src/computed_transformer.rs:12-163 | `const a = n; const b = a; return { a, b };` with both computed becomes `computed(() => n)`, `computed(() => a.value)` and `{ a: a.value, b: b.value }`, and what is seen of it stays |
| ComputedMeaning.AssignedIsKeptIffUnmarked | native/vertz-compiler-core/src/computed_transformer.rs:142-163 | of a component that is assigned to a const nothing is wrapped, and it comes out as it was exactly when it has no read that the first pass marks |
| ComputedMeaning.AssignedComponentIsBroken | native/vertz-compiler-core/src/computed_transformer.rs:142-163 | `const C = () => { const t = 1; return t; }` with t computed returns 1 before and undefined after |
| ComputedMeaning.InnerConstIsBroken | native/vertz-compiler-core/src/computed_transformer.rs:142-163 | a function in an initializer that declares a constant with a computed's name returns 2 before and undefined after |
| ComputedRuns.EvalFollows | native/vertz-compiler-core/src/computed_transformer.rs:64-131 | the step of the proof: what the source evaluates to, the rewritten expression evaluates to with some fuel, forcing computeds on the way |
| ComputedRuns.MoreFuel | native/vertz-compiler-core/src/computed_transformer.rs:64-131 | a result reached with some fuel is reached with any more |
| ComputedMeaning.ShorthandUnderParameter | native/vertz-compiler-core/src/computed_transformer.rs:96-116 | `(t) => ({ t })` under a computed `t` gives the parameter before and its `.value` after |
| MountFrame.ReturnCollector.VisitStatement | native/vertz-compiler-core/src/mount_frame_transformer.rs:170-194 | the collector records every direct return in order, with its flag true exactly in single-statement position, and restores its state |
| MountFrame.ReturnCollector.VisitBranch | native/vertz-compiler-core/src/mount_frame_transformer.rs:195-222 | a branch of an if sets the flag for a lone statement, an else-if chain included, and clears it for a block |
| MountFrame.RewriteParses | native/vertz-compiler-core/src/mount_frame_transformer.rs:60-84 | with those flags every edited statement is one statement wherever one is demanded: the output parses |
| MountFrame.RewriteMatches | native/vertz-compiler-core/src/mount_frame_transformer.rs:60-84 | running an edited statement inside the frame does what the statement did, and pops the frame exactly on return |
| MountFrame.WrappedBodyIsFaithful | native/vertz-compiler-core/src/mount_frame_transformer.rs:24-89 | the wrapped body returns or throws the same value with the same effects as the body, and every run that returns or throws leaves the frame stack as it was; a run that falls off the end leaves the frame |
| MountFrame.TransformMountFrame | native/vertz-compiler-core/src/mount_frame_transformer.rs:24-89 | the transform leaves a body without a return alone and otherwise produces the edited body the theorem is about |
| MountFrame.WrappedArrowIsFaithful | native/vertz-compiler-core/src/mount_frame_transformer.rs:224-243 | the same for an arrow function with an expression for a body |
| MountFrame.UnsetFlagBreaks | native/vertz-compiler-core/src/mount_frame_transformer.rs:64-80 | without the flag on a braceless branch the edited text is no statement or runs the return of the wrong path |
| MountFrame.RewriteIsScoped | native/vertz-compiler-core/src/mount_frame_transformer.rs:60-84 | no scope of the edited body declares a result constant twice |
| Ssr.AttrsToPieces | native/vertz-compiler-core/src/aot_string_transformer.rs:793-825 | the attribute loop writes the plain attributes in order, then the boolean ones with an expression in order |
| SsrCorrect.EmitReadable | native/vertz-compiler-core/src/aot_string_transformer.rs:405-789 | the emitted text is read as the expression exactly if no string attribute that is written holds a carriage return, no boolean attribute has a conditional, an assignment or a function for its value, and every component that is called has a name, and names for the keys of its properties |
| SsrCorrect.LooseFlagDoesNotParse | native/vertz-compiler-core/src/aot_string_transformer.rs:856-859 | `<input disabled={a ? b : c}/>`: the value comes without parentheses into the test of a conditional, and is read as another expression |
| SsrCorrect.DataPropertyDoesNotParse | native/vertz-compiler-core/src/aot_string_transformer.rs:497-516 | `<Card data-id="x"/>` becomes a call with an unquoted key data-id, which does not parse |
| SsrMeaning.GeneratedExpressionIsFaithful | native/vertz-compiler-core/src/aot_string_transformer.rs:405-789 | if it parses, then in every environment and with every runtime the emitted expression evaluates to the text that is put together from the tree with its conditional, list and child markers: elements, fragments, void and raw-text tags, components, ternaries, && and map, nested at will; how that text is read is the matter of SsrHtml |
| SsrMeaning.EmitEvaluates | native/vertz-compiler-core/src/aot_string_transformer.rs:405-478 | the step of that proof for one node, inside raw text or not; the empty parts that are dropped render nothing |
| SsrMeaning.EmitBranchEvaluates | native/vertz-compiler-core/src/aot_string_transformer.rs:747-789 | the branches of conditionals render JSX, nested conditionals and plain values |
| SsrMeaning.AttrPiecesEvaluate | native/vertz-compiler-core/src/aot_string_transformer.rs:793-866 | the pieces of an opening tag evaluate to the written attributes, boolean ones with an expression last |
| SsrMeaning.WrittenLast | native/vertz-compiler-core/src/aot_string_transformer.rs:793-825 | writing the boolean attributes last keeps the attributes and the first under each name, if no other attribute has the name of one of them |
| SsrTokens.WrittenAttrsRead | native/vertz-compiler-core/src/aot_string_transformer.rs:793-866 | a tag's attributes are read back as they were written exactly if no value holds a double quote |
| SsrTokens.RawElementReads | native/vertz-compiler-core/src/aot_string_transformer.rs:405-444 | a text element (style, script, title, textarea and the others the HTML standard has) is read as its tag and the characters of its text exactly if no value holds a double quote and nothing in the text ends the element |
| SsrHtml.HtmlIsRead | native/vertz-compiler-core/src/aot_string_transformer.rs:405-789 | the text of a node, whatever follows it, is read as the tree if nothing breaks out of its attributes and its text elements, and else never |
| SsrHtml.GeneratedHtmlIsFaithful | native/vertz-compiler-core/src/aot_string_transformer.rs:405-789 | the emitted text is read as the expression exactly under the condition of EmitReadable, and where text elements hold what fits in them (see SsrRaw) what the tokenizer of a browser reads in its value is the tree (tags with their attributes, comments, characters, the text of text elements), exactly if in what is rendered no string attribute holds a double quote and nothing in a text element ends it |
| SsrHtml.QuoteMakesTwoAttributes | native/vertz-compiler-core/src/aot_string_transformer.rs:1600-1605 | a double quote in a string attribute ends its value and the rest is read as attributes: `<p title='a" b="'/>` gives a tag with two |
| SsrHtml.BrowserFinds | native/vertz-compiler-core/src/aot_string_transformer.rs:793-825 | what a browser finds under a name in the tag that is written is the first that the source has under it, if no other attribute has the name of a boolean one with an expression |
| SsrNames.AttributesAreFound | native/vertz-compiler-core/src/aot_string_transformer.rs:793-866 | what a browser finds under a name in a tag is the value of the first attribute of the source that stands for the name: className for class, htmlFor for for, any other for its own, the boolean attributes of the HTML standard without a value while their expression holds; handlers, key, ref and dangerouslySetInnerHTML are not in the page, nor are the names className and htmlFor |
| SsrNames.ClassAndForAreRead | native/vertz-compiler-core/src/aot_string_transformer.rs:837-841 | `<label className="v" htmlFor="w">` is read as a tag with class v and for w |
| SsrNames.EmptyElementIsRead | native/vertz-compiler-core/src/aot_string_transformer.rs:54-76 | an element without children whose name begins with a small letter is read as its tag, and its end tag unless it is one of the void elements |
| SsrNames.CapitalIsACall | native/vertz-compiler-core/src/aot_string_transformer.rs:480-540 | one whose name begins with a capital letter is a call of the component |
| SsrNames.HyphenatedIsNoCall | native/vertz-compiler-core/src/aot_string_transformer.rs:539-539 | `<My-card/>` and `<my:Card/>` are not read as calls |
| SsrNames.PropertyNames | native/vertz-compiler-core/src/aot_string_transformer.rs:497-516 | a property of a component is read exactly if its name is an identifier |
| SsrNames.ListIsRead | native/vertz-compiler-core/src/aot_string_transformer.rs:665-745 | `<ul className="a">{items.map(x => <li>{e}</li>)}</ul>` is read as the tag, the list marks, and a row with the value of e for each item |
| SsrRaw.TextIsRightIffItFits | native/vertz-compiler-core/src/aot_string_transformer.rs:591-745 | in a text element, where comments and tags are text, what is written is read as it is meant with every runtime whose values do not end it, exactly if its content fits: texts and plain expressions in style and script, texts and expressions that are not marked as reactive in title and textarea, texts alone in the others (iframe, noembed, noframes, noscript, xmp), and nowhere a conditional, a rendered list or an element |
| SsrRaw.MarksAreShownInATitle | native/vertz-compiler-core/src/aot_string_transformer.rs:619-634 | `<title>{n}</title>` with n reactive: the title that is read has the marks `<!--child-->` and `<!--/child-->` among its characters |
| SsrMeaning.LostNamesShow | native/vertz-compiler-core/src/aot_string_transformer.rs:665-745 | a map callback keeps only a plain first parameter: for a callback that renders one expression the output is right in every environment exactly when the expression uses none of the other names |
| SsrMeaning.HtmlAgrees | native/vertz-compiler-core/src/aot_string_transformer.rs:665-745 | the HTML of a tree depends on an environment only through the names its expressions use |
| SsrTier.StaticTierIsConstant | native/vertz-compiler-core/src/aot_string_transformer.rs:901-990 | a tree that the classifier calls static and that calls no component has one value in every environment and with every runtime, though classifying and emitting recurse separately |
| SsrTier.TierIsDecided | native/vertz-compiler-core/src/aot_string_transformer.rs:901-990 | a tree is conditional exactly if a conditional, a list, or an `\|\|` or `??` stands among the children at some depth, and static exactly if it is not, has no braces at any depth, and nothing in the component is reactive |
| SsrTier.HolesAreCalled | native/vertz-compiler-core/src/aot_string_transformer.rs:480-540 | the components that are collected are those that the emitted expression calls, but for the calls in the properties of others |
| Guards.AnalyzeGuardPattern | native/vertz-compiler-core/src/aot_string_transformer.rs:1174-1228 | guards are recognised exactly if all returns of JSX but the last stand in a top-level if |
| Guards.GuardPatternToTernary | native/vertz-compiler-core/src/aot_string_transformer.rs:1264-1286 | the backward fold makes a ternary that picks the first guard that holds |
| Guards.FoldIsFaithfulIffFoldable | native/vertz-compiler-core/src/aot_string_transformer.rs:1174-1286 | the ternary renders what running the body returns, whatever the conditions, if every top-level if returns JSX surely in each branch that returns at all; with independent conditions and distinct JSX only then |
| Guards.SingleReturnIsFaithfulIffFoldable | native/vertz-compiler-core/src/aot_string_transformer.rs:189-262 | a body with one return of JSX is rendered from it unasked, which is right for the same bodies |
| Guards.FoldableIsRight | native/vertz-compiler-core/src/aot_string_transformer.rs:1174-1286 | for a foldable body running it returns the JSX the output shows |
| Guards.UnfoldableIsWrong | native/vertz-compiler-core/src/aot_string_transformer.rs:1174-1286 | for any other with independent conditions there are conditions under which it does not |
| Guards.ElseIfLosesItsCondition | native/vertz-compiler-core/src/aot_string_transformer.rs:1230-1262 | an else-if renders its JSX although neither condition holds |
| Guards.NullGuardIsIgnored | native/vertz-compiler-core/src/aot_string_transformer.rs:994-1070 | a guard that returns no JSX is not seen |
| Dom.Generator.GenVar | native/vertz-compiler-core/src/jsx_transformer.rs:1943-1947 | gives the counter and advances it |
| Dom.Generator.TransformElement | native/vertz-compiler-core/src/jsx_transformer.rs:883-935 | the loops over attributes and children produce the defined code and advance the counter by the variables taken |
| Dom.Generator.TransformFragment | native/vertz-compiler-core/src/jsx_transformer.rs:1140-1170 | the same for a fragment |
| Dom.Generator.TransformComponent | native/vertz-compiler-core/src/jsx_transformer.rs:937-1020 | the same for the call of a component with its props, and the JSX in their values from the same counter |
| Dom.Generator.SliceWithTransformedJsx | native/vertz-compiler-core/src/jsx_transformer.rs:1602-1639 | the JSX in the value of a property, each with its code, in the order of the text |
| Dom.Generator.BuildChildrenThunk | native/vertz-compiler-core/src/jsx_transformer.rs:1022-1044 | the children of a component are values in order, absent ones left out |
| Dom.Generator.TransformChild | native/vertz-compiler-core/src/jsx_transformer.rs:1325-1434 | a child becomes the defined statement, a list with its key function, an absent one none, and takes its variables from the counter |
| Dom.Generator.BuildKeyFn | native/vertz-compiler-core/src/jsx_transformer.rs:1892-1908 | the key of the first attribute of that name with an expression becomes a function of the item, and of the index if the key's text refers to it |
| DomKeys.KeyReferencesIndex | native/vertz-compiler-core/src/jsx_transformer.rs:1910-1938 | the search finds an occurrence of the name that is no part of a longer name and no property, exactly if there is one |
| DomKeys.ReferencesIffRoot | native/vertz-compiler-core/src/jsx_transformer.rs:870-938 | of a key that is a name or names joined by dots the search finds the index exactly if the key begins with it |
| DomKeys.TextIsTheNames | native/vertz-compiler-core/src/jsx_transformer.rs:870-880 | the printed key is all names of the expression, joined by dots |
| Dom.Generator.TransformBranch | native/vertz-compiler-core/src/jsx_transformer.rs:1506-1539 | a branch with a conditional anywhere inside it becomes that conditional; any other is copied |
| Dom.Generator.TransformBody | native/vertz-compiler-core/src/jsx_transformer.rs:1366-1404 | of a map callback the first JSX in it is all that is rendered, unless a statement of it is a const with a plain name and a value: then the text around that JSX stays |
| DomMeaning.ProgramBuildsTheTree | native/vertz-compiler-core/src/jsx_transformer.rs:883-1560 | the emitted program runs exactly if the tree compiles, and then without an error in any scope that leaves its variables free; it leaves the children stack as it found it, and makes every part while the element that encloses it is on top. If no map callback uses a name that the emitted one loses (a parameter but its first, and what it declares where its text is dropped; in its key whatever it declares), the tree it builds is the one that was written (`className` as `class`, fragments spliced, text cleaned, one row with its key for each item, live where a reactive expression or a property that is no literal stands), exactly when no branch taken and no callback called has its conditional or its JSX buried in a larger expression, no key has been rewritten, no attribute has JSX without braces, and no expression shown has lost its text |
| DomShown.TreeWithoutListsIsBuilt | native/vertz-compiler-core/src/jsx_transformer.rs:883-1560 | the same for trees without lists, where nothing can be lost |
| DomShown.TextsAreShown | native/vertz-compiler-core/src/jsx_transformer.rs:626-660 | a tree of elements, components, fragments and texts shows its texts, cleaned and in order, without those of which cleaning leaves nothing; no visible letter is lost |
| DomShown.TextIsShown | native/vertz-compiler-core/src/jsx_transformer.rs:1334-1338 | `<p>Hello</p>` shows a p with the text, and `<P>Hello</P>` passes it on |
| DomShown.ClassIsSetAndClickIsHeard | native/vertz-compiler-core/src/jsx_transformer.rs:1199-1229 | `className` sets class, and `onClick` listens to click |
| DomShown.PropertyIsLive | native/vertz-compiler-core/src/jsx_transformer.rs:966-979 | the value of a component's property is computed anew at each use exactly if it is no literal |
| DomShown.ExpressionIsLive | native/vertz-compiler-core/src/jsx_transformer.rs:1410-1425 | an expression between braces follows what it depends on exactly if it is reactive and no literal |
| DomShown.EntersIffThereIsAChild | native/vertz-compiler-core/src/jsx_transformer.rs:910-924 | the children stack is entered exactly if some child is neither empty braces nor a text of which nothing is left |
| DomShown.ListTakesTheFirstKey | native/vertz-compiler-core/src/jsx_transformer.rs:848-868 | the first attribute named key with an expression is the key, in the program and in the rows that were written, and without one there is none |
| DomParses.CompilesIffParses | native/vertz-compiler-core/src/jsx_transformer.rs:195-323 | the emitted text is JavaScript and is read as the program exactly if no JSX is left in an expression that is copied (what such an expression holds is in callbacks that no call of map encloses, in an attribute or in braces of a root; in the properties of a component all JSX is generated), no expression is missing where one must stand, none that follows an arrow begins with a brace, the keys of lists are names or names joined by dots, references can be assigned to, and components have names |
| DomMeaning.LeftJsxIsNoJavaScript | native/vertz-compiler-core/src/jsx_transformer.rs:1325-1434 | `{ok ? items.map(x => <li/>) : null}`, `{items.map(({id}) => <li>{id}</li>)}` and `{x \|\| <A/>}` leave JSX in the output |
| DomMeaning.NestedCallbackIsLeft | native/vertz-compiler-core/src/jsx_transformer.rs:286-304 | `<div>{Array.from(rows, () => <span/>)}</div>` is JavaScript, the same one element further in is not |
| DomShown.CallbackFurtherInIsLeft | native/vertz-compiler-core/src/jsx_transformer.rs:286-304 | a callback's JSX is left in the output where the callback stands in an element, fragment or component inside the root, in JSX of a branch or of a list, or in JSX of a property; directly in a root it is generated, see CallbackOfARootIsEntered |
| DomShown.CallbackOfARootIsEntered | native/vertz-compiler-core/src/jsx_transformer.rs:225-284 | directly in the braces of an element, a fragment or a component that is a root it is generated |
| DomShown.BranchInACallbackIsBlank | native/vertz-compiler-core/src/jsx_transformer.rs:1506-1539 | `{ok && wrap(() => a ? <b>{t}</b> : null)}`: the branch shows nothing in its element |
| DomShown.TestInACallbackIsLost | native/vertz-compiler-core/src/jsx_transformer.rs:1506-1539 | with other JSX around the conditional in the callback the output is no JavaScript; in JSX outside of a callback it is |
| DomMeaning.CallbackOfAPropertyIsBlank | native/vertz-compiler-core/src/jsx_transformer.rs:960-986 | `<Layout header={() => <h1>{title}</h1>}/>` as a root: the heading has been replaced by its own program when it is read for the property, and shows nothing in it |
| DomMeaning.BlankAttributeIsNoJavaScript | native/vertz-compiler-core/src/jsx_transformer.rs:1250-1287 | and if the heading has an attribute with an expression other than a listener, the output is no JavaScript |
| DomRuns.EmitRuns | native/vertz-compiler-core/src/jsx_transformer.rs:883-1560 | the step of the proof: the value of a node's code, with the identity of each element and the top of the stack at each point |
| DomRuns.ChildrenRun | native/vertz-compiler-core/src/jsx_transformer.rs:910-924 | the statements for a list of children add exactly their parts to the parent and change no other variable |
| DomRuns.SettingMeans | native/vertz-compiler-core/src/jsx_transformer.rs:1172-1323 | each attribute statement sets what the attribute asks for, its quoted names and values read back |
| DomMeaning.EachVariableOnce | native/vertz-compiler-core/src/jsx_transformer.rs:1943-1947 | the declarations in the emitted text, those in the properties of components among them, are numbered consecutively from the counter: every generated variable is declared once |
| DomMeaning.BuriedConditionalIsUnwrapped | native/vertz-compiler-core/src/jsx_transformer.rs:1521-1538 | `ok && String(a ? x : y)` shows x without the call around it |
| DomMeaning.BuriedJsxIsUnwrapped | native/vertz-compiler-core/src/jsx_transformer.rs:1378-1404 | `items.map(x => c ? <a/> : <b/>)` shows `<a/>` in every row |
| DomMeaning.IndexIsLost | native/vertz-compiler-core/src/jsx_transformer.rs:1399-1404 | `items.map((x, i) => i)`: the emitted callback does not bind i |
| DomMeaning.LostNamesShow | native/vertz-compiler-core/src/jsx_transformer.rs:1366-1404 | for a callback that renders one expression, bare, in an element, or in an element behind declarations, the rows are right in every world exactly if the expression uses no lost name: a parameter but the first, a declared name where the declarations are dropped, or one whose kept declarations use such a parameter |
| DomMeaning.DestructuredNameIsLost | native/vertz-compiler-core/src/jsx_transformer.rs:752-768 | `items.map(item => { const { name } = item; return <li>{name}</li>; })`: the emitted callback has no declaration of name |
| DomMeaning.KeyWithoutTextIsNoJavaScript | native/vertz-compiler-core/src/jsx_transformer.rs:870-880 | a list whose key is no name and no names joined by dots, such as a template literal, a number or a call, leaves a key function without a body, in braces and in an element |
| DomMeaning.LostKeyShows | native/vertz-compiler-core/src/jsx_transformer.rs:1892-1908 | for rows with such a key behind declarations: they have the keys that were written in every world exactly if nothing in the key has been rewritten by an earlier pass and the name it begins with is the item, the index as a plain second parameter, or none that the callback binds |
| DomMeaning.BraceOpensABlock | native/vertz-compiler-core/src/jsx_transformer.rs:1022-1044 | `<Card>{{a: 1, b: 2}}</Card>`: an only child without JSX is read as it is meant exactly if it does not begin with a brace, which opens a block behind the arrow |
| DomMeaning.HyphenatedIsNoCall | native/vertz-compiler-core/src/jsx_transformer.rs:1013-1019 | `<A/>` is read as a call exactly if its name has no colon and no hyphen |
| DomMeaning.ReferenceNeedsATarget | native/vertz-compiler-core/src/jsx_transformer.rs:1215-1218 | `ref={el => keep(el)}` becomes an assignment in the body of the function; names, properties, calls and the like can be assigned to |
| DomMeaning.MarkupValueIsDropped | native/vertz-compiler-core/src/jsx_transformer.rs:577-579 | `<Card icon=<b/>/>` calls the component without its icon |
| DomMeaning.MeantAgrees | native/vertz-compiler-core/src/jsx_transformer.rs:1325-1434 | a tree depends on what callbacks bind only through the names its expressions use |
| Words.WordBoundaryReplace | native/vertz-compiler-core/src/jsx_transformer.rs:1852-1890 | the scanner replaces exactly the maximal runs of identifier characters that equal the pattern, although it skips a whole match after a rejected hit |
| Words.ReplaceWithBoundary | native/vertz-compiler-core/src/mutation_transformer.rs:43-67 | the scanner replaces exactly the occurrences of the name with its suffix that no identifier character of the full text precedes, although it only sees the remaining text |
| Words.ReplacedIsSubstituted | native/vertz-compiler-core/src/jsx_transformer.rs:1852-1890 | replacing at boundaries, character by character, is substituting whole words |
| Words.ApplyInlineSubs | native/vertz-compiler-core/src/jsx_transformer.rs:1840-1849 | the loop over the map applies the replacements one after another in some order of its keys |
| Words.InliningIsSimultaneous | native/vertz-compiler-core/src/jsx_transformer.rs:1840-1890 | for words as names: every order gives the same text for every input, and it is the simultaneous substitution, exactly when no replacement has another inlined name as a whole word |
| Words.OrderShows | native/vertz-compiler-core/src/jsx_transformer.rs:1840-1849 | where one replacement uses another name, two orders give two texts |
| Comments.StripComments | native/vertz-compiler-core/src/import_injection.rs:162-214 | the scan terminates and keeps exactly what the lexer does not call a comment |
| Comments.CopyLiteral | native/vertz-compiler-core/src/import_injection.rs:189-207 | a literal is copied with its escapes, to its quote or to the end of the text |
| Comments.SkipBlock | native/vertz-compiler-core/src/import_injection.rs:176-186 | the block skip ends behind the closer, or one character before the end of the text |
| Comments.StripIsSubsequence | native/vertz-compiler-core/src/import_injection.rs:162-214 | the output is a subsequence of the input |
| Comments.LexPrints | native/vertz-compiler-core/src/import_injection.rs:162-214 | the lexer's tokens print the text they were read from |
| Comments.StripKeepsTokens | native/vertz-compiler-core/src/import_injection.rs:162-214 | lexing the output gives the input's tokens without the comments: no new comment opener, no moved string boundary |
| Comments.StripIsIdempotent | native/vertz-compiler-core/src/import_injection.rs:162-214 | stripping twice is stripping once, for every text, unterminated literals and comments included |
| Comments.StripFixesExactlyCommentFree | native/vertz-compiler-core/src/import_injection.rs:162-214 | stripping changes nothing exactly if the text has no comment |
| Comments.UnclosedBlockKeepsItsLast | native/vertz-compiler-core/src/import_injection.rs:176-186 | the last character of a block comment that is never closed stays in the output |
| JsxText.CleanOnServer | native/vertz-compiler-core/src/aot_string_transformer.rs:1569-1591 | the server's loop computes its specification |
| JsxText.CleanOnClient | native/vertz-compiler-core/src/jsx_transformer.rs:1987-2011 | the client's loop computes its specification |
| JsxText.LineIsTrimmed | native/vertz-compiler-core/src/jsx_transformer.rs:1997-2005 | a cleaned line is the line without the white space at its edges, but for the edges of the whole text, and with a space for each tab |
| JsxText.LinesAreTheText | native/vertz-compiler-core/src/jsx_transformer.rs:1994-1994 | the lines put together are the text, and none has a line feed |
| JsxText.ServerAndClientAgree | native/vertz-compiler-core/src/aot_string_transformer.rs:1569-1591 | the two versions clean alike every text in which each carriage return is followed by a line feed |
| JsxText.LoneReturnDiffers | native/vertz-compiler-core/src/jsx_transformer.rs:1987-2011 | a lone carriage return is a line break for the client only |
| JsxText.CleaningKeepsVisibleText | native/vertz-compiler-core/src/jsx_transformer.rs:1987-2011 | neither version drops, adds or reorders a character that is not white space |
| JsxText.ClientCleanIsIdempotent | native/vertz-compiler-core/src/jsx_transformer.rs:1987-2011 | cleaning twice on the client is cleaning once |
| JsxText.ServerCleanIsIdempotent | native/vertz-compiler-core/src/aot_string_transformer.rs:1569-1591 | and on the server |
| JsString.EscapeStringLiteralIsMap | native/vertz-compiler-core/src/aot_string_transformer.rs:1593-1598 | the chain of replacements over the whole text is one replacement for each character |
| JsString.EscapeAttrValueIsMap | native/vertz-compiler-core/src/aot_string_transformer.rs:1600-1605 | the same for attribute values |
| JsString.EscapeJsonIsMap | native/vertz-compiler-core/src/jsx_transformer.rs:1949-1957 | the same for the five replacements of json_quote |
| JsString.StringLiteralRoundTrip | native/vertz-compiler-core/src/aot_string_transformer.rs:1593-1598 | reading the escaped text as a string literal gives back every text |
| JsString.JsonQuoteRoundTrip | native/vertz-compiler-core/src/jsx_transformer.rs:1949-1957 | reading a quoted text gives back every text |
| JsString.AttrValueRoundTrip | native/vertz-compiler-core/src/aot_string_transformer.rs:1600-1605 | an attribute value reads back exactly if it has no carriage return, which this escaper leaves in place |

## Left out

- Parsing, the visitors' walk over the full syntax tree, spans, source maps and the compile driver: the models start from small syntax trees. Byte offsets and 32-bit counters are unbounded numbers over characters.
- Text-level parsing of generated code beyond string literals, keys, and the form of what is copied into it: its first character, its outermost operator, the JSX left in it. The source has no names that begin with two underscores, and no await or yield in an expression that is put into a function.
- Reactivity.ClassifyVariables: the collectors that fill the variables from the syntax tree are parameters, and variable names are unique.
- PropsMeaning.RewritePreservesMeaning: props and outside names are data or functions of the host, and a user calls functions with such values; default values are literals, objects of such, or functions that use nothing around them. Getters, nested patterns (which the transform skips), assignments, loops and exception handlers are not in the language.
- ComputedMeaning.ComputedsPreserveMeaning: the text behind `computed(() =>` is taken to be read as the initializer, which it is not where that begins with a brace, as in `const o = { a: n } as T` with n reactive; function bodies are declarations and a result; a closure that uses a constant declared after it is not modelled, nor are assignments and effects.
- MountFrame.WrappedBodyIsFaithful: no returned expression is two expressions joined by a comma; loops, switch, try and nested functions (whose returns the collector skips) are not in the bodies; a body that falls off the end leaves its frame, as stated.
- SsrMeaning.GeneratedExpressionIsFaithful: spreads, dangerouslySetInnerHTML and the replacement of query names are not modelled; names of tags and attributes have no quote, backslash or line break; a map callback must not use the names the emitted one loses, see LostNamesShow. The emitted functions are appended to the source, which still has JSX: JSX in an expression that they copy is left to the compilation of that text.
- SsrHtml.GeneratedHtmlIsFaithful: the reader is a tokenizer: implied tags, the first line break of a textarea and the rules that move elements belong to the construction of the tree. It gives names in the case in which they are written and leaves character references in place; doctypes, CDATA and the escaped states of script are not in it, a plaintext element and text elements inside svg and math, where other rules hold, are not in the trees. That text elements hold what fits is its condition, see SsrRaw.TextIsRightIffItFits.
- Guards.FoldIsFaithfulIffFoldable: conditions are pure, and can stand before a `?` without parentheses; its second half takes the conditions to be independent and the JSX distinct.
- DomMeaning.ProgramBuildsTheTree: its comparison takes callbacks that use no lost name, see LostNamesShow and LostKeyShows. A key without an expression is none, and of a callback with several returns one key is modelled, that of the first element that has one. JSX in a callback is compared as it is when it is made at once, with the names around the callback; a root that the collector finds in a callback is a program of its own, to which the theorem applies. The third argument of a spread, the hydration marker, the default value of a callback's parameter, the question mark in `items?.map`, the inlining of a callback's constants (which Words is about) and the later runs of reactive thunks are not modelled; a thunk runs where it is passed.
- Words.ReplaceWithBoundary: which characters count as identifier characters is a parameter, since the code asks Unicode; the sorting of mutations and `Object.assign` are left out.
- JsString.AttrValueRoundTrip: hexadecimal and Unicode escapes, which the escapers never write, are not read.
- Unicode case mapping of event and attribute names is ASCII only.
- Field selection, route splitting, CSS tables, the signal api registry, component and mutation analysis, diagnostics, prefetch manifests, fast refresh and context ids: they recognise patterns in a syntax tree and format what they find, each in one pass without a state that another part relies on.
