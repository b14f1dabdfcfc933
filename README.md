# WingSpan in Dafny

WingSpan turns an HTML string into an Android `Spanned` whose custom tags
have become spans. The caller binds a span factory to each tag name with
`bind`. `buildSpanned` then runs `Html.fromHtml` with a tag handler,
`SpanFactoryTagHandler`.

- The handler is called for every open and close tag of a tag name that
  the HTML converter does not know itself.
- On an open tag it leaves a zero-width `TagMarker` at the end of the output.
- On a close tag it finds the most recent marker for the same canonical
  (lower-cased) tag, removes it, asks the bound factory for a span, and
  attaches that span over the text written in between. The factory is
  given the canonical tag and that text, including any spans already
  attached inside it.
- Nothing is attached when the enclosed text is empty.
- A tag with no factory is an error, unless it is the implicit `html` or
  `body` tag, which is ignored.

The model is split into modules that follow the source:

- `Tags` (`tags.dfy`) models `getCanonical` as ASCII lower-casing.
- `Spans` (`spans.dfy`) holds the output buffer as a value: text, open
  markers in the order they were placed, and attached spans. It also holds
  `getLast` as a function, and `subSequence`.
- `TagHandler` (`tag_handler.dfy`) has:
  - `Handle`, one `handleTag` call on buffer values;
  - the `Editable` class, the buffer the handler changes in place;
  - `GetLast`, the reverse scan loop, proved equal to `FindLast`;
  - `HandleTag`, which changes an `Editable` exactly as `Handle` says.
- `Builder` (`builder.dfy`) has:
  - the registry and `bind` (`Register`, and the `WingSpan` class with
    `Bind`);
  - `Run`, a whole conversion over the converter's event stream;
  - `BuildSpanned`, the loop that drives an `Editable` through that stream.
- `Nesting` (`nesting.dfy`) covers properly nested markup. The document is
  a tree whose events the converter reports depth-first. For a well-tagged
  tree, `RunTree` states the exact result:
  - the plain text;
  - no markers left open;
  - one span per bound element that encloses text, inner spans before
    outer ones.

  `AnnotationsLaminar` proves that these spans never cross. `RunTreeUnbound`
  proves which error an unbound tag raises.
- `Scenarios` (`scenarios.dfy`) works the library's own examples
  through the model.

The factory is a function from (canonical tag, slice) to an opaque payload
identity. `Html.fromHtml` is represented by the sequence of events it
produces: text written, tag opened, tag closed. Exceptions become an
`Error` value, and the first one aborts the conversion.

Two points of the code that the model follows as written:

- `handleTag` looks the factory up (WingSpan.java:145-153) before it
  tests `opening` (WingSpan.java:154). An unbound tag therefore fails on
  its open event.
- `bind` has no list of reserved tag names. `testBindReservedFails`
  (WingSpanTest.java:74-92) expects `bind("a")`, `bind("br")`, `bind("div")`
  and `bind("strong")` to throw, but the code accepts them.
  `Scenarios.BindReserved` states what the code does.

## Model

| member | source | states |
|---|---|---|
| Tags.Canonical | library/src/main/java/com/scottbezek/wingspan/WingSpan.java:64-66 | the canonical name has the tag's length and no upper-case letter; it equals the tag up to letter case; every character that is not an upper-case letter is kept |
| Tags.CanonicalOfLowerCase | library/src/main/java/com/scottbezek/wingspan/WingSpan.java:64-66 | a name with no upper-case letter is its own canonical form |
| Tags.CanonicalIdempotent | library/src/main/java/com/scottbezek/wingspan/WingSpan.java:64-66 | canonicalising a canonical name changes nothing |
| Tags.CanonicalIgnoresCase | library/src/main/java/com/scottbezek/wingspan/WingSpan.java:64-66 | two tags have the same canonical name if and only if they differ only in letter case |
| Spans.FindLast | library/src/main/java/com/scottbezek/wingspan/WingSpan.java:179-192 | the index found carries the tag and no later marker does; none is found exactly when no marker carries the tag |
| Spans.RemoveAt | library/src/main/java/com/scottbezek/wingspan/WingSpan.java:168 | removing one marker drops exactly that element; the others keep their order |
| Spans.Within | library/src/main/java/com/scottbezek/wingspan/WingSpan.java:171 | a span is kept if and only if it is in the buffer and lies inside the range |
| Spans.WithinAppend | library/src/main/java/com/scottbezek/wingspan/WingSpan.java:171 | the range's spans of two span lists one after the other are those of the first list followed by those of the second, so the order is kept |
| Spans.Rebase | library/src/main/java/com/scottbezek/wingspan/WingSpan.java:171 | each span keeps its payload and flag, and both ends move by the same offset |
| Spans.SliceOf | library/src/main/java/com/scottbezek/wingspan/WingSpan.java:171 | `subSequence(start, end)` has exactly the text of the range, and its spans lie within the slice |
| Spans.SliceOfSpans | library/src/main/java/com/scottbezek/wingspan/WingSpan.java:171 | every span attached inside the range is in the slice, shifted to slice positions, and every span of the slice is such a shifted span |
| TagHandler.Handle | library/src/main/java/com/scottbezek/wingspan/WingSpan.java:144-177 | a call fails if and only if the tag is unbound and not `html`/`body`, or it is a bound close with no marker for it; the error is UnboundTag or UnmatchedCloseTag accordingly; on success the text is unchanged, the old spans are kept, and at most one span is added |
| TagHandler.StructuralTagIgnored | library/src/main/java/com/scottbezek/wingspan/WingSpan.java:145-149 | an unbound `html` or `body` tag leaves the buffer exactly as it was, on open and on close |
| TagHandler.OpenPlacesMarker | library/src/main/java/com/scottbezek/wingspan/WingSpan.java:154-156 | opening a bound tag appends one marker with the canonical tag at the current text length; text and spans are unchanged |
| TagHandler.CloseResolvesLastMarker | library/src/main/java/com/scottbezek/wingspan/WingSpan.java:158-175 | closing resolves against the last marker with the canonical tag; start <= end; exactly that marker is removed and the rest keep their order; an empty range adds nothing; otherwise exactly one exclusive-exclusive span, made by the factory from the canonical tag and the slice, is added over [start, end) |
| TagHandler.HandleErrors | library/src/main/java/com/scottbezek/wingspan/WingSpan.java:147-161 | an unbound tag other than `html`/`body` fails with UnboundTag, open or close; a bound close with no marker fails with UnmatchedCloseTag |
| TagHandler.Editable.Append | library/src/main/java/com/scottbezek/wingspan/WingSpan.java:91 | the converter's text write appends to the text and changes nothing else |
| TagHandler.Editable.SetMarker | library/src/main/java/com/scottbezek/wingspan/WingSpan.java:156 | `setSpan` of a marker appends it to the markers and changes nothing else |
| TagHandler.Editable.RemoveMarker | library/src/main/java/com/scottbezek/wingspan/WingSpan.java:168 | `removeSpan` drops exactly that marker and changes nothing else |
| TagHandler.Editable.SetSpan | library/src/main/java/com/scottbezek/wingspan/WingSpan.java:170-174 | `setSpan` of a factory's span appends it to the spans and changes nothing else |
| TagHandler.Editable.SubSequence | library/src/main/java/com/scottbezek/wingspan/WingSpan.java:171 | `output.subSequence(start, end)` has the text of the range and carries exactly the factory spans lying wholly inside it, shifted to slice positions |
| TagHandler.GetLast | library/src/main/java/com/scottbezek/wingspan/WingSpan.java:179-192 | the reverse scan with early return finds exactly what `FindLast` specifies |
| TagHandler.HandleTag | library/src/main/java/com/scottbezek/wingspan/WingSpan.java:144-177 | the output object ends in exactly the state `Handle` gives; on failure it is left unchanged |
| Builder.Register | library/src/main/java/com/scottbezek/wingspan/WingSpan.java:78-85 | fails with DuplicateBinding if and only if the canonical tag is already bound; otherwise it adds exactly the key canonical(tag) with that factory and keeps every other entry |
| Builder.RegisterKeepsKeysCanonical | library/src/main/java/com/scottbezek/wingspan/WingSpan.java:79-83 | binding keeps every registry key canonical |
| Builder.RebindAnyCaseFails | library/src/main/java/com/scottbezek/wingspan/WingSpan.java:79-82 | after a successful bind, binding any spelling that differs only in case fails with DuplicateBinding for the canonical tag |
| Builder.Apply | library/src/main/java/com/scottbezek/wingspan/WingSpan.java:91 | one converter step keeps the buffer valid and only extends its text and spans |
| Builder.Run | library/src/main/java/com/scottbezek/wingspan/WingSpan.java:90-92 | a conversion keeps the buffer valid, and its text and spans only grow |
| Builder.RunAppend | library/src/main/java/com/scottbezek/wingspan/WingSpan.java:90-92 | converting two streams one after the other is converting their concatenation; the first failure aborts |
| Builder.WingSpan.From | library/src/main/java/com/scottbezek/wingspan/WingSpan.java:37-49 | a builder starts with its source and an empty registry, whose keys are trivially canonical |
| Builder.WingSpan.Bind | library/src/main/java/com/scottbezek/wingspan/WingSpan.java:78-85 | the registry becomes exactly what `Register` gives, or stays as it was when `Register` fails, and the failure is reported; the registry stays keyed by canonical names |
| Builder.WingSpan.BuildSpanned | library/src/main/java/com/scottbezek/wingspan/WingSpan.java:90-92 | driving a fresh output buffer through the event stream gives exactly `Run` from the empty buffer |
| Nesting.Annotations | library/src/main/java/com/scottbezek/wingspan/WingSpan.java:169-174 | every span attached for a subtree is non-empty, lies within the subtree's text and is exclusive-exclusive |
| Nesting.ElementAnnotations | library/src/main/java/com/scottbezek/wingspan/WingSpan.java:169-174 | every span attached for one element lies within the element's text |
| Nesting.RunTree | library/src/main/java/com/scottbezek/wingspan/WingSpan.java:144-177 | converting a well-tagged tree appends its plain text, leaves the open markers exactly as they were, and appends exactly its annotations |
| Nesting.RunElement | library/src/main/java/com/scottbezek/wingspan/WingSpan.java:154-175 | an element's open, its children and its close add its text and the element's annotations; its marker is gone afterwards |
| Nesting.CloseAfterChildren | library/src/main/java/com/scottbezek/wingspan/WingSpan.java:158-175 | the close of a bound element pairs with the marker its own open placed, although same-tag elements were opened and closed inside it |
| Nesting.ChildrenSlice | library/src/main/java/com/scottbezek/wingspan/WingSpan.java:171 | the factory of an element sees exactly the children's text and the children's spans, relative to that text |
| Nesting.AnnotationsLaminar | library/src/main/java/com/scottbezek/wingspan/WingSpan.java:169-174 | spans of nested markup never cross; a span attached later either starts after an earlier one ends or encloses it |
| Nesting.ElementAnnotationsLaminar | library/src/main/java/com/scottbezek/wingspan/WingSpan.java:169-174 | the spans attached for one element, its own included, never cross, and its own span comes last |
| Nesting.FirstUnbound | library/src/main/java/com/scottbezek/wingspan/WingSpan.java:145-153 | there is no unbound tag (other than `html`/`body`) if and only if the tree is well tagged; the tag found is unbound and not structural |
| Nesting.RunTreeUnbound | library/src/main/java/com/scottbezek/wingspan/WingSpan.java:145-153 | a tree with an unbound tag fails with UnboundTag for the first such tag in document order |
| Scenarios.SimpleTag | library/src/androidTest/java/com/scottbezek/wingspan/WingSpanTest.java:25-47 | `before<t>testing</t>after` gives the text `beforetestingafter` and one exclusive-exclusive span over [6, 13), built from the canonical tag and `testing` |
| Scenarios.StructuralWrapper | library/src/main/java/com/scottbezek/wingspan/WingSpan.java:145-149 | wrapping a well-tagged document in unbound `html` and `body` elements, in any spelling, gives the same result as the document alone |
| Scenarios.Transparent | library/src/main/java/com/scottbezek/wingspan/WingSpan.java:145-149 | an unbound `html` or `body` element adds no text and no span of its own |
| Scenarios.OneTag | library/src/main/java/com/scottbezek/wingspan/WingSpan.java:154-175 | one bound tag around non-empty text gives the text without tags and one span exactly over that text |
| Scenarios.UnboundScenario | library/src/androidTest/java/com/scottbezek/wingspan/WingSpanTest.java:65-72 | `string<t>test</t>` with `t` unbound fails with UnboundTag |
| Scenarios.DoubleBind | library/src/androidTest/java/com/scottbezek/wingspan/WingSpanTest.java:49-63 | binding `foobar` succeeds; binding `foobar` again fails, and so does binding `fOoBaR` |
| Scenarios.BindReserved | library/src/main/java/com/scottbezek/wingspan/WingSpan.java:78-85 | `bind` accepts `a`, `br`, `div`, `strong` and `notreserved` on a fresh builder, because the code has no reserved-name check |
| Scenarios.NestedExample | library/src/androidTest/java/com/scottbezek/wingspan/WingSpanTest.java:97-131 | the nested example gives `abc: testing that nested tags work as expected`; the inner span [18, 29) is attached before the outer span [5, 34); the outer factory sees `testing that nested tags work` holding just the inner span |
| Scenarios.NestedTags | library/src/main/java/com/scottbezek/wingspan/WingSpan.java:158-175 | two nested bound elements give the inner span, then the outer span; the outer factory sees the inner span at its slice-relative position |
| Scenarios.SelfNesting | library/src/main/java/com/scottbezek/wingspan/WingSpan.java:179-192 | in `<x>a<x>b</x>c</x>` the first close pairs with the most recent open, so the spans are [1, 2) and then [0, 3) |

## Left out

- `Html.fromHtml` and TagSoup are external code. The HTML converter is represented by the event sequence it produces. Its own behaviour is not modelled: entity decoding, the tags it handles itself, implicit `html`/`body` events, and the quirks `testAbsurdTagSoupParsingBehavior` documents.
- `setImageGetter` and the `ImageGetter` field are a pass-through to the converter.
- `ClickableSpanFactory` and the sample app are Android UI code.
- Tags.Canonical lower-cases ASCII letters only, not the full Unicode mapping of `toLowerCase(Locale.US)`.
- Positions never move in the model: a marker stays at the position where it was placed, and a span keeps its range. The converter only ever appends text at the end of the output, and a marker that sits at the end is placed exactly there. Under appends, this is what Android's SPAN_MARK_MARK does for a marker: it stays in front of the appended text. It is also what SPAN_EXCLUSIVE_EXCLUSIVE does for a span: the span does not grow over text appended at its end. Only the exclusive-exclusive value is stored, and the marker flag is implied. Insertions anywhere other than the end never happen, so what the flags do there is not modelled.
- The "start tag found but not attached" branch (WingSpan.java:163-166) cannot happen in the model. Every marker is a position inside the text (`ValidBuffer`), so `getSpanStart` never returns -1.
- Factories are total, side-effect-free functions that return a payload identity. Their side effects, exceptions and null results are not modelled.
- Builder.Register: a factory is always a function, so the model has no null factory. In the source, `bind(tag, null)` succeeds, because a `HashMap` accepts null values (WingSpan.java:83). That entry then blocks any later `bind` of the tag, since `containsKey` is true (WingSpan.java:80). `handleTag` nevertheless treats the tag as unbound, because `get` returns null (WingSpan.java:146-153). It throws, or ignores the tag for `html`/`body`. None of this is modelled.
- Spans.SliceOf and TagHandler.Editable.SubSequence copy into the slice only the factory spans lying wholly inside the range. Android's `subSequence` also copies, clipped to the range, the zero-width markers that sit on or inside the range, and spans that partly overlap it. So a real factory also receives the marker of an enclosing element that opened at the same position (in `<o><i>x</i></o>`, `o`'s marker sits at the start of `i`'s range). It also receives the marker of an element opened inside the range and not yet closed. The converter's own styling spans are not modelled at all.
- A span's payload is a value, and two equal payloads are not the same object. A factory that returns a new object per call gives distinct spans. A factory that returns the same object twice makes Android's second `setSpan` (WingSpan.java:170-174) move that object rather than add a span. The model adds a span on every non-empty close, so this move of an already-attached object is not modelled.
- Nesting.RunTree covers properly nested, well-tagged trees only. Arbitrary event streams are covered by `Run` and `BuildSpanned`, not by a closed-form result.
- The scenarios keep the tag names as parameters with the right binding status rather than the literal names `foobar`, `outer` and `inner`. The texts and positions are literal.
