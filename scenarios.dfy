/** The library's own usage scenarios, worked through the model. Each
    document is written as the node tree the converter walks; its events are
    `Events` of that tree. */
module Scenarios {
  import opened Wrappers
  import opened Tags
  import opened Spans
  import opened TagHandler
  import opened Builder
  import opened Nesting

  /** `before<t>testing</t>after` with `t` bound (the library's example uses
      `foobar`): the text loses its tags, and one exclusive-exclusive span
      covers `testing`, at [6, 13), built by the factory from the canonical
      tag and exactly that text, with no spans inside it. */
  lemma SimpleTag(f: FactoryMap, t: string)
    requires Canonical(t) in f
    ensures var c := Canonical(t);
      Run(f, Empty, Events([Chars("before"), Element(t, [Chars("testing")]), Chars("after")]))
      == Success(Buffer("beforetestingafter", [], [Span(f[c](c, Slice("testing", [])), 6, 13, ExclusiveExclusive)]))
  {
    OneTag(f, t, "before", "testing", "after", 6, 13);
    SimpleText();
  }

  lemma SimpleText()
    ensures "before" + "testing" + "after" == "beforetestingafter"
  {
    assert "before" + "testing" == "beforetesting";
  }

  /** `string<t>test</t>` with no factory bound to `t` (and `t` not `html`
      or `body`): conversion fails with UnboundTag for the canonical tag. */
  lemma UnboundScenario(f: FactoryMap, t: string)
    requires Canonical(t) !in f && !IsStructural(Canonical(t))
    ensures Run(f, Empty, Events([Chars("string"), Element(t, [Chars("test")])]))
      == Failure(UnboundTag(Canonical(t)))
  {
    var ns := [Chars("string"), Element(t, [Chars("test")])];
    assert ns[1..] == [Element(t, [Chars("test")])];
    assert FirstUnbound(f, ns[1..]) == Some(Canonical(t));
    RunTreeUnbound(f, Empty, ns);
  }

  /** Binding `foobar` twice fails the second time, and so does binding
      `fOoBaR` afterwards: the registry is keyed by the canonical name. */
  method DoubleBind(factory: Factory) returns (first: Outcome<Error>, again: Outcome<Error>, mixed: Outcome<Error>)
    ensures first == Pass
    ensures again == Fail(DuplicateBinding("foobar"))
    ensures mixed == Fail(DuplicateBinding("foobar"))
  {
    var w := new WingSpan.From("string");
    CanonicalOfLowerCase("foobar");
    first := w.Bind("foobar", factory);
    again := w.Bind("foobar", factory);
    assert SameIgnoringCase("foobar", "fOoBaR");
    CanonicalIgnoresCase("foobar", "fOoBaR");
    mixed := w.Bind("fOoBaR", factory);
  }

  /** `bind` has no list of names the HTML converter handles itself:
      binding `a`, `br`, `div` and `strong` to a fresh builder succeeds, and
      so does `notreserved`. */
  method BindReserved(factory: Factory) returns (outcomes: seq<Outcome<Error>>)
    ensures outcomes == [Pass, Pass, Pass, Pass, Pass]
  {
    var w := new WingSpan.From("string");
    CanonicalOfLowerCase("a");
    CanonicalOfLowerCase("br");
    CanonicalOfLowerCase("div");
    CanonicalOfLowerCase("strong");
    CanonicalOfLowerCase("notreserved");
    var o1 := w.Bind("a", factory);
    assert |"br"| == 2 && w.factories.Keys == {"a"};
    var o2 := w.Bind("br", factory);
    assert |"div"| == 3 && forall k :: k in w.factories ==> |k| < 3;
    var o3 := w.Bind("div", factory);
    assert |"strong"| == 6 && forall k :: k in w.factories ==> |k| < 6;
    var o4 := w.Bind("strong", factory);
    assert |"notreserved"| == 11 && forall k :: k in w.factories ==> |k| < 11;
    var o5 := w.Bind("notreserved", factory);
    outcomes := [o1, o2, o3, o4, o5];
  }

  /** The converter may report the document inside implicit `html` and
      `body` elements (WingSpanTest.java:189-209). With neither of them bound
      (in any spelling), the wrapping changes nothing: the result is that of
      the document alone. */
  lemma StructuralWrapper(f: FactoryMap, h: string, bd: string, ns: seq<Node>)
    requires Canonical(h) == "html" && Canonical(bd) == "body"
    requires WellTagged(f, ns) && "html" !in f && "body" !in f
    ensures Run(f, Empty, Events([Element(h, [Element(bd, ns)])])) == Run(f, Empty, Events(ns))
  {
    var body := [Element(bd, ns)];
    var doc := [Element(h, body)];
    Transparent(f, bd, ns);
    Transparent(f, h, body);
    RunFromEmpty(f, doc);
    RunFromEmpty(f, ns);
  }

  /** An unbound `html` or `body` element adds no text and no span of its own. */
  lemma Transparent(f: FactoryMap, t: string, cs: seq<Node>)
    requires Canonical(t) !in f && IsStructural(Canonical(t)) && WellTagged(f, cs)
    ensures WellTagged(f, [Element(t, cs)])
    ensures Plain([Element(t, cs)]) == Plain(cs)
    ensures Annotations(f, [Element(t, cs)], 0) == Annotations(f, cs, 0)
  {
    var ns := [Element(t, cs)];
    assert ns[1..] == [];
    assert Plain(ns) == Plain(cs) + "";
    assert Annotations(f, ns, 0) == ElementAnnotations(f, t, cs, 0) + [];
  }

  /** One bound tag around non-empty text, which starts at `p` and ends at `q`. */
  lemma OneTag(f: FactoryMap, t: string, pre: string, inner: string, post: string, p: nat, q: nat)
    requires Canonical(t) in f && inner != [] && p == |pre| && q == p + |inner|
    ensures Run(f, Empty, Events([Chars(pre), Element(t, [Chars(inner)]), Chars(post)]))
      == Success(Buffer(pre + inner + post, [],
                        [Span(f[Canonical(t)](Canonical(t), Slice(inner, [])), p, q, ExclusiveExclusive)]))
  {
    var leaf := [Chars(inner)];
    Leaf(f, t, inner, p, q);
    Around(f, t, leaf, pre, post, [Chars(pre), Element(t, leaf), Chars(post)], p, q);
    BoundElement(f, t, leaf, p, q);
    PrependEmpty([Span(f[Canonical(t)](Canonical(t), Slice(inner, [])), p, q, ExclusiveExclusive)]);
  }

  /** `abc: <o>testing that <i>nested tags</i> work</o> as expected` with `o`
      and `i` bound (the library's example uses `outer` and `inner`): the
      inner span covers [18, 29) and is attached first, the outer one covers
      [5, 34), and the outer factory sees `testing that nested tags work`
      holding just the inner span, at [13, 24). */
  lemma NestedExample(f: FactoryMap, o: string, i: string)
    requires Canonical(o) in f && Canonical(i) in f
    ensures var co, ci := Canonical(o), Canonical(i);
      var inner := Span(f[ci](ci, Slice("nested tags", [])), 18, 29, ExclusiveExclusive);
      var outer := Span(f[co](co, Slice("testing that nested tags work", [Span(inner.payload, 13, 24, ExclusiveExclusive)])),
                        5, 34, ExclusiveExclusive);
      var doc := [Chars("abc: "),
                  Element(o, [Chars("testing that "), Element(i, [Chars("nested tags")]), Chars(" work")]),
                  Chars(" as expected")];
      Run(f, Empty, Events(doc))
      == Success(Buffer("abc: testing that nested tags work as expected", [], [inner, outer]))
  {
    NestedTags(f, o, i, "abc: ", "testing that ", "nested tags", " work", " as expected", 5, 18, 29, 34);
    NestedExampleText();
  }

  /** The texts of the nested example, assembled from its pieces. */
  lemma NestedExampleText()
    ensures "testing that " + "nested tags" + " work" == "testing that nested tags work"
    ensures "abc: " + ("testing that " + "nested tags" + " work") + " as expected"
      == "abc: testing that nested tags work as expected"
  {
    InnerText();
    OuterText();
  }

  lemma InnerText()
    ensures "testing that " + "nested tags" + " work" == "testing that nested tags work"
  {
    assert "testing that " + "nested tags" == "testing that nested tags";
  }

  lemma OuterText()
    ensures "abc: " + "testing that nested tags work" + " as expected"
      == "abc: testing that nested tags work as expected"
  {
    assert "abc: " + "testing that nested tags work" == "abc: testing that nested tags work";
  }

  /** `<x>a<x>b</x>c</x>`: a close tag pairs with the most recent open tag of
      the same name, so the inner `x` spans [1, 2) and the outer one [0, 3), which holds the
      inner span at the same positions within its slice. */
  lemma SelfNesting(f: FactoryMap, x: string)
    requires Canonical(x) in f
    ensures var c := Canonical(x);
      var inner := Span(f[c](c, Slice("b", [])), 1, 2, ExclusiveExclusive);
      var outer := Span(f[c](c, Slice("abc", [Span(inner.payload, 1, 2, ExclusiveExclusive)])), 0, 3, ExclusiveExclusive);
      Run(f, Empty, Events([Chars(""), Element(x, [Chars("a"), Element(x, [Chars("b")]), Chars("c")]), Chars("")]))
      == Success(Buffer("abc", [], [inner, outer]))
  {
    NestedTags(f, x, x, "", "a", "b", "c", "", 0, 1, 2, 3);
    assert "a" + "b" + "c" == "abc";
    assert "" + ("a" + "b" + "c") + "" == "abc";
  }

  /** An element nested in another, both bound (possibly to the same tag):
      the inner span is attached first; the outer factory sees the whole
      enclosed text and, inside it, the inner span moved to slice positions.
      `p1`..`p4` are the positions where `q`, `r`, `s` and `u` begin. */
  lemma NestedTags(f: FactoryMap, o: string, i: string, p: string, q: string, r: string, s: string, u: string,
                   p1: nat, p2: nat, p3: nat, p4: nat)
    requires Canonical(o) in f && Canonical(i) in f && r != []
    requires p1 == |p| && p2 == p1 + |q| && p3 == p2 + |r| && p4 == p3 + |s|
    ensures var co, ci := Canonical(o), Canonical(i);
      var inner := Span(f[ci](ci, Slice(r, [])), p2, p3, ExclusiveExclusive);
      var outer := Span(f[co](co, Slice(q + r + s, [Span(inner.payload, p2 - p1, p3 - p1, ExclusiveExclusive)])),
                        p1, p4, ExclusiveExclusive);
      Run(f, Empty, Events([Chars(p), Element(o, [Chars(q), Element(i, [Chars(r)]), Chars(s)]), Chars(u)]))
      == Success(Buffer(p + (q + r + s) + u, [], [inner, outer]))
  {
    var ci := Canonical(i);
    var inner := Span(f[ci](ci, Slice(r, [])), p2, p3, ExclusiveExclusive);
    var leaf := [Chars(r)];
    var cs := [Chars(q), Element(i, leaf), Chars(s)];
    Leaf(f, i, r, p2, p3);
    AroundShape(f, i, leaf, q, s, cs, p1, p2, p3);
    BoundElement(f, i, leaf, p2, p3);
    PrependEmpty([inner]);
    assert Annotations(f, cs, p1) == [inner];
    assert Plain(cs) == q + r + s;
    Around(f, o, cs, p, u, [Chars(p), Element(o, cs), Chars(u)], p1, p4);
    BoundElement(f, o, cs, p1, p4);
    RebaseSingle(inner, p1, p2 - p1, p3 - p1);
    var co := Canonical(o);
    var outer := Span(f[co](co, Slice(q + r + s, [Span(inner.payload, p2 - p1, p3 - p1, ExclusiveExclusive)])),
                      p1, p4, ExclusiveExclusive);
    assert ElementAnnotations(f, o, cs, p1) == [inner] + [outer];
    assert [inner] + [outer] == [inner, outer];
  }

  /** One span moved `offset` positions towards the start. */
  lemma RebaseSingle(s: Span, offset: nat, start: nat, end: nat)
    requires start + offset == s.start && end + offset == s.end && s.start <= s.end
    ensures Rebase([s], offset) == [Span(s.payload, start, end, s.flag)]
  {
  }

  /** The document `pre<t>cs</t>post`, with `t` bound and `cs` well tagged
      and holding some text that runs from `p` to `q`: its text, and the
      annotations of `t`'s element. */
  lemma Around(f: FactoryMap, t: string, cs: seq<Node>, pre: string, post: string, ns: seq<Node>, p: nat, q: nat)
    requires Canonical(t) in f && Plain(cs) != [] && WellTagged(f, cs)
    requires ns == [Chars(pre), Element(t, cs), Chars(post)]
    requires p == |pre| && q == p + |Plain(cs)|
    ensures Run(f, Empty, Events(ns)) == Success(Buffer(pre + Plain(cs) + post, [], ElementAnnotations(f, t, cs, p)))
  {
    AroundShape(f, t, cs, pre, post, ns, 0, p, q);
    RunFromEmpty(f, ns);
  }

  /** RunTree from the empty buffer. */
  lemma RunFromEmpty(f: FactoryMap, ns: seq<Node>)
    requires WellTagged(f, ns)
    ensures Run(f, Empty, Events(ns)) == Success(Buffer(Plain(ns), [], Annotations(f, ns, 0)))
  {
    RunTree(f, Empty, ns);
    assert |Empty.text| == 0;
    PrependEmpty(Plain(ns));
    PrependEmpty(Annotations(f, ns, 0));
  }

  /** Text, tags and annotations of `pre<t>cs</t>post` written from `offset`,
      where the text of `cs` runs from `p` to `q`. */
  lemma AroundShape(f: FactoryMap, t: string, cs: seq<Node>, pre: string, post: string, ns: seq<Node>,
                    offset: nat, p: nat, q: nat)
    requires Canonical(t) in f && Plain(cs) != [] && WellTagged(f, cs)
    requires ns == [Chars(pre), Element(t, cs), Chars(post)]
    requires p == offset + |pre| && q == p + |Plain(cs)|
    ensures Plain(ns) == pre + Plain(cs) + post
    ensures WellTagged(f, ns)
    ensures Annotations(f, ns, offset) == ElementAnnotations(f, t, cs, p)
  {
    var tail := ns[1..];
    var last := tail[1..];
    assert ns[0] == Chars(pre) && tail[0] == Element(t, cs) && last == [Chars(post)];
    Leaf(f, t, post, q, q + |post|);
    assert Annotations(f, ns, offset) == Annotations(f, tail, p);
    assert Annotations(f, tail, p) == ElementAnnotations(f, t, cs, p) + Annotations(f, last, q);
    AppendEmpty(ElementAnnotations(f, t, cs, p));
    ConcatAssociative(pre, Plain(cs), post, Plain(tail));
  }

  /** A single text node running from `offset` to `end`. */
  lemma Leaf(f: FactoryMap, t: string, r: string, offset: nat, end: nat)
    requires end == offset + |r|
    ensures Plain([Chars(r)]) == r
    ensures WellTagged(f, [Chars(r)]) && Annotations(f, [Chars(r)], offset) == []
    ensures Rebase(Annotations(f, [Chars(r)], offset), offset) == []
  {
    assert [Chars(r)][1..] == [];
    assert r + "" == r;
  }

  lemma PrependEmpty<T>(a: seq<T>)
    ensures [] + a == a
  {
  }

  lemma AppendEmpty<T>(a: seq<T>)
    ensures a + [] == a
  {
  }
}
