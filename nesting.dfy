/** Properly nested markup. The converter reports a document tree as a
    depth-first stream of events; for such a stream the handler pairs every
    close with its own open, whatever the tags, and attaches one span per
    bound element that encloses text, the inner spans before the outer ones. */
module Nesting {
  import opened Wrappers
  import opened Tags
  import opened Spans
  import opened TagHandler
  import opened Builder

  datatype Node = Chars(s: string) | Element(tag: string, children: seq<Node>)

  /** The events the converter reports for a sequence of nodes, in document order. */
  function Events(ns: seq<Node>): seq<Event>
    decreases ns
  {
    if ns == [] then []
    else match ns[0]
      case Chars(s) => [Text(s)] + Events(ns[1..])
      case Element(t, cs) => [Open(t)] + Events(cs) + [Close(t)] + Events(ns[1..])
  }

  /** The text the converter writes for a sequence of nodes. */
  function Plain(ns: seq<Node>): string
    decreases ns
  {
    if ns == [] then ""
    else match ns[0]
      case Chars(s) => s + Plain(ns[1..])
      case Element(_, cs) => Plain(cs) + Plain(ns[1..])
  }

  /** Every element's tag is bound, or is an implicit `html`/`body` tag. */
  predicate WellTagged(f: FactoryMap, ns: seq<Node>)
    decreases ns
  {
    if ns == [] then true
    else match ns[0]
      case Chars(_) => WellTagged(f, ns[1..])
      case Element(t, cs) =>
        (Canonical(t) in f || IsStructural(Canonical(t))) && WellTagged(f, cs) && WellTagged(f, ns[1..])
  }

  /** The spans a conversion attaches for `ns` when its text starts at `offset`,
      in the order they are attached: an element's own span comes right after
      those of its children, and its factory sees the children's spans
      relative to the element's text. */
  function Annotations(f: FactoryMap, ns: seq<Node>, offset: nat): (r: seq<Span>)
    ensures forall i :: 0 <= i < |r| ==>
      offset <= r[i].start < r[i].end <= offset + |Plain(ns)| && r[i].flag == ExclusiveExclusive
    decreases ns, 0
  {
    if ns == [] then []
    else match ns[0]
      case Chars(s) => Annotations(f, ns[1..], offset + |s|)
      case Element(t, cs) =>
        ElementAnnotations(f, t, cs, offset) + Annotations(f, ns[1..], offset + |Plain(cs)|)
  }

  /** The spans attached for one element: its children's, then its own if its
      tag is bound and it encloses some text. */
  function ElementAnnotations(f: FactoryMap, t: string, cs: seq<Node>, offset: nat): (r: seq<Span>)
    ensures forall i :: 0 <= i < |r| ==>
      offset <= r[i].start < r[i].end <= offset + |Plain(cs)| && r[i].flag == ExclusiveExclusive
    decreases cs, 1
  {
    var c, inner, len := Canonical(t), Annotations(f, cs, offset), |Plain(cs)|;
    if c in f && len > 0 then
      inner + [Span(f[c](c, Slice(Plain(cs), Rebase(inner, offset))), offset, offset + len, ExclusiveExclusive)]
    else inner
  }

  /** Converting a well-tagged tree appends its text, leaves the open markers
      exactly as they were, and appends exactly its annotations. */
  lemma {:induction false} RunTree(f: FactoryMap, b: Buffer, ns: seq<Node>)
    requires ValidBuffer(b) && WellTagged(f, ns)
    ensures Run(f, b, Events(ns)) ==
      Success(Buffer(b.text + Plain(ns), b.markers, b.spans + Annotations(f, ns, |b.text|)))
    decreases ns, 2
  {
    if ns == [] {
      assert b.text + Plain(ns) == b.text && b.spans + Annotations(f, ns, |b.text|) == b.spans;
    } else if ns[0].Chars? {
      RunTreeChars(f, b, ns);
    } else {
      RunTreeElement(f, b, ns);
    }
  }

  /** RunTree when the first node is text. */
  lemma {:induction false} RunTreeChars(f: FactoryMap, b: Buffer, ns: seq<Node>)
    requires ValidBuffer(b) && WellTagged(f, ns) && ns != [] && ns[0].Chars?
    ensures Run(f, b, Events(ns)) ==
      Success(Buffer(b.text + Plain(ns), b.markers, b.spans + Annotations(f, ns, |b.text|)))
    decreases ns, 1
  {
    var s := ns[0].s;
    var b1 := b.(text := b.text + s);
    CharsFirst(f, b, ns, s, |b1.text|);
    RunTree(f, b1, ns[1..]);
    ConcatAssociative(b.text, s, Plain(ns[1..]), Plain(ns));
  }

  /** How a node sequence starting with text unfolds, and its first step. */
  lemma CharsFirst(f: FactoryMap, b: Buffer, ns: seq<Node>, s: string, q: nat)
    requires ValidBuffer(b) && ns != [] && ns[0] == Chars(s) && q == |b.text| + |s|
    ensures Plain(ns) == s + Plain(ns[1..])
    ensures WellTagged(f, ns) ==> WellTagged(f, ns[1..])
    ensures Annotations(f, ns, |b.text|) == Annotations(f, ns[1..], q)
    ensures Run(f, b, Events(ns)) == Run(f, b.(text := b.text + s), Events(ns[1..]))
  {
    var rest := Events(ns[1..]);
    assert Events(ns) == [Text(s)] + rest;
    assert ([Text(s)] + rest)[0] == Text(s) && ([Text(s)] + rest)[1..] == rest;
  }

  /** RunTree when the first node is an element. */
  lemma {:induction false} RunTreeElement(f: FactoryMap, b: Buffer, ns: seq<Node>)
    requires ValidBuffer(b) && WellTagged(f, ns) && ns != [] && ns[0].Element?
    ensures Run(f, b, Events(ns)) ==
      Success(Buffer(b.text + Plain(ns), b.markers, b.spans + Annotations(f, ns, |b.text|)))
    decreases ns, 1
  {
    var t, cs, p := ns[0].tag, ns[0].children, |b.text|;
    var head := ElementAnnotations(f, t, cs, p);
    var b2 := Buffer(b.text + Plain(cs), b.markers, b.spans + head);
    var tail := Annotations(f, ns[1..], |b2.text|);
    FirstElementStep(f, b, ns, t, cs);
    ElementFirstText(f, ns, t, cs, p, |b2.text|);
    RunTree(f, b2, ns[1..]);
    ConcatAssociative(b.text, Plain(cs), Plain(ns[1..]), Plain(ns));
    ConcatAssociative(b.spans, head, tail, Annotations(f, ns, p));
  }

  /** Converting the first element of `ns` leaves the rest to run from the
      buffer holding the element's text and annotations. */
  lemma {:induction false} FirstElementStep(f: FactoryMap, b: Buffer, ns: seq<Node>, t: string, cs: seq<Node>)
    requires ValidBuffer(b) && ns != [] && ns[0] == Element(t, cs)
    requires (Canonical(t) in f || IsStructural(Canonical(t))) && WellTagged(f, cs)
    ensures ValidBuffer(Buffer(b.text + Plain(cs), b.markers, b.spans + ElementAnnotations(f, t, cs, |b.text|)))
    ensures Run(f, b, Events(ns)) ==
      Run(f, Buffer(b.text + Plain(cs), b.markers, b.spans + ElementAnnotations(f, t, cs, |b.text|)), Events(ns[1..]))
    decreases ns, 0
  {
    var b2 := Buffer(b.text + Plain(cs), b.markers, b.spans + ElementAnnotations(f, t, cs, |b.text|));
    ElementFirstEvents(f, ns);
    RunElement(f, b, t, cs);
    RunThen(f, b, [Open(t)] + Events(cs) + [Close(t)], Events(ns[1..]), b2);
  }

  /** How the events of a node sequence starting with an element unfold. */
  lemma ElementFirstEvents(f: FactoryMap, ns: seq<Node>)
    requires ns != [] && ns[0].Element?
    ensures var t, cs := ns[0].tag, ns[0].children;
      && Events(ns) == ([Open(t)] + Events(cs) + [Close(t)]) + Events(ns[1..])
      && (WellTagged(f, ns) ==>
           (Canonical(t) in f || IsStructural(Canonical(t))) && WellTagged(f, cs) && WellTagged(f, ns[1..]))
  {
  }

  /** How the text and annotations of a node sequence starting with an element unfold. */
  lemma ElementFirstText(f: FactoryMap, ns: seq<Node>, t: string, cs: seq<Node>, p: nat, q: nat)
    requires ns != [] && ns[0] == Element(t, cs) && q == p + |Plain(cs)|
    ensures Plain(ns) == Plain(cs) + Plain(ns[1..])
    ensures WellTagged(f, ns) ==> WellTagged(f, ns[1..])
    ensures Annotations(f, ns, p) == ElementAnnotations(f, t, cs, p) + Annotations(f, ns[1..], q)
  {
  }

  /** One element: its open event, its children's events and its close event. */
  lemma {:induction false} RunElement(f: FactoryMap, b: Buffer, t: string, cs: seq<Node>)
    requires ValidBuffer(b) && WellTagged(f, cs)
    requires Canonical(t) in f || IsStructural(Canonical(t))
    ensures Run(f, b, [Open(t)] + Events(cs) + [Close(t)]) ==
      Success(Buffer(b.text + Plain(cs), b.markers, b.spans + ElementAnnotations(f, t, cs, |b.text|)))
    decreases cs, 3
  {
    var c, p := Canonical(t), |b.text|;
    var b1 := if c in f then b.(markers := b.markers + [Marker(c, p)]) else b;
    assert Apply(f, b, Open(t)) == Success(b1) by {
      if c in f {
        OpenPlacesMarker(f, b, t);
      } else {
        StructuralTagIgnored(f, b, true, t);
      }
    }
    assert [Open(t)] + Events(cs) + [Close(t)] == [Open(t)] + (Events(cs) + [Close(t)]);
    RunAppend(f, b, [Open(t)], Events(cs) + [Close(t)]);
    RunSingle(f, b, Open(t));
    RunAppend(f, b1, Events(cs), [Close(t)]);
    RunTree(f, b1, cs);
    var inner := Annotations(f, cs, p);
    var b2 := Buffer(b.text + Plain(cs), b1.markers, b.spans + inner);
    RunSingle(f, b2, Close(t));
    assert Run(f, b, [Open(t)] + Events(cs) + [Close(t)]) == Handle(f, b2, false, t);
    if c in f {
      CloseAfterChildren(f, b, t, cs);
    } else {
      StructuralTagIgnored(f, b2, false, t);
    }
  }

  /** The close event of a bound element, once its children are converted. */
  lemma CloseAfterChildren(f: FactoryMap, b: Buffer, t: string, cs: seq<Node>)
    requires ValidBuffer(b) && Canonical(t) in f
    ensures var c, p := Canonical(t), |b.text|;
      var b2 := Buffer(b.text + Plain(cs), b.markers + [Marker(c, p)], b.spans + Annotations(f, cs, p));
      ValidBuffer(b2) && Handle(f, b2, false, t) ==
      Success(Buffer(b.text + Plain(cs), b.markers, b.spans + ElementAnnotations(f, t, cs, p)))
  {
    var c, p := Canonical(t), |b.text|;
    var inner := Annotations(f, cs, p);
    var b2 := Buffer(b.text + Plain(cs), b.markers + [Marker(c, p)], b.spans + inner);
    var i, end := |b.markers|, |b2.text|;
    ChildrenBufferValid(f, b, c, cs);
    CloseResolvesLastMarker(f, b2, t, i);
    var r := Handle(f, b2, false, t).value;
    assert b2.markers[i].pos == p;
    assert r.markers == b.markers by {
      assert b2.markers[..i] == b.markers && b2.markers[i + 1..] == [];
    }
    var own := ElementAnnotations(f, t, cs, p);
    if p == end {
      assert own == inner;
    } else {
      ClosingSpan(f, b, t, cs);
    }
    assert r == Buffer(b.text + Plain(cs), b.markers, b.spans + own);
  }

  /** After an element's children, the span its close attaches makes the
      spans those of the buffer followed by the element's annotations. */
  lemma ClosingSpan(f: FactoryMap, b: Buffer, t: string, cs: seq<Node>)
    requires ValidBuffer(b) && Canonical(t) in f && |Plain(cs)| > 0
    ensures var c, p := Canonical(t), |b.text|;
      var b2 := Buffer(b.text + Plain(cs), b.markers + [Marker(c, p)], b.spans + Annotations(f, cs, p));
      && ValidBuffer(b2)
      && (b.spans + Annotations(f, cs, p)) + [Span(f[c](c, SliceOf(b2, p, |b2.text|)), p, |b2.text|, ExclusiveExclusive)]
         == b.spans + ElementAnnotations(f, t, cs, p)
  {
    var c, p := Canonical(t), |b.text|;
    var inner := Annotations(f, cs, p);
    var b2 := Buffer(b.text + Plain(cs), b.markers + [Marker(c, p)], b.spans + inner);
    var end := |b2.text|;
    ChildrenSlice(f, b, c, cs);
    BoundElement(f, t, cs, p, end);
    var span := Span(f[c](c, SliceOf(b2, p, end)), p, end, ExclusiveExclusive);
    assert ElementAnnotations(f, t, cs, p) == inner + [span];
  }

  /** The annotations of a bound element whose text runs from `offset` to `end`. */
  lemma BoundElement(f: FactoryMap, t: string, cs: seq<Node>, offset: nat, end: nat)
    requires Canonical(t) in f && Plain(cs) != [] && end == offset + |Plain(cs)|
    ensures ElementAnnotations(f, t, cs, offset)
      == Annotations(f, cs, offset)
         + [Span(f[Canonical(t)](Canonical(t), Slice(Plain(cs), Rebase(Annotations(f, cs, offset), offset))),
                 offset, end, ExclusiveExclusive)]
  {
  }

  /** The buffer after an element's children, its marker still open, is valid. */
  lemma ChildrenBufferValid(f: FactoryMap, b: Buffer, c: string, cs: seq<Node>)
    requires ValidBuffer(b)
    ensures var p := |b.text|;
      ValidBuffer(Buffer(b.text + Plain(cs), b.markers + [Marker(c, p)], b.spans + Annotations(f, cs, p)))
  {
    var p := |b.text|;
    var inner := Annotations(f, cs, p);
    var b2 := Buffer(b.text + Plain(cs), b.markers + [Marker(c, p)], b.spans + inner);
    forall s | s in b2.spans ensures s.start < s.end <= |b2.text| {
      if s !in b.spans {
        var k :| 0 <= k < |inner| && inner[k] == s;
      }
    }
  }

  /** What the factory of an element sees: the children's text, and the
      children's spans relative to it. */
  lemma ChildrenSlice(f: FactoryMap, b: Buffer, c: string, cs: seq<Node>)
    requires ValidBuffer(b) && |Plain(cs)| > 0
    ensures var p := |b.text|;
      var b2 := Buffer(b.text + Plain(cs), b.markers + [Marker(c, p)], b.spans + Annotations(f, cs, p));
      ValidBuffer(b2) && SliceOf(b2, p, |b2.text|) == Slice(Plain(cs), Rebase(Annotations(f, cs, p), p))
  {
    var p := |b.text|;
    var inner := Annotations(f, cs, p);
    var b2 := Buffer(b.text + Plain(cs), b.markers + [Marker(c, p)], b.spans + inner);
    var end := |b2.text|;
    ChildrenBufferValid(f, b, c, cs);
    assert b2.text[p..end] == Plain(cs);
    assert Within(b2.spans, p, end) == inner by {
      WithinAppend(b.spans, inner, p, end);
      WithinNone(b.spans, p, end);
      WithinAll(inner, p, end);
    }
  }

  lemma ConcatAssociative<T>(a: seq<T>, b: seq<T>, c: seq<T>, bc: seq<T>)
    requires bc == b + c
    ensures (a + b) + c == a + bc
  {
  }

  /** A one-event run is one step. */
  lemma RunSingle(f: FactoryMap, b: Buffer, e: Event)
    requires ValidBuffer(b)
    ensures Run(f, b, [e]) == Apply(f, b, e)
  {
    assert [e][1..] == [];
  }

  /** Two spans in attachment order: the earlier one ends before the later
      one starts, or lies inside it. Spans never cross, and an enclosing span
      is attached after everything it encloses. */
  predicate BeforeOrInside(x: Span, y: Span)
  {
    x.end <= y.start || (y.start <= x.start && x.end <= y.end)
  }

  predicate Laminar(spans: seq<Span>)
  {
    forall i, j :: 0 <= i < j < |spans| ==> BeforeOrInside(spans[i], spans[j])
  }

  /** The annotations of properly nested markup never cross each other, and
      inner annotations come before the ones enclosing them. */
  lemma {:induction false} AnnotationsLaminar(f: FactoryMap, ns: seq<Node>, offset: nat)
    ensures Laminar(Annotations(f, ns, offset))
    decreases ns, 0
  {
    if ns != [] {
      match ns[0]
      case Chars(s) =>
        AnnotationsLaminar(f, ns[1..], offset + |s|);
        assert Annotations(f, ns, offset) == Annotations(f, ns[1..], offset + |s|);
      case Element(t, cs) =>
        var mid := offset + |Plain(cs)|;
        var a, b := ElementAnnotations(f, t, cs, offset), Annotations(f, ns[1..], mid);
        ElementAnnotationsLaminar(f, t, cs, offset);
        AnnotationsLaminar(f, ns[1..], mid);
        LaminarConcat(a, b, mid);
        assert Annotations(f, ns, offset) == a + b;
    }
  }

  lemma {:induction false} ElementAnnotationsLaminar(f: FactoryMap, t: string, cs: seq<Node>, offset: nat)
    ensures Laminar(ElementAnnotations(f, t, cs, offset))
    ensures Canonical(t) in f && |Plain(cs)| > 0 ==>
      var r := ElementAnnotations(f, t, cs, offset);
      && |r| > 0 && r[..|r| - 1] == Annotations(f, cs, offset)
      && r[|r| - 1].start == offset && r[|r| - 1].end == offset + |Plain(cs)|
    decreases cs, 1
  {
    var inner := Annotations(f, cs, offset);
    AnnotationsLaminar(f, cs, offset);
    var r := ElementAnnotations(f, t, cs, offset);
    if r != inner {
      var last := r[|r| - 1];
      assert r == inner + [last];
      forall i, j | 0 <= i < j < |r| ensures BeforeOrInside(r[i], r[j]) {
        if j < |inner| {
          assert r[i] == inner[i] && r[j] == inner[j];
        } else {
          assert r[i] == inner[i];
        }
      }
    }
  }

  /** Laminar sequences, the first ending where the second starts, concatenate to a laminar one. */
  lemma LaminarConcat(a: seq<Span>, b: seq<Span>, mid: nat)
    requires Laminar(a) && Laminar(b)
    requires forall i :: 0 <= i < |a| ==> a[i].end <= mid
    requires forall j :: 0 <= j < |b| ==> mid <= b[j].start
    ensures Laminar(a + b)
  {
    var ab := a + b;
    forall i, j | 0 <= i < j < |ab| ensures BeforeOrInside(ab[i], ab[j]) {
      if j < |a| {
        assert ab[i] == a[i] && ab[j] == a[j];
      } else if i < |a| {
        assert ab[i] == a[i] && ab[j] == b[j - |a|];
      } else {
        assert ab[i] == b[i - |a|] && ab[j] == b[j - |a|];
      }
    }
  }

  /** The canonical name of the first element, in document order (that is,
      by its open tag), whose tag is neither bound nor `html`/`body`. */
  function FirstUnbound(f: FactoryMap, ns: seq<Node>): (r: Option<string>)
    ensures r.None? <==> WellTagged(f, ns)
    ensures r.Some? ==> r.value !in f && !IsStructural(r.value)
    decreases ns
  {
    if ns == [] then None
    else match ns[0]
      case Chars(_) => FirstUnbound(f, ns[1..])
      case Element(t, cs) =>
        var c := Canonical(t);
        if c !in f && !IsStructural(c) then Some(c)
        else if FirstUnbound(f, cs).Some? then FirstUnbound(f, cs)
        else FirstUnbound(f, ns[1..])
  }

  /** A tree holding an unbound tag fails with UnboundTag for the first such
      tag, as soon as it is opened: whatever follows is never reached. */
  lemma {:induction false} RunTreeUnbound(f: FactoryMap, b: Buffer, ns: seq<Node>)
    requires ValidBuffer(b) && FirstUnbound(f, ns).Some?
    ensures Run(f, b, Events(ns)) == Failure(UnboundTag(FirstUnbound(f, ns).value))
    decreases ns
  {
    match ns[0]
    case Chars(s) =>
      CharsFirst(f, b, ns, s, |b.text| + |s|);
      RunTreeUnbound(f, b.(text := b.text + s), ns[1..]);
    case Element(t, cs) =>
      var c := Canonical(t);
      if c !in f && !IsStructural(c) {
        OpenFirst(f, b, ns, t, cs);
      } else if FirstUnbound(f, cs).Some? {
        OpenFirst(f, b, ns, t, cs);
        var b1 := Apply(f, b, Open(t)).value;
        RunTreeUnbound(f, b1, cs);
        RunAppend(f, b1, Events(cs), [Close(t)] + Events(ns[1..]));
      } else {
        FirstElementStep(f, b, ns, t, cs);
        var b2 := Buffer(b.text + Plain(cs), b.markers, b.spans + ElementAnnotations(f, t, cs, |b.text|));
        RunTreeUnbound(f, b2, ns[1..]);
      }
  }

  /** The first step of an element's events is its open tag. */
  lemma OpenFirst(f: FactoryMap, b: Buffer, ns: seq<Node>, t: string, cs: seq<Node>)
    requires ValidBuffer(b) && ns != [] && ns[0] == Element(t, cs)
    ensures var open := Apply(f, b, Open(t));
      open.Failure? ==> Run(f, b, Events(ns)) == Failure(open.error)
    ensures var open := Apply(f, b, Open(t));
      open.Success? ==> Run(f, b, Events(ns)) == Run(f, open.value, Events(cs) + ([Close(t)] + Events(ns[1..])))
  {
    var tail := Events(cs) + ([Close(t)] + Events(ns[1..]));
    ElementFirstEvents(f, ns);
    Regroup([Open(t)], Events(cs), [Close(t)], Events(ns[1..]));
    RunPrepend(f, b, Open(t), tail);
  }

  lemma Regroup<T>(a: seq<T>, b: seq<T>, c: seq<T>, d: seq<T>)
    ensures ((a + b) + c) + d == a + (b + (c + d))
  {
  }
}
