/** The state of the rich-text output buffer the tag handler works on: the
    text written so far, the zero-width tag markers still open (in the order
    they were placed) and the annotation spans attached so far. */
module Spans {
  import opened Wrappers

  /** Identity of the object a span factory returns; the model never looks inside. */
  type Payload = nat

  /** The Android span flag the source passes to `setSpan` for a factory's
      span. Only the value is recorded. */
  datatype Flag = ExclusiveExclusive

  /** A `TagMarker`: the canonical tag it was opened for and the position it is
      attached at. Every marker is attached with SPAN_MARK_MARK, so that flag
      is not stored. */
  datatype Marker = Marker(tag: string, pos: nat)

  /** An annotation attached over the half-open range [start, end). */
  datatype Span = Span(payload: Payload, start: nat, end: nat, flag: Flag)

  /** A sub-sequence of the buffer: its text and the spans lying inside it,
      with positions relative to the start of the slice. */
  datatype Slice = Slice(text: string, spans: seq<Span>)

  /** A `SpanFactory`: called with the canonical tag and the spanned contents. */
  type Factory = (string, Slice) -> Payload

  /** The registry, from canonical tag name to factory. */
  type FactoryMap = map<string, Factory>

  /** The exceptions (`IllegalStateException`s) the modelled code throws. */
  datatype Error =
    | DuplicateBinding(tag: string)
    | UnboundTag(tag: string)
    | UnmatchedCloseTag(tag: string)

  datatype Buffer = Buffer(text: string, markers: seq<Marker>, spans: seq<Span>)

  const Empty := Buffer("", [], [])

  /** Every marker sits inside the text and every span covers a non-empty range of it. */
  predicate ValidBuffer(b: Buffer)
  {
    && (forall m :: m in b.markers ==> m.pos <= |b.text|)
    && (forall s :: s in b.spans ==> s.start < s.end <= |b.text|)
  }

  /** The index of the last marker carrying `tag`, if any: the marker that
      `getLast` returns when it scans the markers from the end. */
  function FindLast(markers: seq<Marker>, tag: string): (r: Option<nat>)
    ensures r.Some? ==> r.value < |markers| && markers[r.value].tag == tag
    ensures r.Some? ==> forall j :: r.value < j < |markers| ==> markers[j].tag != tag
    ensures r.None? ==> forall j :: 0 <= j < |markers| ==> markers[j].tag != tag
    decreases |markers|
  {
    if |markers| == 0 then None
    else if markers[|markers| - 1].tag == tag then Some(|markers| - 1)
    else FindLast(markers[..|markers| - 1], tag)
  }

  /** `s` without its element at index `i`. */
  function RemoveAt<T>(s: seq<T>, i: nat): (r: seq<T>)
    requires i < |s|
    ensures |r| == |s| - 1
    ensures forall j :: 0 <= j < i ==> r[j] == s[j]
    ensures forall j :: i <= j < |r| ==> r[j] == s[j + 1]
  {
    s[..i] + s[i + 1..]
  }

  predicate Inside(s: Span, start: nat, end: nat)
  {
    start <= s.start && s.end <= end
  }

  /** The spans lying inside [start, end). The order is kept: filtering a
      concatenation concatenates the filtered parts (WithinAppend). The
      index-wise clause is the form the slice lemmas use. */
  function Within(spans: seq<Span>, start: nat, end: nat): (r: seq<Span>)
    ensures forall s :: s in r <==> s in spans && Inside(s, start, end)
    ensures forall i :: 0 <= i < |r| ==> r[i] in spans && Inside(r[i], start, end)
  {
    if spans == [] then []
    else (if Inside(spans[0], start, end) then [spans[0]] else []) + Within(spans[1..], start, end)
  }

  /** Span `s` with both ends moved `offset` positions towards the start. */
  function Shifted(s: Span, offset: nat): Span
    requires offset <= s.start <= s.end
  {
    Span(s.payload, s.start - offset, s.end - offset, s.flag)
  }

  /** Moves every span `offset` positions towards the start. */
  function Rebase(spans: seq<Span>, offset: nat): (r: seq<Span>)
    requires forall i :: 0 <= i < |spans| ==> offset <= spans[i].start <= spans[i].end
    ensures |r| == |spans|
    ensures forall i :: 0 <= i < |r| ==>
      r[i].start + offset == spans[i].start && r[i].end + offset == spans[i].end
      && r[i].payload == spans[i].payload && r[i].flag == spans[i].flag
  {
    seq(|spans|, i requires 0 <= i < |spans| => Shifted(spans[i], offset))
  }

  /** `output.subSequence(start, end)`: the text of the range and the spans inside it. */
  function SliceOf(b: Buffer, start: nat, end: nat): (r: Slice)
    requires start <= end <= |b.text|
    requires ValidBuffer(b)
    ensures r.text == b.text[start..end]
    ensures forall i :: 0 <= i < |r.spans| ==> r.spans[i].start < r.spans[i].end <= end - start
  {
    Slice(b.text[start..end], Rebase(Within(b.spans, start, end), start))
  }

  /** The slice carries exactly the spans attached inside the range, each
      shifted to the slice's positions. */
  lemma SliceOfSpans(b: Buffer, start: nat, end: nat)
    requires start <= end <= |b.text| && ValidBuffer(b)
    ensures forall s :: s in b.spans && Inside(s, start, end) ==> Shifted(s, start) in SliceOf(b, start, end).spans
    ensures forall t :: t in SliceOf(b, start, end).spans ==>
      exists s :: s in b.spans && Inside(s, start, end) && t == Shifted(s, start)
  {
    var kept := Within(b.spans, start, end);
    SliceCarriesSpans(b, kept, start, end);
    SliceSpansOrigin(b, kept, start, end);
  }

  /** Every span inside the range is carried into the slice, shifted. */
  lemma SliceCarriesSpans(b: Buffer, kept: seq<Span>, start: nat, end: nat)
    requires start <= end <= |b.text| && ValidBuffer(b) && kept == Within(b.spans, start, end)
    ensures forall s :: s in b.spans && Inside(s, start, end) ==> Shifted(s, start) in Rebase(kept, start)
  {
    forall s | s in b.spans && Inside(s, start, end) ensures Shifted(s, start) in Rebase(kept, start) {
      SliceCarriesSpan(b, kept, start, end, s);
    }
  }

  lemma SliceCarriesSpan(b: Buffer, kept: seq<Span>, start: nat, end: nat, s: Span)
    requires start <= end <= |b.text| && ValidBuffer(b) && kept == Within(b.spans, start, end)
    requires s in b.spans && Inside(s, start, end)
    ensures Shifted(s, start) in Rebase(kept, start)
  {
    var r := Rebase(kept, start);
    assert s in kept;
    var i :| 0 <= i < |kept| && kept[i] == s;
    assert r[i] == Shifted(s, start);
  }

  /** Every span of the slice is a span inside the range, shifted. */
  lemma SliceSpansOrigin(b: Buffer, kept: seq<Span>, start: nat, end: nat)
    requires start <= end <= |b.text| && ValidBuffer(b) && kept == Within(b.spans, start, end)
    ensures forall t :: t in Rebase(kept, start) ==>
      exists s :: s in b.spans && Inside(s, start, end) && t == Shifted(s, start)
  {
    var r := Rebase(kept, start);
    forall t | t in r
      ensures exists s :: s in b.spans && Inside(s, start, end) && t == Shifted(s, start)
    {
      var i :| 0 <= i < |r| && r[i] == t;
      var k := kept[i];
      assert k in b.spans && Inside(k, start, end);
      assert t == Shifted(k, start);
    }
  }

  lemma {:induction false} WithinAppend(a: seq<Span>, b: seq<Span>, start: nat, end: nat)
    ensures Within(a + b, start, end) == Within(a, start, end) + Within(b, start, end)
  {
    if a == [] {
      assert a + b == b;
    } else {
      assert (a + b)[0] == a[0] && (a + b)[1..] == a[1..] + b;
      WithinAppend(a[1..], b, start, end);
    }
  }

  /** Spans that all lie inside the range are all kept, in order. */
  lemma {:induction false} WithinAll(spans: seq<Span>, start: nat, end: nat)
    requires forall i :: 0 <= i < |spans| ==> Inside(spans[i], start, end)
    ensures Within(spans, start, end) == spans
  {
    if spans != [] {
      WithinAll(spans[1..], start, end);
    }
  }

  /** Spans that all start before the range are all dropped. */
  lemma {:induction false} WithinNone(spans: seq<Span>, start: nat, end: nat)
    requires forall s :: s in spans ==> s.start < start
    ensures Within(spans, start, end) == []
  {
    if spans != [] {
      WithinNone(spans[1..], start, end);
    }
  }
}
