/** `SpanFactoryTagHandler`: the callback the HTML converter invokes on every
    open and close tag. An open tag leaves a zero-width marker at the end of
    the output; the matching close tag removes the most recent marker for the
    same canonical tag and attaches the factory's span over the text written
    in between. */
module TagHandler {
  import opened Wrappers
  import opened Tags
  import opened Spans

  /** Tags the converter reports on its own; unbound, they are ignored. */
  predicate IsStructural(c: string)
  {
    c == "html" || c == "body"
  }

  /** One `handleTag(opening, tag, output, ...)` call, on buffer values. */
  function Handle(f: FactoryMap, b: Buffer, opening: bool, tag: string): (r: Result<Buffer, Error>)
    requires ValidBuffer(b)
    ensures var c := Canonical(tag);
      r.Failure? <==> (c !in f && !IsStructural(c)) || (c in f && !opening && FindLast(b.markers, c).None?)
    ensures var c := Canonical(tag);
      r.Failure? ==> r.error == if c in f then UnmatchedCloseTag(c) else UnboundTag(c)
    ensures r.Success? ==> ValidBuffer(r.value) && r.value.text == b.text && b.spans <= r.value.spans
    ensures r.Success? ==> |b.spans| <= |r.value.spans| <= |b.spans| + 1
  {
    var c := Canonical(tag);
    if c !in f then
      if IsStructural(c) then Success(b) else Failure(UnboundTag(c))
    else if opening then
      Success(b.(markers := b.markers + [Marker(c, |b.text|)]))
    else
      match FindLast(b.markers, c)
      case None => Failure(UnmatchedCloseTag(c))
      case Some(i) =>
        var start, end := b.markers[i].pos, |b.text|;
        var rest := b.(markers := RemoveAt(b.markers, i));
        if start == end then Success(rest)
        else
          var span := Span(f[c](c, SliceOf(rest, start, end)), start, end, ExclusiveExclusive);
          Success(rest.(spans := rest.spans + [span]))
  }

  /** An unbound `html` or `body` tag changes nothing, on open and on close. */
  lemma StructuralTagIgnored(f: FactoryMap, b: Buffer, opening: bool, tag: string)
    requires ValidBuffer(b)
    requires Canonical(tag) !in f && IsStructural(Canonical(tag))
    ensures Handle(f, b, opening, tag) == Success(b)
  {
  }

  /** Opening a bound tag places one marker, carrying the canonical tag, at
      the current end of the text; text and spans stay as they were. */
  lemma OpenPlacesMarker(f: FactoryMap, b: Buffer, tag: string)
    requires ValidBuffer(b) && Canonical(tag) in f
    ensures Handle(f, b, true, tag).Success?
    ensures var r := Handle(f, b, true, tag).value;
      && r.markers == b.markers + [Marker(Canonical(tag), |b.text|)]
      && r.text == b.text && r.spans == b.spans
  {
  }

  /** Closing a bound tag resolves against the marker `i` that is the last
      one carrying the same canonical tag: exactly that marker is removed,
      the others keep their order, and one span over [pos, end of text) is
      added unless that range is empty, in which case the factory is not
      consulted and no span is added. */
  lemma CloseResolvesLastMarker(f: FactoryMap, b: Buffer, tag: string, i: nat)
    requires ValidBuffer(b) && Canonical(tag) in f
    requires i < |b.markers| && b.markers[i].tag == Canonical(tag)
    requires forall j :: i < j < |b.markers| ==> b.markers[j].tag != Canonical(tag)
    ensures Handle(f, b, false, tag).Success?
    ensures var r := Handle(f, b, false, tag).value;
      var c, start, end := Canonical(tag), b.markers[i].pos, |b.text|;
      && start <= end
      && r.text == b.text
      && r.markers == b.markers[..i] + b.markers[i + 1..]
      && r.spans == if start == end then b.spans
                    else b.spans + [Span(f[c](c, SliceOf(b, start, end)), start, end, ExclusiveExclusive)]
  {
    var c := Canonical(tag);
    var k := FindLast(b.markers, c);
    assert k == Some(i) by {
      assert k.Some?;
      if k.value < i {
      } else if k.value > i {
      }
    }
  }

  /** A close event for a bound tag with no open marker for it is rejected
      with UnmatchedCloseTag, and an unbound tag other than `html`/`body` is
      rejected with UnboundTag, whether opening or closing. */
  lemma HandleErrors(f: FactoryMap, b: Buffer, opening: bool, tag: string)
    requires ValidBuffer(b)
    ensures var c := Canonical(tag);
      c !in f && !IsStructural(c) ==> Handle(f, b, opening, tag) == Failure(UnboundTag(c))
    ensures var c := Canonical(tag);
      c in f && !opening && (forall j :: 0 <= j < |b.markers| ==> b.markers[j].tag != c)
      ==> Handle(f, b, opening, tag) == Failure(UnmatchedCloseTag(c))
  {
  }

  /** The output buffer (`Editable`) seen through the operations the handler uses. */
  class Editable {
    var text: string
    var markers: seq<Marker>
    var spans: seq<Span>

    function State(): Buffer
      reads this
    {
      Buffer(text, markers, spans)
    }

    predicate Valid()
      reads this
    {
      ValidBuffer(State())
    }

    constructor ()
      ensures Valid() && State() == Empty
    {
      text, markers, spans := "", [], [];
    }

    /** Writes decoded text at the end; this is done by the converter between callbacks. */
    method Append(s: string)
      requires Valid()
      modifies this
      ensures Valid()
      ensures State() == old(State()).(text := old(text) + s)
    {
      text := text + s;
    }

    /** `setSpan(marker, pos, pos, SPAN_MARK_MARK)`. */
    method SetMarker(m: Marker)
      requires Valid() && m.pos <= |text|
      modifies this
      ensures Valid()
      ensures State() == old(State()).(markers := old(markers) + [m])
    {
      markers := markers + [m];
    }

    /** `removeSpan(marker)` for the marker at index `i`. */
    method RemoveMarker(i: nat)
      requires Valid() && i < |markers|
      modifies this
      ensures Valid()
      ensures State() == old(State()).(markers := RemoveAt(old(markers), i))
    {
      markers := RemoveAt(markers, i);
    }

    /** `setSpan(payload, start, end, SPAN_EXCLUSIVE_EXCLUSIVE)`. */
    method SetSpan(s: Span)
      requires Valid() && s.start < s.end <= |text|
      modifies this
      ensures Valid()
      ensures State() == old(State()).(spans := old(spans) + [s])
    {
      spans := spans + [s];
    }

    /** `subSequence(start, end)`: the text of the range, carrying exactly
        the spans attached inside it, shifted to the slice's positions. */
    function SubSequence(start: nat, end: nat): (r: Slice)
      reads this
      requires Valid() && start <= end <= |text|
      ensures r.text == text[start..end]
      ensures forall s :: s in spans && Inside(s, start, end) ==> Shifted(s, start) in r.spans
      ensures forall t :: t in r.spans ==>
        exists s :: s in spans && Inside(s, start, end) && t == Shifted(s, start)
    {
      SliceOfSpans(State(), start, end);
      SliceOf(State(), start, end)
    }
  }

  /** `getLast`: scans the markers from the last one back to the first and
      returns the index of the first one found that carries `tag`. */
  method GetLast(spans: seq<Marker>, tag: string) returns (found: Option<nat>)
    ensures found == FindLast(spans, tag)
  {
    if |spans| == 0 {
      return None;
    }
    var i := |spans| - 1;
    while i >= 0
      invariant -1 <= i < |spans|
      invariant forall j :: i < j < |spans| ==> spans[j].tag != tag
    {
      if spans[i].tag == tag {
        return Some(i);
      }
      i := i - 1;
    }
    return None;
  }

  /** `handleTag` on the output object: the registry is read, the output is
      changed in place exactly as Handle describes, and nothing is changed
      when the call fails. */
  method HandleTag(factories: FactoryMap, opening: bool, tag: string, output: Editable)
    returns (r: Outcome<Error>)
    requires output.Valid()
    modifies output
    ensures output.Valid()
    ensures match Handle(factories, old(output.State()), opening, tag)
      case Success(b) => r == Pass && output.State() == b
      case Failure(e) => r == Fail(e) && output.State() == old(output.State())
  {
    var c := Canonical(tag);
    if c !in factories {
      if IsStructural(c) {
        return Pass;
      }
      return Fail(UnboundTag(c));
    }
    var factory := factories[c];
    if opening {
      var start := |output.text|;
      output.SetMarker(Marker(c, start));
    } else {
      var startTag := GetLast(output.markers, c);
      if startTag.None? {
        return Fail(UnmatchedCloseTag(c));
      }
      var i := startTag.value;
      var start := output.markers[i].pos;
      var end := |output.text|;
      output.RemoveMarker(i);
      if start != end {
        var contents := output.SubSequence(start, end);
        output.SetSpan(Span(factory(c, contents), start, end, ExclusiveExclusive));
      }
    }
    return Pass;
  }
}
