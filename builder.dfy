/** The `WingSpan` builder: a registry of span factories keyed by canonical
    tag name, and the conversion that feeds the converter's event stream
    through the tag handler. The HTML converter itself (`Html.fromHtml`) is
    represented by the sequence of events it produces for the source. */
module Builder {
  import opened Wrappers
  import opened Tags
  import opened Spans
  import opened TagHandler

  /** What the converter does while walking the source: write decoded text,
      or report an opening or a closing tag to the handler. */
  datatype Event = Text(s: string) | Open(tag: string) | Close(tag: string)

  /** Every key of the registry is a canonical tag name. */
  predicate CanonicalKeys(m: FactoryMap)
  {
    forall k :: k in m ==> IsCanonical(k)
  }

  /** `bind(tag, factory)` on the registry's value. */
  function Register(m: FactoryMap, tag: string, factory: Factory): (r: Result<FactoryMap, Error>)
    ensures r.Failure? <==> Canonical(tag) in m
    ensures r.Failure? ==> r.error == DuplicateBinding(Canonical(tag))
    ensures r.Success? ==> r.value.Keys == m.Keys + {Canonical(tag)} && r.value[Canonical(tag)] == factory
    ensures r.Success? ==> forall k :: k in m ==> r.value[k] == m[k]
  {
    var c := Canonical(tag);
    if c in m then Failure(DuplicateBinding(c)) else Success(m[c := factory])
  }

  /** Registration keeps every key canonical. */
  lemma RegisterKeepsKeysCanonical(m: FactoryMap, tag: string, factory: Factory)
    requires CanonicalKeys(m)
    ensures Register(m, tag, factory).Success? ==> CanonicalKeys(Register(m, tag, factory).value)
  {
    CanonicalIdempotent(tag);
  }

  /** Once a tag is bound, binding any spelling of it that differs only in
      letter case fails with DuplicateBinding, and the registry is left as it was. */
  lemma RebindAnyCaseFails(m: FactoryMap, t1: string, t2: string, f1: Factory, f2: Factory)
    requires Register(m, t1, f1).Success?
    requires SameIgnoringCase(t1, t2)
    ensures Register(Register(m, t1, f1).value, t2, f2) == Failure(DuplicateBinding(Canonical(t1)))
  {
    CanonicalIgnoresCase(t1, t2);
  }

  /** One converter step: text is appended, a tag goes to the handler. */
  function Apply(f: FactoryMap, b: Buffer, e: Event): (r: Result<Buffer, Error>)
    requires ValidBuffer(b)
    ensures r.Success? ==> ValidBuffer(r.value) && b.text <= r.value.text && b.spans <= r.value.spans
  {
    match e
    case Text(s) => Success(b.(text := b.text + s))
    case Open(t) => Handle(f, b, true, t)
    case Close(t) => Handle(f, b, false, t)
  }

  /** A whole conversion from buffer `b`: the first failing step aborts it,
      with no partial result. */
  function Run(f: FactoryMap, b: Buffer, events: seq<Event>): (r: Result<Buffer, Error>)
    requires ValidBuffer(b)
    ensures r.Success? ==> ValidBuffer(r.value) && b.text <= r.value.text && b.spans <= r.value.spans
    decreases |events|
  {
    if events == [] then Success(b)
    else
      match Apply(f, b, events[0])
      case Failure(e) => Failure(e)
      case Success(b') => Run(f, b', events[1..])
  }

  /** Running two event sequences one after the other is running their concatenation. */
  lemma {:induction false} RunAppend(f: FactoryMap, b: Buffer, e1: seq<Event>, e2: seq<Event>)
    requires ValidBuffer(b)
    ensures Run(f, b, e1 + e2) ==
      match Run(f, b, e1)
      case Failure(e) => Failure(e)
      case Success(b') => Run(f, b', e2)
    decreases |e1|
  {
    if e1 == [] {
      assert e1 + e2 == e2;
    } else {
      assert (e1 + e2)[0] == e1[0];
      assert (e1 + e2)[1..] == e1[1..] + e2;
      match Apply(f, b, e1[0])
      case Failure(_) =>
      case Success(b') => RunAppend(f, b', e1[1..], e2);
    }
  }

  /** A run starting with event `e` takes `e`'s step first. */
  lemma RunPrepend(f: FactoryMap, b: Buffer, e: Event, rest: seq<Event>)
    requires ValidBuffer(b)
    ensures Apply(f, b, e).Failure? ==> Run(f, b, [e] + rest) == Failure(Apply(f, b, e).error)
    ensures Apply(f, b, e).Success? ==> Run(f, b, [e] + rest) == Run(f, Apply(f, b, e).value, rest)
  {
    assert ([e] + rest)[0] == e && ([e] + rest)[1..] == rest;
  }

  /** After a prefix that succeeds with `b'`, the run continues from `b'`. */
  lemma RunThen(f: FactoryMap, b: Buffer, e1: seq<Event>, e2: seq<Event>, b': Buffer)
    requires ValidBuffer(b) && Run(f, b, e1) == Success(b')
    ensures ValidBuffer(b') && Run(f, b, e1 + e2) == Run(f, b', e2)
  {
    RunAppend(f, b, e1, e2);
  }

  class WingSpan {
    const source: string
    var factories: FactoryMap

    /** The registry is only ever keyed by canonical tag names. */
    predicate Valid()
      reads this
    {
      CanonicalKeys(factories)
    }

    /** `WingSpan.from(source)`: an empty registry. */
    constructor From(source: string)
      ensures Valid()
      ensures this.source == source && factories == map[]
    {
      this.source := source;
      factories := map[];
    }

    /** `bind(tag, factory)`: stores the factory under the canonical tag, or
        fails, changing nothing, when that canonical tag is already bound. */
    method Bind(tag: string, factory: Factory) returns (r: Outcome<Error>)
      requires Valid()
      modifies this
      ensures Valid()
      ensures match Register(old(factories), tag, factory)
        case Success(m) => r == Pass && factories == m
        case Failure(e) => r == Fail(e) && factories == old(factories)
    {
      RegisterKeepsKeysCanonical(factories, tag, factory);
      var c := Canonical(tag);
      if c in factories {
        return Fail(DuplicateBinding(c));
      }
      factories := factories[c := factory];
      return Pass;
    }

    /** `buildSpanned()`: a fresh output buffer is driven through `events`,
        the converter's rendering of `source`; the result is the final
        buffer or the first failure. */
    method BuildSpanned(events: seq<Event>) returns (r: Result<Buffer, Error>)
      ensures r == Run(factories, Empty, events)
    {
      var output := new Editable();
      var i := 0;
      while i < |events|
        invariant 0 <= i <= |events|
        invariant output.Valid()
        invariant Run(factories, Empty, events) == Run(factories, output.State(), events[i..])
      {
        assert events[i..][0] == events[i] && events[i..][1..] == events[i + 1..];
        match events[i] {
          case Text(s) =>
            output.Append(s);
          case Open(t) =>
            var o := HandleTag(factories, true, t, output);
            if o.Fail? {
              return Failure(o.error);
            }
          case Close(t) =>
            var o := HandleTag(factories, false, t, output);
            if o.Fail? {
              return Failure(o.error);
            }
        }
        i := i + 1;
      }
      return Success(output.State());
    }
  }
}
