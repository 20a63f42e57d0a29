/** The two persisted forms of a notary's settings: the XML element written
    into the settings document, and the plain record passed across the
    ChromeWorker boundary. */
module Settings {
  import opened NotaryTypes

  /** An XML element: its tag, its attributes and its child elements, in order. */
  datatype Element = Element(tag: string, attributes: map<string, string>, children: seq<Element>)

  const LogicalTag: string := "logical-notary"
  const PhysicalTag: string := "physical-notary"

  /** `getAttribute`: the attribute's value, or null when absent. */
  function Attribute(e: Element, key: string): Option<string>
  {
    if key in e.attributes then Some(e.attributes[key]) else None
  }

  /** The string `setAttribute` stores for a value that may be null. */
  function NullableText(s: Option<string>): string
  {
    match s
    case None => "null"
    case Some(v) => v
  }

  /** The string `setAttribute` stores for a boolean. */
  function BoolText(b: bool): string
  {
    if b then "true" else "false"
  }

  /** `getElementsByTagName`: the descendants of `e` below `e.children[k..]`
      carrying `tag`, in document order. */
  function TaggedIn(e: Element, k: nat, tag: string): seq<Element>
    requires k <= |e.children|
    decreases e, |e.children| - k
  {
    if k == |e.children| then []
    else
      var c := e.children[k];
      (if c.tag == tag then [c] else []) + TaggedIn(c, 0, tag) + TaggedIn(e, k + 1, tag)
  }

  function ElementsByTagName(e: Element, tag: string): seq<Element>
  {
    TaggedIn(e, 0, tag)
  }

  /** The physical-notary serialisation, which is not part of this model, is
      a pair of functions; the round trip holds when each endpoint's element
      is a `physical-notary` element with no such element below it, and
      decoding it gives the endpoint back. */
  ghost predicate PhysicalRoundTrips(encode: PhysicalNotary -> Element, decode: Element -> PhysicalNotary)
  {
    forall p :: encode(p).tag == PhysicalTag && ElementsByTagName(encode(p), PhysicalTag) == [] && decode(encode(p)) == p
  }

  /** `f` applied to every item, in order: every endpoint through its
      `serialize`, or every found element through `deserialize`. */
  function MapAll<A, B>(items: seq<A>, f: A -> B): (r: seq<B>)
    ensures |r| == |items|
    ensures forall i :: 0 <= i < |items| ==> r[i] == f(items[i])
  {
    seq(|items|, i requires 0 <= i < |items| => f(items[i]))
  }

  /** The attributes `serialize` writes: name, enabled and priority always,
      bundle_location and region only when they are not null. */
  function SerializedAttributes(c: NotaryConfig): map<string, string>
  {
    var always := map["name" := NullableText(c.name), "enabled" := BoolText(c.enabled), "priority" := BoolText(c.priority)];
    var withBundle := if c.bundleLocation.Some? then always["bundle_location" := c.bundleLocation.value] else always;
    if c.region.Some? then withBundle["region" := c.region.value] else withBundle
  }

  /** The `logical-notary` element `serialize` builds, one child per endpoint. */
  function SerializeConfig(c: NotaryConfig, encode: PhysicalNotary -> Element): Element
  {
    Element(LogicalTag, SerializedAttributes(c), MapAll(c.physicalNotaries, encode))
  }

  /** The settings after `deserialize(e, version)` on a notary holding `base`. */
  function DeserializedConfig(base: NotaryConfig, e: Element, version: int, decode: Element -> PhysicalNotary): NotaryConfig
  {
    if version > 0 then
      base.(
        name := Attribute(e, "name"),
        enabled := Attribute(e, "enabled") == Some("true"),
        priority := Attribute(e, "priority") == Some("true"),
        bundleLocation := if "bundle_location" in e.attributes then Some(e.attributes["bundle_location"]) else base.bundleLocation,
        region := if "region" in e.attributes then Some(e.attributes["region"]) else base.region,
        physicalNotaries := base.physicalNotaries + MapAll(ElementsByTagName(e, PhysicalTag), decode))
    else
      base.(
        name := Attribute(e, "host"),
        enabled := Attribute(e, "enabled") == Some("true"),
        physicalNotaries := base.physicalNotaries + [decode(e)])
  }

  /** Children that are physical-notary elements with none below them are
      exactly what the tag search finds, in order. */
  lemma {:induction false} TagSearchFindsChildren(e: Element, k: nat)
    requires k <= |e.children|
    requires forall c :: c in e.children ==> c.tag == PhysicalTag && ElementsByTagName(c, PhysicalTag) == []
    ensures TaggedIn(e, k, PhysicalTag) == e.children[k..]
    decreases |e.children| - k
  {
    if k < |e.children| {
      assert e.children[k] in e.children;
      TagSearchFindsChildren(e, k + 1);
      assert e.children[k..] == [e.children[k]] + e.children[k + 1..];
    }
  }

  /** For a version above 0, deserializing what `serialize` wrote restores
      enabled and priority through "true"/"false", restores the name (a
      null name comes back as the text "null"), restores bundle_location
      and region when they were not null and otherwise keeps the target's,
      and appends the endpoints in order. */
  lemma {:induction false} DeserializeSerialize(
    c: NotaryConfig, base: NotaryConfig, version: int,
    encode: PhysicalNotary -> Element, decode: Element -> PhysicalNotary)
    requires version > 0
    requires PhysicalRoundTrips(encode, decode)
    ensures var d := DeserializedConfig(base, SerializeConfig(c, encode), version, decode);
      && d.name == Some(NullableText(c.name))
      && d.enabled == c.enabled
      && d.priority == c.priority
      && d.bundleLocation == (if c.bundleLocation.Some? then c.bundleLocation else base.bundleLocation)
      && d.region == (if c.region.Some? then c.region else base.region)
      && d.physicalNotaries == base.physicalNotaries + c.physicalNotaries
  {
    var e := SerializeConfig(c, encode);
    forall child | child in e.children
      ensures child.tag == PhysicalTag && ElementsByTagName(child, PhysicalTag) == []
    {
      var i :| 0 <= i < |e.children| && e.children[i] == child;
      assert child == encode(c.physicalNotaries[i]);
    }
    TagSearchFindsChildren(e, 0);
    assert ElementsByTagName(e, PhysicalTag) == e.children;
    var decoded := MapAll(e.children, decode);
    forall i | 0 <= i < |decoded| ensures decoded[i] == c.physicalNotaries[i] {
      assert decode(encode(c.physicalNotaries[i])) == c.physicalNotaries[i];
    }
    assert decoded == c.physicalNotaries;
  }

  /** Into a freshly constructed notary, a named notary's settings survive
      serialize and deserialize unchanged. */
  lemma {:induction false} RoundTripIntoFreshNotary(
    c: NotaryConfig, version: int,
    encode: PhysicalNotary -> Element, decode: Element -> PhysicalNotary)
    requires version > 0
    requires c.name.Some?
    requires PhysicalRoundTrips(encode, decode)
    ensures DeserializedConfig(DefaultConfig, SerializeConfig(c, encode), version, decode) == c
  {
    DeserializeSerialize(c, DefaultConfig, version, encode, decode);
  }

  /** The record `serializeForTransport` hands its callback; the endpoints'
      own transport form is taken to be the endpoint record. */
  datatype TransportForm = TransportForm(
    name: Option<string>,
    enabled: bool,
    priority: bool,
    bundleLocation: Option<string>,
    region: Option<string>,
    physicalNotaries: seq<PhysicalNotary>)

  /** Every index of `order` names one of `n` endpoints. */
  predicate InRange(order: seq<nat>, n: nat)
  {
    forall i :: 0 <= i < |order| ==> order[i] < n
  }

  /** The endpoints in the order their callbacks arrived. */
  function Arrange<T>(endpoints: seq<T>, order: seq<nat>): (r: seq<T>)
    requires InRange(order, |endpoints|)
    ensures |r| == |order|
    ensures forall i :: 0 <= i < |order| ==> r[i] == endpoints[order[i]]
  {
    if order == [] then [] else [endpoints[order[0]]] + Arrange(endpoints, order[1..])
  }

  /** 0, 1, ..., n - 1: the callbacks arriving in endpoint order. */
  function Indices(n: nat): (r: seq<nat>)
    ensures |r| == n
    ensures forall i :: 0 <= i < n ==> r[i] == i
  {
    if n == 0 then [] else Indices(n - 1) + [n - 1]
  }

  function TransportOf(c: NotaryConfig, order: seq<nat>): TransportForm
    requires InRange(order, |c.physicalNotaries|)
  {
    TransportForm(c.name, c.enabled, c.priority, c.bundleLocation, c.region, Arrange(c.physicalNotaries, order))
  }

  /** The settings the `Notary(serialized)` constructor copies out of a transport record. */
  function ConfigFromTransport(t: TransportForm): NotaryConfig
  {
    NotaryConfig(t.name, t.region, t.bundleLocation, t.enabled, t.priority, t.physicalNotaries)
  }

  /** Reordering distributes over concatenated orders. */
  lemma ArrangeConcat<T>(endpoints: seq<T>, a: seq<nat>, b: seq<nat>)
    requires InRange(a, |endpoints|)
    requires InRange(b, |endpoints|)
    ensures InRange(a + b, |endpoints|)
    ensures Arrange(endpoints, a + b) == Arrange(endpoints, a) + Arrange(endpoints, b)
  {
    assert forall i :: 0 <= i < |a + b| ==> (a + b)[i] == if i < |a| then a[i] else b[i - |a|];
  }

  /** Removing the same element from two sequences with equal multisets
      leaves equal multisets. */
  lemma RemoveMatching(o1: seq<nat>, o2: seq<nat>, j: nat)
    requires |o1| > 0 && j < |o2| && o2[j] == o1[0]
    requires multiset(o1) == multiset(o2)
    ensures multiset(o1[1..]) == multiset(o2[..j] + o2[j + 1..])
  {
    var x := o1[0];
    assert o1 == [x] + o1[1..];
    assert o2 == o2[..j] + [x] + o2[j + 1..];
    assert multiset(o1) == multiset{x} + multiset(o1[1..]);
    assert multiset(o2) == multiset(o2[..j]) + multiset{x} + multiset(o2[j + 1..]);
    var rest := o2[..j] + o2[j + 1..];
    assert multiset(rest) == multiset(o2[..j]) + multiset(o2[j + 1..]);
    forall y ensures multiset(o1[1..])[y] == multiset(rest)[y] {
      assert multiset(o1)[y] == multiset{x}[y] + multiset(o1[1..])[y];
      assert multiset(o2)[y] == multiset{x}[y] + multiset(rest)[y];
    }
  }

  /** Taking one index out of the middle of an order takes its endpoint out
      of the reordered list. */
  lemma ArrangeWithout<T>(endpoints: seq<T>, before: seq<nat>, x: nat, after: seq<nat>)
    requires InRange(before, |endpoints|)
    requires InRange(after, |endpoints|)
    requires x < |endpoints|
    ensures InRange(before + after, |endpoints|)
    ensures InRange(before + ([x] + after), |endpoints|)
    ensures multiset(Arrange(endpoints, before + ([x] + after)))
         == multiset{endpoints[x]} + multiset(Arrange(endpoints, before + after))
  {
    ArrangeConcat(endpoints, before, after);
    ArrangeConcat(endpoints, [x], after);
    ArrangeConcat(endpoints, before, [x] + after);
    var b, a, e := Arrange(endpoints, before), Arrange(endpoints, after), endpoints[x];
    assert Arrange(endpoints, [x]) == [e];
    assert Arrange(endpoints, [x] + after) == [e] + a;
    assert Arrange(endpoints, before + ([x] + after)) == b + ([e] + a);
    MultisetMiddle(b, e, a);
  }

  /** An item inserted between two parts adds exactly that item to the multiset. */
  lemma MultisetMiddle<T>(b: seq<T>, e: T, a: seq<T>)
    ensures multiset(b + ([e] + a)) == multiset{e} + multiset(b + a)
  {
    assert multiset([e] + a) == multiset{e} + multiset(a);
    assert multiset(b + ([e] + a)) == multiset(b) + (multiset{e} + multiset(a));
    assert multiset(b + a) == multiset(b) + multiset(a);
  }

  /** Reordering by two orders holding the same indices yields the same endpoints. */
  lemma {:induction false} ArrangeSameIndices<T>(endpoints: seq<T>, o1: seq<nat>, o2: seq<nat>)
    requires InRange(o1, |endpoints|)
    requires InRange(o2, |endpoints|)
    requires multiset(o1) == multiset(o2)
    ensures multiset(Arrange(endpoints, o1)) == multiset(Arrange(endpoints, o2))
    decreases |o1|
  {
    if o1 == [] {
      assert o2 == [] by { assert |multiset(o2)| == 0; }
    } else {
      var x := o1[0];
      var j := FirstOccurrence(o2, x);
      RemoveMatching(o1, o2, j);
      ArrangeOmitting(endpoints, o2, j);
      ArrangeSameIndices(endpoints, o1[1..], o2[..j] + o2[j + 1..]);
      var rest := Arrange(endpoints, o1[1..]);
      assert Arrange(endpoints, o1) == [endpoints[x]] + rest;
      assert multiset([endpoints[x]] + rest) == multiset{endpoints[x]} + multiset(rest);
    }
  }

  /** A position at which `x` occurs in `o`, given that it occurs in `o`'s multiset. */
  lemma FirstOccurrence(o: seq<nat>, x: nat) returns (j: nat)
    requires x in multiset(o)
    ensures j < |o| && o[j] == x
  {
    j :| 0 <= j < |o| && o[j] == x;
  }

  /** ArrangeWithout at position `j` of an order. */
  lemma ArrangeOmitting<T>(endpoints: seq<T>, o: seq<nat>, j: nat)
    requires InRange(o, |endpoints|)
    requires j < |o|
    ensures InRange(o[..j] + o[j + 1..], |endpoints|)
    ensures multiset(Arrange(endpoints, o)) == multiset{endpoints[o[j]]} + multiset(Arrange(endpoints, o[..j] + o[j + 1..]))
  {
    assert o == o[..j] + ([o[j]] + o[j + 1..]);
    ArrangeWithout(endpoints, o[..j], o[j], o[j + 1..]);
  }

  /** When every endpoint calls back exactly once, the transport record
      holds every endpoint exactly once, whatever the arrival order. */
  lemma {:induction false} CallbacksPermuteEndpoints(endpoints: seq<PhysicalNotary>, order: seq<nat>)
    requires InRange(order, |endpoints|)
    requires multiset(order) == multiset(Indices(|endpoints|))
    ensures multiset(Arrange(endpoints, order)) == multiset(endpoints)
  {
    ArrangeSameIndices(endpoints, order, Indices(|endpoints|));
    assert Arrange(endpoints, Indices(|endpoints|)) == endpoints;
  }

  /** When the callbacks arrive in endpoint order, constructing a notary
      from the transport record restores the settings exactly. */
  lemma {:induction false} TransportRoundTrip(c: NotaryConfig)
    ensures ConfigFromTransport(TransportOf(c, Indices(|c.physicalNotaries|))) == c
  {
    assert Arrange(c.physicalNotaries, Indices(|c.physicalNotaries|)) == c.physicalNotaries;
  }
}
