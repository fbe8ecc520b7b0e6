/**
 * conversion_traits: encoding native containers as content-handler events, and decoding them
 * from a reader positioned at an array or object region.
 *
 * A native value is a tree whose inner nodes are the three container kinds the traits
 * specialise (vector-like, std::array<T, N>, map-like) and whose leaves go through the generic
 * fallback. The fallback's encoding (to_json followed by dump) is not part of this model: it is
 * a parameter `leafEvents` giving the events a leaf produces.
 *
 * The staj reader and its array and object iterators are modelled by RegionReader: the
 * elements (or key/value pairs) of the region, already decoded, and where fetching them fails.
 */
module Conversion {
  import opened Wrappers
  import ContentHandler
  import Exceptions
  import Options

  type Event = ContentHandler.Event
  type ErrorCode = Exceptions.ErrorCode

  /** A map-like container's entry: the key and the mapped value. */
  datatype Entry<L> = Entry(key: string, value: Value<L>)

  /** A native value: a leaf handled by the generic fallback, or one of the three container
      kinds. A FixedArray is an std::array whose N is the number of its items. */
  datatype Value<L> =
    | Scalar(leaf: L)
    | VectorLike(items: seq<Value<L>>)
    | FixedArray(items: seq<Value<L>>)
    | MapLike(entries: seq<Entry<L>>)

  // ---------------------------------------------------------------------------------------
  // Encoding: the events encode sends
  // ---------------------------------------------------------------------------------------

  const BeginArrayEvent: Event := ContentHandler.BeginArray(ContentHandler.NoTag, ContentHandler.NullContext)
  const EndArrayEvent: Event := ContentHandler.EndArray(ContentHandler.NullContext)
  const BeginObjectEvent: Event := ContentHandler.BeginObject(ContentHandler.NoTag, ContentHandler.NullContext)
  const EndObjectEvent: Event := ContentHandler.EndObject(ContentHandler.NullContext)

  function NameEvent(key: string): Event
  {
    ContentHandler.Name(key, ContentHandler.NullContext)
  }

  /** The events encode(v, writer) sends, in order. Both array kinds send begin_array, each
      item's events, end_array and flush; a map sends begin_object, the key's name and the
      value's events for each entry, end_object and flush. */
  function Events<L>(leafEvents: L -> seq<Event>, v: Value<L>): (es: seq<Event>)
    ensures !v.Scalar? ==> |es| >= 3 && es[|es| - 1] == ContentHandler.Flush
    ensures v.MapLike? ==> es[0] == BeginObjectEvent && es[|es| - 2] == EndObjectEvent
    ensures v.VectorLike? || v.FixedArray? ==> es[0] == BeginArrayEvent && es[|es| - 2] == EndArrayEvent
    decreases v
  {
    match v
    case Scalar(leaf) => leafEvents(leaf)
    case VectorLike(items) => [BeginArrayEvent] + ItemsEvents(leafEvents, items) + [EndArrayEvent, ContentHandler.Flush]
    case FixedArray(items) => [BeginArrayEvent] + ItemsEvents(leafEvents, items) + [EndArrayEvent, ContentHandler.Flush]
    case MapLike(entries) => [BeginObjectEvent] + EntriesEvents(leafEvents, entries) + [EndObjectEvent, ContentHandler.Flush]
  }

  /** The events of the items, one after the other in iteration order. */
  function ItemsEvents<L>(leafEvents: L -> seq<Event>, items: seq<Value<L>>): seq<Event>
    decreases items
  {
    if items == [] then []
    else ItemsEvents(leafEvents, items[..|items| - 1]) + Events(leafEvents, items[|items| - 1])
  }

  /** The events of the entries: for each, its name then its value's events. */
  function EntriesEvents<L>(leafEvents: L -> seq<Event>, entries: seq<Entry<L>>): seq<Event>
    decreases entries
  {
    if entries == [] then []
    else
      var e := entries[|entries| - 1];
      EntriesEvents(leafEvents, entries[..|entries| - 1]) + [NameEvent(e.key)] + Events(leafEvents, e.value)
  }

  /** One item more sends that item's events after those of the others. */
  lemma {:induction false} ItemsEventsSnoc<L>(leafEvents: L -> seq<Event>, items: seq<Value<L>>, x: Value<L>)
    ensures ItemsEvents(leafEvents, items + [x]) == ItemsEvents(leafEvents, items) + Events(leafEvents, x)
  {
    assert (items + [x])[..|items|] == items;
  }

  /** The items of a concatenation send the first part's events, then the second part's. */
  lemma {:induction false} ItemsEventsAppend<L>(leafEvents: L -> seq<Event>, a: seq<Value<L>>, b: seq<Value<L>>)
    ensures ItemsEvents(leafEvents, a + b) == ItemsEvents(leafEvents, a) + ItemsEvents(leafEvents, b)
    decreases |b|
  {
    if b == [] {
      assert a + b == a;
    } else {
      var c, x := b[..|b| - 1], b[|b| - 1];
      assert b == c + [x];
      assert a + b == (a + c) + [x];
      ItemsEventsSnoc(leafEvents, a + c, x);
      ItemsEventsSnoc(leafEvents, c, x);
      ItemsEventsAppend(leafEvents, a, c);
      var ea, ec, ex := ItemsEvents(leafEvents, a), ItemsEvents(leafEvents, c), Events(leafEvents, x);
      assert (ea + ec) + ex == ea + (ec + ex);
    }
  }

  lemma {:induction false} ItemsStep<L>(leafEvents: L -> seq<Event>, items: seq<Value<L>>, k: nat)
    requires k < |items|
    ensures ItemsEvents(leafEvents, items[..k + 1]) == ItemsEvents(leafEvents, items[..k]) + Events(leafEvents, items[k])
  {
    assert items[..k + 1] == items[..k] + [items[k]];
    ItemsEventsSnoc(leafEvents, items[..k], items[k]);
  }

  /** One entry more sends its name and its value's events after those of the others. */
  lemma {:induction false} EntriesEventsSnoc<L>(leafEvents: L -> seq<Event>, entries: seq<Entry<L>>, x: Entry<L>)
    ensures EntriesEvents(leafEvents, entries + [x])
         == EntriesEvents(leafEvents, entries) + ([NameEvent(x.key)] + Events(leafEvents, x.value))
  {
    assert (entries + [x])[..|entries|] == entries;
  }

  lemma {:induction false} EntriesStep<L>(leafEvents: L -> seq<Event>, entries: seq<Entry<L>>, k: nat)
    requires k < |entries|
    ensures EntriesEvents(leafEvents, entries[..k + 1])
         == EntriesEvents(leafEvents, entries[..k]) + ([NameEvent(entries[k].key)] + Events(leafEvents, entries[k].value))
  {
    assert entries[..k + 1] == entries[..k] + [entries[k]];
    EntriesEventsSnoc(leafEvents, entries[..k], entries[k]);
  }

  /** One more item sent: the events sent so far grow by that item's events. */
  lemma {:induction false} ItemsSent<L>(leafEvents: L -> seq<Event>, items: seq<Value<L>>, k: nat,
                                        before: seq<Event>, sent: seq<Event>)
    requires k < |items|
    requires sent == before + ItemsEvents(leafEvents, items[..k])
    ensures sent + Events(leafEvents, items[k]) == before + ItemsEvents(leafEvents, items[..k + 1])
  {
    ItemsStep(leafEvents, items, k);
  }

  /** One more entry sent: the events sent so far grow by its name and its value's events. */
  lemma {:induction false} EntriesSent<L>(leafEvents: L -> seq<Event>, entries: seq<Entry<L>>, k: nat,
                                          before: seq<Event>, sent: seq<Event>)
    requires k < |entries|
    requires sent == before + EntriesEvents(leafEvents, entries[..k])
    ensures sent + ([NameEvent(entries[k].key)] + Events(leafEvents, entries[k].value))
         == before + EntriesEvents(leafEvents, entries[..k + 1])
  {
    EntriesStep(leafEvents, entries, k);
  }

  /** Item i's events come right after those of the items before it and right before those
      of the items after it: N items give N encodings in index order. */
  lemma {:induction false} ItemInPlace<L>(leafEvents: L -> seq<Event>, items: seq<Value<L>>, i: nat)
    requires i < |items|
    ensures ItemsEvents(leafEvents, items)
         == ItemsEvents(leafEvents, items[..i]) + Events(leafEvents, items[i]) + ItemsEvents(leafEvents, items[i + 1..])
  {
    assert items == items[..i + 1] + items[i + 1..];
    ItemsEventsAppend(leafEvents, items[..i + 1], items[i + 1..]);
    assert items[..i + 1][..i] == items[..i];
  }

  /** The entries of a concatenation send the first part's events, then the second part's. */
  lemma {:induction false} EntriesEventsAppend<L>(leafEvents: L -> seq<Event>, a: seq<Entry<L>>, b: seq<Entry<L>>)
    ensures EntriesEvents(leafEvents, a + b) == EntriesEvents(leafEvents, a) + EntriesEvents(leafEvents, b)
    decreases |b|
  {
    if b == [] {
      assert a + b == a;
    } else {
      var c, x := b[..|b| - 1], b[|b| - 1];
      assert b == c + [x];
      assert a + b == (a + c) + [x];
      EntriesEventsSnoc(leafEvents, a + c, x);
      EntriesEventsSnoc(leafEvents, c, x);
      EntriesEventsAppend(leafEvents, a, c);
      var ea, ec, ex := EntriesEvents(leafEvents, a), EntriesEvents(leafEvents, c), [NameEvent(x.key)] + Events(leafEvents, x.value);
      assert (ea + ec) + ex == ea + (ec + ex);
    }
  }

  /** Entry i sends its name and then its value's events, after the entries before it and
      before the entries after it. */
  lemma {:induction false} EntryInPlace<L>(leafEvents: L -> seq<Event>, entries: seq<Entry<L>>, i: nat)
    requires i < |entries|
    ensures EntriesEvents(leafEvents, entries)
         == EntriesEvents(leafEvents, entries[..i]) + [NameEvent(entries[i].key)]
            + Events(leafEvents, entries[i].value) + EntriesEvents(leafEvents, entries[i + 1..])
  {
    assert entries == entries[..i + 1] + entries[i + 1..];
    EntriesEventsAppend(leafEvents, entries[..i + 1], entries[i + 1..]);
    assert entries[..i + 1][..i] == entries[..i];
  }

  // ---------------------------------------------------------------------------------------
  // Every container frames itself: one begin, one end and one flush each
  // ---------------------------------------------------------------------------------------

  predicate IsOpen(e: Event)
  {
    e.BeginArray? || e.BeginObject?
  }

  predicate IsClose(e: Event)
  {
    e.EndArray? || e.EndObject?
  }

  predicate IsFlush(e: Event)
  {
    e.Flush?
  }

  /** A leaf encoding made of scalar events only. */
  predicate ScalarEvents(es: seq<Event>)
  {
    forall i :: 0 <= i < |es| ==> !IsOpen(es[i]) && !IsClose(es[i]) && !IsFlush(es[i])
  }

  /** A leaf encoding that begins and ends no container; it may flush. */
  predicate Unbracketed(es: seq<Event>)
  {
    forall i :: 0 <= i < |es| ==> !IsOpen(es[i]) && !IsClose(es[i])
  }

  /** How many events satisfy p. */
  function Count(p: Event -> bool, es: seq<Event>): nat
    decreases |es|
  {
    if es == [] then 0 else Count(p, es[..|es| - 1]) + (if p(es[|es| - 1]) then 1 else 0)
  }

  lemma {:induction false} CountAppend(p: Event -> bool, a: seq<Event>, b: seq<Event>)
    ensures Count(p, a + b) == Count(p, a) + Count(p, b)
    decreases |b|
  {
    if b == [] {
      assert a + b == a;
    } else {
      CountAppend(p, a, b[..|b| - 1]);
      assert (a + b)[..|a + b| - 1] == a + b[..|b| - 1];
    }
  }

  lemma {:induction false} CountOne(p: Event -> bool, e: Event)
    ensures Count(p, [e]) == if p(e) then 1 else 0
  {
    assert [e][..0] == [];
  }

  lemma {:induction false} CountNone(p: Event -> bool, es: seq<Event>)
    requires forall i :: 0 <= i < |es| ==> !p(es[i])
    ensures Count(p, es) == 0
    decreases |es|
  {
    if es != [] {
      CountNone(p, es[..|es| - 1]);
    }
  }

  /** The number of containers in a value, nested ones included. */
  function Containers<L>(v: Value<L>): nat
    decreases v
  {
    match v
    case Scalar(_) => 0
    case VectorLike(items) => 1 + ItemsContainers(items)
    case FixedArray(items) => 1 + ItemsContainers(items)
    case MapLike(entries) => 1 + EntriesContainers(entries)
  }

  function ItemsContainers<L>(items: seq<Value<L>>): nat
    decreases items
  {
    if items == [] then 0 else ItemsContainers(items[..|items| - 1]) + Containers(items[|items| - 1])
  }

  function EntriesContainers<L>(entries: seq<Entry<L>>): nat
    decreases entries
  {
    if entries == [] then 0 else EntriesContainers(entries[..|entries| - 1]) + Containers(entries[|entries| - 1].value)
  }

  /** The flushes the leaves of a value send on their own: none when no leaf flushes. */
  function LeafFlushes<L(!new)>(leafEvents: L -> seq<Event>, v: Value<L>): (f: nat)
    ensures (forall l :: Count(IsFlush, leafEvents(l)) == 0) ==> f == 0
    decreases v
  {
    match v
    case Scalar(leaf) => Count(IsFlush, leafEvents(leaf))
    case VectorLike(items) => ItemsLeafFlushes(leafEvents, items)
    case FixedArray(items) => ItemsLeafFlushes(leafEvents, items)
    case MapLike(entries) => EntriesLeafFlushes(leafEvents, entries)
  }

  function ItemsLeafFlushes<L(!new)>(leafEvents: L -> seq<Event>, items: seq<Value<L>>): (f: nat)
    ensures (forall l :: Count(IsFlush, leafEvents(l)) == 0) ==> f == 0
    decreases items
  {
    if items == [] then 0
    else ItemsLeafFlushes(leafEvents, items[..|items| - 1]) + LeafFlushes(leafEvents, items[|items| - 1])
  }

  function EntriesLeafFlushes<L(!new)>(leafEvents: L -> seq<Event>, entries: seq<Entry<L>>): (f: nat)
    ensures (forall l :: Count(IsFlush, leafEvents(l)) == 0) ==> f == 0
    decreases entries
  {
    if entries == [] then 0
    else EntriesLeafFlushes(leafEvents, entries[..|entries| - 1]) + LeafFlushes(leafEvents, entries[|entries| - 1].value)
  }

  /** The three counts of an event sequence that framing is about: n begins, n ends, and
      n flushes besides the f that leaves send. */
  predicate Framed(es: seq<Event>, n: nat, f: nat)
  {
    Count(IsOpen, es) == n && Count(IsClose, es) == n && Count(IsFlush, es) == n + f
  }

  lemma {:induction false} FramedAppend(a: seq<Event>, m: nat, f: nat, b: seq<Event>, n: nat, g: nat)
    requires Framed(a, m, f) && Framed(b, n, g)
    ensures Framed(a + b, m + n, f + g)
  {
    CountAppend(IsOpen, a, b);
    CountAppend(IsClose, a, b);
    CountAppend(IsFlush, a, b);
  }

  /** When leaves begin and end no container, encode sends exactly one begin and one end per
      container, and one flush per container besides the leaves' own: nested containers each
      flush on their own. */
  lemma {:induction false} EncodeFramesContainers<L(!new)>(leafEvents: L -> seq<Event>, v: Value<L>)
    requires forall l :: Unbracketed(leafEvents(l))
    ensures Framed(Events(leafEvents, v), Containers(v), LeafFlushes(leafEvents, v))
    decreases v
  {
    match v
    case Scalar(leaf) =>
      var es := leafEvents(leaf);
      assert Unbracketed(es);
      CountNone(IsOpen, es);
      CountNone(IsClose, es);
    case VectorLike(items) =>
      ItemsFrameContainers(leafEvents, items);
      WrapFramed(BeginArrayEvent, ItemsEvents(leafEvents, items), ItemsContainers(items), ItemsLeafFlushes(leafEvents, items), EndArrayEvent);
    case FixedArray(items) =>
      ItemsFrameContainers(leafEvents, items);
      WrapFramed(BeginArrayEvent, ItemsEvents(leafEvents, items), ItemsContainers(items), ItemsLeafFlushes(leafEvents, items), EndArrayEvent);
    case MapLike(entries) =>
      EntriesFrameContainers(leafEvents, entries);
      WrapFramed(BeginObjectEvent, EntriesEvents(leafEvents, entries), EntriesContainers(entries), EntriesLeafFlushes(leafEvents, entries), EndObjectEvent);
  }

  /** When leaves send scalar events only, every flush is a container's own. */
  lemma {:induction false} ScalarLeavesFlushPerContainer<L(!new)>(leafEvents: L -> seq<Event>, v: Value<L>)
    requires forall l :: ScalarEvents(leafEvents(l))
    ensures Framed(Events(leafEvents, v), Containers(v), 0)
  {
    forall l
      ensures Unbracketed(leafEvents(l)) && Count(IsFlush, leafEvents(l)) == 0
    {
      CountNone(IsFlush, leafEvents(l));
    }
    EncodeFramesContainers(leafEvents, v);
  }

  /** Wrapping a framed sequence in a begin, an end and a flush frames one more container. */
  lemma {:induction false} WrapFramed(begin: Event, body: seq<Event>, n: nat, f: nat, end: Event)
    requires IsOpen(begin) && IsClose(end)
    requires Framed(body, n, f)
    ensures Framed([begin] + body + [end, ContentHandler.Flush], n + 1, f)
  {
    var tail: seq<Event> := [end, ContentHandler.Flush];
    CountOne(IsOpen, begin);
    CountOne(IsClose, begin);
    CountOne(IsFlush, begin);
    CountOne(IsOpen, end);
    CountOne(IsClose, end);
    CountOne(IsFlush, end);
    CountOne(IsOpen, ContentHandler.Flush);
    CountOne(IsClose, ContentHandler.Flush);
    CountOne(IsFlush, ContentHandler.Flush);
    assert tail == [end] + [ContentHandler.Flush];
    CountAppend(IsOpen, [end], [ContentHandler.Flush]);
    CountAppend(IsClose, [end], [ContentHandler.Flush]);
    CountAppend(IsFlush, [end], [ContentHandler.Flush]);
    CountAppend(IsOpen, [begin], body);
    CountAppend(IsClose, [begin], body);
    CountAppend(IsFlush, [begin], body);
    CountAppend(IsOpen, [begin] + body, tail);
    CountAppend(IsClose, [begin] + body, tail);
    CountAppend(IsFlush, [begin] + body, tail);
  }

  lemma {:induction false} ItemsFrameContainers<L(!new)>(leafEvents: L -> seq<Event>, items: seq<Value<L>>)
    requires forall l :: Unbracketed(leafEvents(l))
    ensures Framed(ItemsEvents(leafEvents, items), ItemsContainers(items), ItemsLeafFlushes(leafEvents, items))
    decreases items
  {
    if items != [] {
      var init, last := items[..|items| - 1], items[|items| - 1];
      ItemsFrameContainers(leafEvents, init);
      EncodeFramesContainers(leafEvents, last);
      FramedAppend(ItemsEvents(leafEvents, init), ItemsContainers(init), ItemsLeafFlushes(leafEvents, init),
                   Events(leafEvents, last), Containers(last), LeafFlushes(leafEvents, last));
    }
  }

  lemma {:induction false} EntriesFrameContainers<L(!new)>(leafEvents: L -> seq<Event>, entries: seq<Entry<L>>)
    requires forall l :: Unbracketed(leafEvents(l))
    ensures Framed(EntriesEvents(leafEvents, entries), EntriesContainers(entries), EntriesLeafFlushes(leafEvents, entries))
    decreases entries
  {
    if entries != [] {
      var init, last := entries[..|entries| - 1], entries[|entries| - 1];
      var before := EntriesEvents(leafEvents, init);
      var n, f := EntriesContainers(init), EntriesLeafFlushes(leafEvents, init);
      EntriesFrameContainers(leafEvents, init);
      EncodeFramesContainers(leafEvents, last.value);
      CountOne(IsOpen, NameEvent(last.key));
      CountOne(IsClose, NameEvent(last.key));
      CountOne(IsFlush, NameEvent(last.key));
      FramedAppend(before, n, f, [NameEvent(last.key)], 0, 0);
      FramedAppend(before + [NameEvent(last.key)], n, f,
                   Events(leafEvents, last.value), Containers(last.value), LeafFlushes(leafEvents, last.value));
    }
  }

  // ---------------------------------------------------------------------------------------
  // Encoding: the methods that send the events
  // ---------------------------------------------------------------------------------------

  /** encode / encode_stream: dispatch on the kind of value. The handler's replies are
      ignored: what the writer receives does not depend on them. */
  method Encode<L>(leafEvents: L -> seq<Event>, v: Value<L>, writer: ContentHandler.Handler)
    modifies writer`trace
    ensures writer.trace == old(writer.trace) + writer.impl.Kept(Events(leafEvents, v))
    decreases v
  {
    match v
    case Scalar(leaf) => EncodeFallback(leafEvents, leaf, writer);
    case VectorLike(items) => EncodeVector(leafEvents, items, writer);
    case FixedArray(items) => EncodeArray(leafEvents, items, writer);
    case MapLike(entries) => EncodeMap(leafEvents, entries, writer);
  }

  /** The generic fallback's encode: the leaf's events, one after the other. */
  method EncodeFallback<L>(leafEvents: L -> seq<Event>, leaf: L, writer: ContentHandler.Handler)
    modifies writer`trace
    ensures writer.trace == old(writer.trace) + writer.impl.Kept(leafEvents(leaf))
  {
    var es := leafEvents(leaf);
    for k := 0 to |es|
      invariant writer.trace == old(writer.trace) + writer.impl.Kept(es[..k])
    {
      var _ := writer.Do(es[k]);
      assert es[..k + 1] == es[..k] + [es[k]];
    }
    assert es[..|es|] == es;
  }

  /** The element loop of the array encoders: each item's events, in order, after what was
      sent before. */
  method EncodeItems<L>(leafEvents: L -> seq<Event>, items: seq<Value<L>>, writer: ContentHandler.Handler,
                        ghost start: seq<Event>, ghost before: seq<Event>)
    requires writer.trace == start + writer.impl.Kept(before)
    modifies writer`trace
    ensures writer.trace == start + writer.impl.Kept(before + ItemsEvents(leafEvents, items))
    decreases items, 0
  {
    ghost var sent := before;
    for k := 0 to |items|
      invariant sent == before + ItemsEvents(leafEvents, items[..k])
      invariant writer.trace == start + writer.impl.Kept(sent)
    {
      Encode(leafEvents, items[k], writer);
      KeptOne(writer.impl, start, sent, Events(leafEvents, items[k]));
      ItemsSent(leafEvents, items, k, before, sent);
      sent := sent + Events(leafEvents, items[k]);
    }
    assert items[..|items|] == items;
  }

  /** Vector-like encode: begin_array, every item in iteration order, end_array, flush. */
  method EncodeVector<L>(leafEvents: L -> seq<Event>, items: seq<Value<L>>, writer: ContentHandler.Handler)
    modifies writer`trace
    ensures writer.trace == old(writer.trace) + writer.impl.Kept(Events(leafEvents, VectorLike(items)))
    decreases items, 1
  {
    ghost var start := writer.trace;
    var _ := writer.EmitBeginArray();
    EncodeItems(leafEvents, items, writer, start, [BeginArrayEvent]);
    var _ := writer.EmitEndArray();
    writer.EmitFlush();
    KeptStep(writer.impl, start, [BeginArrayEvent] + ItemsEvents(leafEvents, items), [EndArrayEvent], [ContentHandler.Flush]);
  }

  /** std::array encode: begin_array, the N items in index order, end_array, flush. */
  method EncodeArray<L>(leafEvents: L -> seq<Event>, items: seq<Value<L>>, writer: ContentHandler.Handler)
    modifies writer`trace
    ensures writer.trace == old(writer.trace) + writer.impl.Kept(Events(leafEvents, FixedArray(items)))
    decreases items, 1
  {
    ghost var start := writer.trace;
    var _ := writer.EmitBeginArray();
    EncodeItems(leafEvents, items, writer, start, [BeginArrayEvent]);
    var _ := writer.EmitEndArray();
    writer.EmitFlush();
    KeptStep(writer.impl, start, [BeginArrayEvent] + ItemsEvents(leafEvents, items), [EndArrayEvent], [ContentHandler.Flush]);
  }

  /** A batch of events sent after `sent` leaves the trace as if it had been sent with it. */
  lemma {:induction false} KeptOne(impl: ContentHandler.Implementation, start: seq<Event>, sent: seq<Event>,
                                   more: seq<Event>)
    ensures start + impl.Kept(sent) + impl.Kept(more) == start + impl.Kept(sent + more)
  {
    if impl.Recording? {
      assert start + sent + more == start + (sent + more);
    } else {
      assert start + [] + [] == start;
    }
  }

  /** Two batches of events sent after `sent` leave the trace as if both had been sent with it. */
  lemma {:induction false} KeptStep(impl: ContentHandler.Implementation, start: seq<Event>, sent: seq<Event>,
                                    more: seq<Event>, rest: seq<Event>)
    ensures start + impl.Kept(sent) + impl.Kept(more) + impl.Kept(rest) == start + impl.Kept(sent + (more + rest))
  {
    if impl.Recording? {
      assert start + sent + more + rest == start + (sent + (more + rest));
    } else {
      assert start + [] + [] + [] == start;
    }
  }

  /** The entry loop of the map encoder: for each entry its name, then its value's events. */
  method EncodeEntries<L>(leafEvents: L -> seq<Event>, entries: seq<Entry<L>>, writer: ContentHandler.Handler,
                          ghost start: seq<Event>, ghost before: seq<Event>)
    requires writer.trace == start + writer.impl.Kept(before)
    modifies writer`trace
    ensures writer.trace == start + writer.impl.Kept(before + EntriesEvents(leafEvents, entries))
    decreases entries, 0
  {
    ghost var sent := before;
    for k := 0 to |entries|
      invariant sent == before + EntriesEvents(leafEvents, entries[..k])
      invariant writer.trace == start + writer.impl.Kept(sent)
    {
      var _ := writer.EmitName(entries[k].key);
      Encode(leafEvents, entries[k].value, writer);
      KeptStep(writer.impl, start, sent, [NameEvent(entries[k].key)], Events(leafEvents, entries[k].value));
      EntriesSent(leafEvents, entries, k, before, sent);
      sent := sent + ([NameEvent(entries[k].key)] + Events(leafEvents, entries[k].value));
    }
    assert entries[..|entries|] == entries;
  }

  /** Map-like encode: begin_object, for each entry its name then its value, end_object,
      flush. */
  method EncodeMap<L>(leafEvents: L -> seq<Event>, entries: seq<Entry<L>>, writer: ContentHandler.Handler)
    modifies writer`trace
    ensures writer.trace == old(writer.trace) + writer.impl.Kept(Events(leafEvents, MapLike(entries)))
    decreases entries, 1
  {
    ghost var start := writer.trace;
    var _ := writer.EmitBeginObject();
    EncodeEntries(leafEvents, entries, writer, start, [BeginObjectEvent]);
    var _ := writer.EmitEndObject();
    writer.EmitFlush();
    KeptStep(writer.impl, start, [BeginObjectEvent] + EntriesEvents(leafEvents, entries), [EndObjectEvent], [ContentHandler.Flush]);
  }

  // ---------------------------------------------------------------------------------------
  // Decoding: the reader and its iterators
  // ---------------------------------------------------------------------------------------

  /** Fetching element `at` of the region (or its end, when `at` is the number of elements)
      fails with `code`. */
  datatype Failure = Failure(at: nat, code: ErrorCode)

  function Min(a: nat, b: nat): nat
  {
    if a <= b then a else b
  }

  /** A staj reader positioned at an array region (elements of type T) or an object region
      (T a key/value pair). An iterator over the region fetches element 0 when it is
      constructed and the next one on each increment; a fetch at index |elements| reaches the
      end of the region. `line` and `column` are what the reader's context reports once
      decoding stops. */
  class RegionReader<T> {
    const elements: seq<T>
    const failure: Option<Failure>
    const line: Options.SizeT
    const column: Options.SizeT
    /** How many fetches the iterators have made. */
    var fetched: nat

    constructor (elements: seq<T>, failure: Option<Failure>, line: Options.SizeT, column: Options.SizeT)
      ensures this.elements == elements && this.failure == failure
      ensures this.line == line && this.column == column && fetched == 0
    {
      this.elements, this.failure := elements, failure;
      this.line, this.column := line, column;
      fetched := 0;
    }

    /** The error code fetch number i sets, if any. */
    function FetchError(i: nat): Option<ErrorCode>
    {
      if failure.Some? && failure.value.at == i then Some(failure.value.code) else None
    }

    /** The error code a reader that fetches up to index k meets, if any. */
    function ErrorWithin(k: nat): Option<ErrorCode>
    {
      if failure.Some? && failure.value.at <= k then Some(failure.value.code) else None
    }

    /** How many elements can be fetched before a failure. */
    function Available(): nat
    {
      if failure.Some? && failure.value.at < |elements| then failure.value.at else |elements|
    }

    /** The iterator is equal to the end iterator: it has fetched past the last element. */
    predicate AtEnd()
      reads this
    {
      fetched > |elements|
    }

    /** *it: the element the iterator stands on. */
    function Current(): T
      reads this
      requires 0 < fetched <= |elements|
    {
      elements[fetched - 1]
    }

    /** Constructing an iterator fetches the first element. */
    method Open() returns (ec: Option<ErrorCode>)
      requires fetched == 0
      modifies this`fetched
      ensures fetched == 1 && ec == FetchError(0)
    {
      fetched := 1;
      ec := FetchError(0);
    }

    /** it.increment(ec) fetches the next element. */
    method Increment() returns (ec: Option<ErrorCode>)
      modifies this`fetched
      ensures fetched == old(fetched) + 1 && ec == FetchError(old(fetched))
    {
      ec := FetchError(fetched);
      fetched := fetched + 1;
    }
  }

  /** Loop invariant of the decoders: the iterator stands on element pos = fetched - 1, no
      fetch before it failed, and ec holds what the last fetch set. */
  ghost predicate Fetching<T>(reader: RegionReader<T>, ec: Option<ErrorCode>)
    reads reader
  {
    1 <= reader.fetched <= reader.Available() + 1
    && (reader.failure.Some? ==> reader.failure.value.at >= reader.fetched - 1)
    && ec == reader.FetchError(reader.fetched - 1)
  }

  /** When the iterator stops, by reaching the end or on an error, it has fetched up to the
      last available element, and ec says whether a fetch failed. */
  lemma {:induction false} FetchingStops<T>(reader: RegionReader<T>, ec: Option<ErrorCode>, limit: nat)
    requires Fetching(reader, ec)
    requires reader.fetched - 1 <= limit
    requires reader.AtEnd() || ec.Some? || reader.fetched - 1 == limit
    ensures reader.fetched - 1 == Min(limit, reader.Available())
    ensures ec == reader.ErrorWithin(reader.fetched - 1)
  {
  }

  // ---------------------------------------------------------------------------------------
  // Decoding: the three container kinds
  // ---------------------------------------------------------------------------------------

  /** Vector-like decode (and decode_stream with an error code): push_back each element in
      source order until the end or the first error. On error the elements decoded so far are
      returned. */
  method DecodeVector<T>(reader: RegionReader<T>) returns (v: seq<T>, ec: Option<ErrorCode>)
    requires reader.fetched == 0
    modifies reader`fetched
    ensures v == reader.elements[..reader.Available()]
    ensures ec == reader.ErrorWithin(|reader.elements|)
    ensures reader.fetched == reader.Available() + 1
  {
    v := [];
    ec := reader.Open();
    while !reader.AtEnd() && ec.None?
      invariant Fetching(reader, ec)
      invariant v == reader.elements[..reader.fetched - 1]
      decreases |reader.elements| - reader.fetched
    {
      v := v + [reader.Current()];
      ec := reader.Increment();
      assert reader.elements[..reader.fetched - 1] == reader.elements[..reader.fetched - 2] + [reader.elements[reader.fetched - 2]];
    }
    FetchingStops(reader, ec, |reader.elements|);
  }

  /** N copies of the default value after a decoded prefix. */
  function Filled<T>(prefix: seq<T>, n: nat, zero: T): (r: seq<T>)
    requires |prefix| <= n
    ensures |r| == n
    ensures forall j :: 0 <= j < n ==> r[j] == if j < |prefix| then prefix[j] else zero
  {
    prefix + seq(n - |prefix|, _ => zero)
  }

  /** std::array<T, N> decode: every slot starts as T{}, then the first min(M, N) slots get
      the decoded elements. After N elements the iterator stops; the rest of the region is
      never fetched. */
  method DecodeArray<T>(reader: RegionReader<T>, n: Options.SizeT, zero: T) returns (v: array<T>, ec: Option<ErrorCode>)
    requires reader.fetched == 0
    modifies reader`fetched
    ensures fresh(v) && v.Length == n
    ensures v[..] == Filled(reader.elements[..Min(n, reader.Available())], n, zero)
    ensures ec == reader.ErrorWithin(Min(n, reader.Available()))
    ensures reader.fetched == Min(n, reader.Available()) + 1
  {
    v := new T[n](_ => zero);
    ec := reader.Open();
    var i := 0;
    while !reader.AtEnd() && i < n && ec.None?
      invariant Fetching(reader, ec)
      invariant i == reader.fetched - 1 <= n
      invariant forall j :: 0 <= j < i ==> v[j] == reader.elements[j]
      invariant forall j :: i <= j < n ==> v[j] == zero
      decreases n - i
    {
      v[i] := reader.Current();
      ec := reader.Increment();
      i := i + 1;
    }
    FetchingStops(reader, ec, n);
    assert v[..] == Filled(reader.elements[..i], n, zero);
  }

  /** The map emplace builds from pairs in order: a key already present keeps its value. */
  function Emplaced<V>(pairs: seq<(string, V)>): (r: map<string, V>)
    ensures |r| <= |pairs|
    ensures pairs != [] ==> pairs[0].0 in r && r[pairs[0].0] == pairs[0].1
    decreases |pairs|
  {
    if pairs == [] then map[]
    else
      var m := Emplaced(pairs[..|pairs| - 1]);
      var p := pairs[|pairs| - 1];
      if p.0 in m then m else m[p.0 := p.1]
  }

  /** The keys of the result are exactly the keys of the pairs. */
  lemma {:induction false} EmplacedKeys<V>(pairs: seq<(string, V)>)
    ensures Emplaced(pairs).Keys == set i | 0 <= i < |pairs| :: pairs[i].0
    decreases |pairs|
  {
    if pairs != [] {
      var init := pairs[..|pairs| - 1];
      EmplacedKeys(init);
      assert forall i :: 0 <= i < |init| ==> init[i] == pairs[i];
      var keys := set i | 0 <= i < |pairs| :: pairs[i].0;
      var initKeys := set i | 0 <= i < |init| :: init[i].0;
      assert keys == initKeys + {pairs[|pairs| - 1].0};
    }
  }

  /** The first of the pairs with a key is the one whose value the map keeps. */
  lemma {:induction false} EmplaceKeepsFirst<V>(pairs: seq<(string, V)>, i: nat)
    requires i < |pairs|
    requires forall j :: 0 <= j < i ==> pairs[j].0 != pairs[i].0
    ensures pairs[i].0 in Emplaced(pairs) && Emplaced(pairs)[pairs[i].0] == pairs[i].1
    decreases |pairs|
  {
    var init := pairs[..|pairs| - 1];
    if i < |pairs| - 1 {
      assert forall j :: 0 <= j < i ==> init[j] == pairs[j];
      EmplaceKeepsFirst(init, i);
    } else {
      EmplacedKeys(init);
      assert pairs[i].0 !in Emplaced(init);
    }
  }

  /** Map-like decode: emplace each key/value pair in source order, so that for a repeated
      key the first value stays; stops at the end or on the first error, keeping what was
      inserted. */
  method DecodeMap<V>(reader: RegionReader<(string, V)>) returns (m: map<string, V>, ec: Option<ErrorCode>)
    requires reader.fetched == 0
    modifies reader`fetched
    ensures m == Emplaced(reader.elements[..reader.Available()])
    ensures ec == reader.ErrorWithin(|reader.elements|)
    ensures reader.fetched == reader.Available() + 1
  {
    m := map[];
    ec := reader.Open();
    while !reader.AtEnd() && ec.None?
      invariant Fetching(reader, ec)
      invariant m == Emplaced(reader.elements[..reader.fetched - 1])
      decreases |reader.elements| - reader.fetched
    {
      var p := reader.Current();
      if p.0 !in m {
        m := m[p.0 := p.1];
      }
      ghost var k := reader.fetched;
      ec := reader.Increment();
      assert reader.elements[..k][..k - 1] == reader.elements[..k - 1];
    }
    FetchingStops(reader, ec, |reader.elements|);
  }

  // ---------------------------------------------------------------------------------------
  // decode_stream without an error code: the error becomes a serialization_error
  // ---------------------------------------------------------------------------------------

  /** decode_stream(reader, val) for a vector-like val: val is assigned the decoded (perhaps
      partial) vector, and a serialization_error carrying the reader's line and column is
      thrown (returned here) exactly when the error code was set. */
  method DecodeVectorOrThrow<T>(reader: RegionReader<T>) returns (val: seq<T>, thrown: Exceptions.SerializationError?)
    requires reader.fetched == 0
    modifies reader`fetched
    ensures val == reader.elements[..reader.Available()]
    ensures thrown == null <==> reader.ErrorWithin(|reader.elements|).None?
    ensures thrown != null ==> fresh(thrown) && Some(thrown.code) == reader.ErrorWithin(|reader.elements|)
                               && thrown.line == reader.line && thrown.column == reader.column
  {
    var ec;
    val, ec := DecodeVector(reader);
    thrown := null;
    if ec.Some? {
      thrown := new Exceptions.SerializationError.AtLineColumn(ec.value, reader.line, reader.column);
    }
  }

  /** decode_stream(reader, val) for an std::array<T, N>. */
  method DecodeArrayOrThrow<T>(reader: RegionReader<T>, n: Options.SizeT, zero: T)
    returns (val: array<T>, thrown: Exceptions.SerializationError?)
    requires reader.fetched == 0
    modifies reader`fetched
    ensures fresh(val) && val[..] == Filled(reader.elements[..Min(n, reader.Available())], n, zero)
    ensures thrown == null <==> reader.ErrorWithin(Min(n, reader.Available())).None?
    ensures thrown != null ==> fresh(thrown) && Some(thrown.code) == reader.ErrorWithin(Min(n, reader.Available()))
                               && thrown.line == reader.line && thrown.column == reader.column
  {
    var ec;
    val, ec := DecodeArray(reader, n, zero);
    thrown := null;
    if ec.Some? {
      thrown := new Exceptions.SerializationError.AtLineColumn(ec.value, reader.line, reader.column);
    }
  }

  /** decode_stream(reader, val) for a map-like val. */
  method DecodeMapOrThrow<V>(reader: RegionReader<(string, V)>) returns (val: map<string, V>, thrown: Exceptions.SerializationError?)
    requires reader.fetched == 0
    modifies reader`fetched
    ensures val == Emplaced(reader.elements[..reader.Available()])
    ensures thrown == null <==> reader.ErrorWithin(|reader.elements|).None?
    ensures thrown != null ==> fresh(thrown) && Some(thrown.code) == reader.ErrorWithin(|reader.elements|)
                               && thrown.line == reader.line && thrown.column == reader.column
  {
    var ec;
    val, ec := DecodeMap(reader);
    thrown := null;
    if ec.Some? {
      thrown := new Exceptions.SerializationError.AtLineColumn(ec.value, reader.line, reader.column);
    }
  }
}
