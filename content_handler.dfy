/**
 * json_content_handler: the push interface through which parsers and encoders report JSON
 * content. Its public emitters forward, with a preset or defaulted semantic tag, to a small
 * set of primitive do_* events that an implementation provides; null_json_content_handler
 * accepts every event and does nothing.
 *
 * The virtual do_* members are modelled by one class whose `impl` says which implementation
 * answers: a recording handler, which appends every primitive event to `trace` and answers
 * with a chosen function of the events before it and the event, or the null handler.
 */
module ContentHandler {
  import Utilities
  import Options

  type Int64 = x: int | -0x8000_0000_0000_0000 <= x < 0x8000_0000_0000_0000

  type UInt64 = x: int | 0 <= x < 0x1_0000_0000_0000_0000

  /** A double, carried as its 64-bit pattern: no event interprets it. */
  datatype Double = Double(bits: UInt64)

  /** semantic_tag_type, in declared order. */
  datatype SemanticTag =
    | NoTag | Undefined | DateTime | Timestamp | BigInteger | BigDecimal
    | Base16 | Base64 | Base64Url | Uri | BigFloat

  /** The uint8_t value of a tag. */
  function TagValue(t: SemanticTag): (v: nat)
    ensures v < 11
    ensures t == NoTag <==> v == 0
  {
    match t
    case NoTag => 0
    case Undefined => 1
    case DateTime => 2
    case Timestamp => 3
    case BigInteger => 4
    case BigDecimal => 5
    case Base16 => 6
    case Base64 => 7
    case Base64Url => 8
    case Uri => 9
    case BigFloat => 10
  }

  /** The tag with a given uint8_t value. */
  function TagOf(v: nat): SemanticTag
    requires v < 11
  {
    [NoTag, Undefined, DateTime, Timestamp, BigInteger, BigDecimal, Base16, Base64, Base64Url, Uri, BigFloat][v]
  }

  /** The eleven tags and the values 0 to 10 correspond one to one, in declared order. */
  lemma {:induction false} TagValuesExact(t: SemanticTag, v: nat)
    requires v < 11
    ensures TagOf(TagValue(t)) == t
    ensures TagValue(TagOf(v)) == v
  {
    var tags := [NoTag, Undefined, DateTime, Timestamp, BigInteger, BigDecimal, Base16, Base64, Base64Url, Uri, BigFloat];
    assert TagOf(v) == tags[v];
  }

  /** Where in the input an event comes from; null_serializing_context is the default. The
      content of serializing_context is not part of this model. */
  datatype Context = NullContext | SourceContext(id: nat)

  /** The primitive do_* events. The length-hinted do_begin_object and do_begin_array have no
      event of their own: by default they forward to the un-hinted one. */
  datatype Event =
    | Flush
    | BeginObject(tag: SemanticTag, context: Context)
    | EndObject(context: Context)
    | BeginArray(tag: SemanticTag, context: Context)
    | EndArray(context: Context)
    | Name(name: string, context: Context)
    | NullValue(tag: SemanticTag, context: Context)
    | StringValue(text: string, tag: SemanticTag, context: Context)
    | ByteStringValue(bytes: seq<Utilities.Byte>, tag: SemanticTag, context: Context)
    | DoubleValue(double: Double, tag: SemanticTag, context: Context)
    | Int64Value(int64: Int64, tag: SemanticTag, context: Context)
    | UInt64Value(uint64: UInt64, tag: SemanticTag, context: Context)
    | BoolValue(boolean: bool, tag: SemanticTag, context: Context)

  /** The implementation behind the virtual do_* members. A recording handler's answer may
      depend on everything it has received before the event. */
  datatype Implementation = Recording(answer: (seq<Event>, Event) -> bool) | NullHandler
  {
    /** What a do_* member returns for an event, after the events of `history`. */
    function Reply(history: seq<Event>, e: Event): (r: bool)
      ensures NullHandler? ==> r
      ensures Recording? ==> r == answer(history, e)
    {
      match this
      case Recording(answer) => answer(history, e)
      case NullHandler => true
    }

    /** What an implementation keeps of a sequence of events: a recording handler all of them
        in order, the null handler none. */
    function Kept(es: seq<Event>): (r: seq<Event>)
      ensures Recording? ==> r == es
      ensures NullHandler? ==> r == []
    {
      if Recording? then es else []
    }
  }

  /** null_json_content_handler answers true to every event, whatever came before, and keeps
      none of them. */
  lemma {:induction false} NullHandlerAcceptsAll(history: seq<Event>, e: Event, es: seq<Event>)
    ensures NullHandler.Reply(history, e) && NullHandler.Kept(es) == []
  {
  }

  /** What an implementation keeps of events sent one after the other is what it keeps of each. */
  lemma {:induction false} KeptAppend(impl: Implementation, a: seq<Event>, b: seq<Event>)
    ensures impl.Kept(a + b) == impl.Kept(a) + impl.Kept(b)
  {
  }

  class Handler {
    /** The primitive events received so far, as the implementation keeps them. */
    var trace: seq<Event>
    const impl: Implementation

    constructor (impl: Implementation)
      ensures trace == [] && this.impl == impl
    {
      trace := [];
      this.impl := impl;
    }

    // The primitive do_* members, dispatched to the implementation.

    method Do(e: Event) returns (r: bool)
      modifies this`trace
      ensures trace == old(trace) + impl.Kept([e]) && r == impl.Reply(old(trace), e)
    {
      r := impl.Reply(trace, e);
      trace := trace + impl.Kept([e]);
    }

    /** The default length-hinted do_begin_object drops the length. */
    method DoBeginObjectSized(length: Options.SizeT, tag: SemanticTag, context: Context) returns (r: bool)
      modifies this`trace
      ensures trace == old(trace) + impl.Kept([BeginObject(tag, context)])
      ensures r == impl.Reply(old(trace), BeginObject(tag, context))
    {
      r := Do(BeginObject(tag, context));
    }

    /** The default length-hinted do_begin_array drops the length. */
    method DoBeginArraySized(length: Options.SizeT, tag: SemanticTag, context: Context) returns (r: bool)
      modifies this`trace
      ensures trace == old(trace) + impl.Kept([BeginArray(tag, context)])
      ensures r == impl.Reply(old(trace), BeginArray(tag, context))
    {
      r := Do(BeginArray(tag, context));
    }

    // The public emitters.

    method EmitFlush()
      modifies this`trace
      ensures trace == old(trace) + impl.Kept([Flush])
    {
      var _ := Do(Flush);
    }

    method EmitBeginObject(tag: SemanticTag := NoTag, context: Context := NullContext) returns (r: bool)
      modifies this`trace
      ensures trace == old(trace) + impl.Kept([BeginObject(tag, context)])
      ensures r == impl.Reply(old(trace), BeginObject(tag, context))
    {
      r := Do(BeginObject(tag, context));
    }

    method EmitBeginObjectSized(length: Options.SizeT, tag: SemanticTag := NoTag, context: Context := NullContext)
      returns (r: bool)
      modifies this`trace
      ensures trace == old(trace) + impl.Kept([BeginObject(tag, context)])
      ensures r == impl.Reply(old(trace), BeginObject(tag, context))
    {
      r := DoBeginObjectSized(length, tag, context);
    }

    method EmitEndObject(context: Context := NullContext) returns (r: bool)
      modifies this`trace
      ensures trace == old(trace) + impl.Kept([EndObject(context)])
      ensures r == impl.Reply(old(trace), EndObject(context))
    {
      r := Do(EndObject(context));
    }

    method EmitBeginArray(tag: SemanticTag := NoTag, context: Context := NullContext) returns (r: bool)
      modifies this`trace
      ensures trace == old(trace) + impl.Kept([BeginArray(tag, context)])
      ensures r == impl.Reply(old(trace), BeginArray(tag, context))
    {
      r := Do(BeginArray(tag, context));
    }

    method EmitBeginArraySized(length: Options.SizeT, tag: SemanticTag := NoTag, context: Context := NullContext)
      returns (r: bool)
      modifies this`trace
      ensures trace == old(trace) + impl.Kept([BeginArray(tag, context)])
      ensures r == impl.Reply(old(trace), BeginArray(tag, context))
    {
      r := DoBeginArraySized(length, tag, context);
    }

    method EmitEndArray(context: Context := NullContext) returns (r: bool)
      modifies this`trace
      ensures trace == old(trace) + impl.Kept([EndArray(context)])
      ensures r == impl.Reply(old(trace), EndArray(context))
    {
      r := Do(EndArray(context));
    }

    method EmitName(name: string, context: Context := NullContext) returns (r: bool)
      modifies this`trace
      ensures trace == old(trace) + impl.Kept([Name(name, context)])
      ensures r == impl.Reply(old(trace), Name(name, context))
    {
      r := Do(Name(name, context));
    }

    method EmitStringValue(value: string, tag: SemanticTag := NoTag, context: Context := NullContext) returns (r: bool)
      modifies this`trace
      ensures trace == old(trace) + impl.Kept([StringValue(value, tag, context)])
      ensures r == impl.Reply(old(trace), StringValue(value, tag, context))
    {
      r := Do(StringValue(value, tag, context));
    }

    method EmitByteStringValue(b: seq<Utilities.Byte>, tag: SemanticTag := NoTag, context: Context := NullContext)
      returns (r: bool)
      modifies this`trace
      ensures trace == old(trace) + impl.Kept([ByteStringValue(b, tag, context)])
      ensures r == impl.Reply(old(trace), ByteStringValue(b, tag, context))
    {
      r := Do(ByteStringValue(b, tag, context));
    }

    /** The pointer-and-size overload copies exactly `size` bytes from `p` into a byte string. */
    method EmitByteStringValueFrom(p: array<Utilities.Byte>, size: Options.SizeT, tag: SemanticTag := NoTag,
                                   context: Context := NullContext) returns (r: bool)
      requires size <= p.Length
      modifies this`trace
      ensures trace == old(trace) + impl.Kept([ByteStringValue(p[..size], tag, context)])
      ensures r == impl.Reply(old(trace), ByteStringValue(p[..size], tag, context))
      ensures |trace| > |old(trace)| ==> |trace[|trace| - 1].bytes| == size
    {
      var bytes := p[..size];
      r := Do(ByteStringValue(bytes, tag, context));
    }

    method EmitBigIntegerValue(s: string, context: Context := NullContext) returns (r: bool)
      modifies this`trace
      ensures trace == old(trace) + impl.Kept([StringValue(s, BigInteger, context)])
      ensures r == impl.Reply(old(trace), StringValue(s, BigInteger, context))
    {
      r := Do(StringValue(s, BigInteger, context));
    }

    method EmitBigDecimalValue(s: string, context: Context := NullContext) returns (r: bool)
      modifies this`trace
      ensures trace == old(trace) + impl.Kept([StringValue(s, BigDecimal, context)])
      ensures r == impl.Reply(old(trace), StringValue(s, BigDecimal, context))
    {
      r := Do(StringValue(s, BigDecimal, context));
    }

    method EmitDateTimeValue(s: string, context: Context := NullContext) returns (r: bool)
      modifies this`trace
      ensures trace == old(trace) + impl.Kept([StringValue(s, DateTime, context)])
      ensures r == impl.Reply(old(trace), StringValue(s, DateTime, context))
    {
      r := Do(StringValue(s, DateTime, context));
    }

    method EmitTimestampValue(v: Int64, context: Context := NullContext) returns (r: bool)
      modifies this`trace
      ensures trace == old(trace) + impl.Kept([Int64Value(v, Timestamp, context)])
      ensures r == impl.Reply(old(trace), Int64Value(v, Timestamp, context))
    {
      r := Do(Int64Value(v, Timestamp, context));
    }

    method EmitInt64Value(value: Int64, tag: SemanticTag := NoTag, context: Context := NullContext) returns (r: bool)
      modifies this`trace
      ensures trace == old(trace) + impl.Kept([Int64Value(value, tag, context)])
      ensures r == impl.Reply(old(trace), Int64Value(value, tag, context))
    {
      r := Do(Int64Value(value, tag, context));
    }

    method EmitUInt64Value(value: UInt64, tag: SemanticTag := NoTag, context: Context := NullContext) returns (r: bool)
      modifies this`trace
      ensures trace == old(trace) + impl.Kept([UInt64Value(value, tag, context)])
      ensures r == impl.Reply(old(trace), UInt64Value(value, tag, context))
    {
      r := Do(UInt64Value(value, tag, context));
    }

    method EmitDoubleValue(value: Double, tag: SemanticTag := NoTag, context: Context := NullContext) returns (r: bool)
      modifies this`trace
      ensures trace == old(trace) + impl.Kept([DoubleValue(value, tag, context)])
      ensures r == impl.Reply(old(trace), DoubleValue(value, tag, context))
    {
      r := Do(DoubleValue(value, tag, context));
    }

    method EmitBoolValue(value: bool, tag: SemanticTag := NoTag, context: Context := NullContext) returns (r: bool)
      modifies this`trace
      ensures trace == old(trace) + impl.Kept([BoolValue(value, tag, context)])
      ensures r == impl.Reply(old(trace), BoolValue(value, tag, context))
    {
      r := Do(BoolValue(value, tag, context));
    }

    method EmitNullValue(tag: SemanticTag := NoTag, context: Context := NullContext) returns (r: bool)
      modifies this`trace
      ensures trace == old(trace) + impl.Kept([NullValue(tag, context)])
      ensures r == impl.Reply(old(trace), NullValue(tag, context))
    {
      r := Do(NullValue(tag, context));
    }
  }
}
