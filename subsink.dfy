/** The subtitle sink element: its session state (the flushing flag and the
    stored allowed caps), the per-buffer render dispatcher and the batch
    renderer. Buffers handed to the application through the "new-buffer"
    signal are recorded, in order, in the field `delivered`. */
module SubSink {
  import opened Captions

  /** A GstClockTime: an unsigned 64-bit nanosecond count, where all ones
      stands for GST_CLOCK_TIME_NONE. Timestamps are only ever copied. */
  newtype ClockTime = x: int | 0 <= x < 0x1_0000_0000_0000_0000

  /** A media buffer. `readable` says whether mapping its memory for reading
      (gst_buffer_map with GST_MAP_READ) succeeds. */
  datatype Buffer = Buffer(payload: seq<uint8>, pts: ClockTime, dts: ClockTime, readable: bool)

  /** The two flow returns the renderer produces. */
  datatype FlowReturn = Ok | Flushing

  /** A caps structure (media type name and fields) and a caps value. The
      element stores and returns caps whole and never looks inside them. */
  datatype Structure = Structure(name: string, fields: map<string, string>)
  datatype Caps = Caps(structures: seq<Structure>)

  const Cea608Mime: string := "closedcaption/x-cea-608"
  const Cea708Mime: string := "closedcaption/x-cea-708"

  /** g_str_has_prefix: `s` is `prefix` followed by something. */
  predicate HasPrefix(s: string, prefix: string)
    ensures HasPrefix(s, prefix) <==> exists rest :: s == prefix + rest
  {
    if |prefix| <= |s| && s[..|prefix|] == prefix then
      assert s == prefix + s[|prefix|..];
      true
    else
      false
  }

  predicate IsCea608(mime: Option<string>) {
    mime.Some? && HasPrefix(mime.value, Cea608Mime)
  }

  predicate IsCea708(mime: Option<string>) {
    mime.Some? && HasPrefix(mime.value, Cea708Mime)
  }

  /** What rendering one buffer does: a flow return and at most one buffer
      handed to the application. */
  datatype Rendered = Rendered(flow: FlowReturn, emitted: Option<Buffer>)

  /** What rendering a list does: a flow return and the buffers handed to the
      application, in order. */
  datatype ListRendered = ListRendered(flow: FlowReturn, emitted: seq<Buffer>)

  function AsSeq(e: Option<Buffer>): seq<Buffer> {
    match e
    case None => []
    case Some(b) => [b]
  }

  /** The text buffer built from a decoded C string: gst_buffer_new_wrapped
      over strlen(text) bytes, with the input buffer's timestamps. */
  function TextBuffer(text: seq<uint8>, b: Buffer): (r: Buffer)
    ensures r.pts == b.pts && r.dts == b.dts && r.readable
    ensures (forall i | 0 <= i < |text| :: text[i] != 0) ==> r.payload == text
    ensures text != [] && text[0] != 0 ==> r.payload != []
  {
    Buffer(text[..StrLen(text)], b.pts, b.dts, true)
  }

  /** The buffer emitted for a caption payload, if any. */
  function CaptionEmission(decoded: Option<seq<uint8>>, b: Buffer): Option<Buffer> {
    match decoded
    case None => None
    case Some(text) => Some(TextBuffer(text, b))
  }

  /** gst_sub_sink_render_common as a value, given the flushing flag and the
      MIME name of the pad's current caps (None when the pad has no caps). */
  function Dispatch(flushing: bool, mime: Option<string>, b: Buffer): (r: Rendered)
    ensures r.flow == Flushing <==> flushing
    ensures flushing ==> r.emitted.None?
    ensures r.emitted.Some? ==> r.emitted.value.pts == b.pts && r.emitted.value.dts == b.dts
  {
    if flushing then Rendered(Flushing, None)
    else if IsCea608(mime) then
      Rendered(Ok, if b.readable then CaptionEmission(Decode608(b.payload), b) else None)
    else if IsCea708(mime) then
      Rendered(Ok, if b.readable then CaptionEmission(Decode708(b.payload), b) else None)
    else
      Rendered(Ok, Some(b))
  }

  function Prepend(acc: seq<Buffer>, r: ListRendered): ListRendered {
    ListRendered(r.flow, acc + r.emitted)
  }

  /** gst_sub_sink_render_list as a value: render the buffers in order and
      stop at the first flow return other than Ok, returning it. */
  function RenderAll(flushing: bool, mime: Option<string>, list: seq<Buffer>): (r: ListRendered)
    ensures r.flow == Flushing <==> flushing && list != []
    ensures |r.emitted| <= |list|
    ensures r.flow == Flushing ==> r.emitted == []
  {
    if list == [] then ListRendered(Ok, [])
    else
      var r := Dispatch(flushing, mime, list[0]);
      if r.flow != Ok then ListRendered(r.flow, AsSeq(r.emitted))
      else Prepend(AsSeq(r.emitted), RenderAll(flushing, mime, list[1..]))
  }

  /** One step of the batch renderer at index i, seen from the whole list:
      `acc` is what the buffers before i handed out. */
  lemma RenderAllStep(flushing: bool, mime: Option<string>, list: seq<Buffer>, i: nat, acc: seq<Buffer>)
    requires i < |list|
    ensures var r := Dispatch(flushing, mime, list[i]);
            Prepend(acc, RenderAll(flushing, mime, list[i..])) ==
            if r.flow != Ok then ListRendered(r.flow, acc + AsSeq(r.emitted))
            else Prepend(acc + AsSeq(r.emitted), RenderAll(flushing, mime, list[i + 1..]))
  {
    assert list[i..][0] == list[i];
    assert list[i..][1..] == list[i + 1..];
  }

  /** Reference definition: everything rendering each buffer of the list on
      its own hands out while the sink is not flushing. */
  function Delivered(mime: Option<string>, list: seq<Buffer>): seq<Buffer>
  {
    if list == [] then []
    else AsSeq(Dispatch(false, mime, list[0]).emitted) + Delivered(mime, list[1..])
  }

  // ---------------------------------------------------------------------------
  // Properties of the dispatcher

  /** The two caption prefixes exclude each other, so testing 608 first
      never hides a 708 stream. */
  lemma CaptionPrefixesExclusive(mime: Option<string>)
    ensures !(IsCea608(mime) && IsCea708(mime))
  {
  }

  /** A CEA-608 stream: Ok always; a buffer is handed out exactly when the
      payload maps and decodes to some text, and it carries that text and the
      input's timestamps. */
  lemma {:induction false} DispatchCea608(mime: Option<string>, b: Buffer)
    requires IsCea608(mime)
    ensures Dispatch(false, mime, b).flow == Ok
    ensures Dispatch(false, mime, b).emitted.Some? <==> b.readable && Decode608(b.payload).Some?
    ensures Dispatch(false, mime, b).emitted.Some? ==>
              Dispatch(false, mime, b).emitted.value ==
              Buffer(Decode608(b.payload).value, b.pts, b.dts, true)
  {
    DecodedTextHasNoNul(b.payload);
    StrLenOfNulFree(TextOf(Decode608(b.payload)));
  }

  /** A CEA-708 stream: as for CEA-608, with the CEA-708 decoder. */
  lemma {:induction false} DispatchCea708(mime: Option<string>, b: Buffer)
    requires IsCea708(mime)
    ensures Dispatch(false, mime, b).flow == Ok
    ensures Dispatch(false, mime, b).emitted.Some? <==> b.readable && Decode708(b.payload).Some?
    ensures Dispatch(false, mime, b).emitted.Some? ==>
              Dispatch(false, mime, b).emitted.value ==
              Buffer(Decode708(b.payload).value, b.pts, b.dts, true)
  {
    CaptionPrefixesExclusive(mime);
    DecodedTextHasNoNul(b.payload);
    StrLenOfNulFree(TextOf(Decode708(b.payload)));
  }

  /** Any other stream, or no caps at all: the input buffer itself is handed
      out, same payload and timestamps. */
  lemma DispatchPassthrough(mime: Option<string>, b: Buffer)
    requires !IsCea608(mime) && !IsCea708(mime)
    ensures Dispatch(false, mime, b) == Rendered(Ok, Some(b))
  {
  }

  lemma StrLenOfNulFree(s: seq<uint8>)
    requires forall i | 0 <= i < |s| :: s[i] != 0
    ensures s[..StrLen(s)] == s
  {
  }

  // ---------------------------------------------------------------------------
  // Properties of the batch renderer

  /** An empty list is Ok; otherwise a flushing sink rejects the first buffer
      and renders nothing, and an active sink renders every buffer in order. */
  lemma {:induction false} RenderAllClosedForm(flushing: bool, mime: Option<string>, list: seq<Buffer>)
    ensures RenderAll(flushing, mime, list) ==
            if list == [] then ListRendered(Ok, [])
            else if flushing then ListRendered(Flushing, [])
            else ListRendered(Ok, Delivered(mime, list))
  {
    if list != [] && !flushing {
      RenderAllClosedForm(flushing, mime, list[1..]);
      if list[1..] == [] {
        assert Delivered(mime, list[1..]) == [];
      }
    }
  }

  /** Each buffer of a list gives at most one buffer to the application. */
  lemma {:induction false} DeliveredBounded(mime: Option<string>, list: seq<Buffer>)
    ensures |Delivered(mime, list)| <= |list|
  {
    if list != [] {
      DeliveredBounded(mime, list[1..]);
    }
  }

  /** A list of non-caption buffers is handed out unchanged and complete. */
  lemma {:induction false} DeliveredPassthrough(mime: Option<string>, list: seq<Buffer>)
    requires !IsCea608(mime) && !IsCea708(mime)
    ensures Delivered(mime, list) == list
  {
    if list != [] {
      DeliveredPassthrough(mime, list[1..]);
      assert list == [list[0]] + list[1..];
    }
  }

  // ---------------------------------------------------------------------------
  // Control events

  datatype EventType = FlushStart | FlushStop | CapsEvent | Segment | Tag | Toc | Other

  // ---------------------------------------------------------------------------
  // The element

  class SubSink {
    /** priv->flushing */
    var flushing: bool
    /** priv->caps: the allowed caps set through the "caps" property */
    var caps: Option<Caps>
    /** every buffer emitted with the "new-buffer" signal, oldest first */
    ghost var delivered: seq<Buffer>

    /** The private structure starts zero-filled: not flushing, no caps. */
    constructor ()
      ensures !flushing && caps == None && delivered == []
    {
      flushing := false;
      caps := None;
      delivered := [];
    }

    /** gst_sub_sink_start */
    method Start() returns (ok: bool)
      modifies this`flushing
      ensures !flushing && ok
    {
      flushing := false;
      return true;
    }

    /** gst_sub_sink_stop */
    method Stop() returns (ok: bool)
      modifies this`flushing
      ensures flushing && ok
    {
      flushing := true;
      return true;
    }

    /** gst_sub_sink_render_common; `mime` is the name of the first structure
        of the pad's current caps, None when the pad has none. */
    method RenderCommon(mime: Option<string>, buffer: Buffer, isList: bool) returns (flow: FlowReturn)
      modifies this`delivered
      ensures flow == Dispatch(flushing, mime, buffer).flow
      ensures delivered == old(delivered) + AsSeq(Dispatch(flushing, mime, buffer).emitted)
    {
      if flushing {
        return Flushing;
      }
      if mime.Some? {
        var m := mime.value;
        if HasPrefix(m, Cea608Mime) {
          if buffer.readable {
            var text := DecodeCea608(buffer.payload);
            if text.Some? {
              var txtbuf := TextBuffer(text.value, buffer);
              delivered := delivered + [txtbuf];
            }
          }
          return Ok;
        } else if HasPrefix(m, Cea708Mime) {
          if buffer.readable {
            var text := DecodeCea708(buffer.payload);
            if text.Some? {
              var txtbuf := TextBuffer(text.value, buffer);
              delivered := delivered + [txtbuf];
            }
          }
          return Ok;
        }
      }
      delivered := delivered + [buffer];
      return Ok;
    }

    /** gst_sub_sink_render */
    method Render(mime: Option<string>, buffer: Buffer) returns (flow: FlowReturn)
      modifies this`delivered
      ensures flow == Dispatch(flushing, mime, buffer).flow
      ensures delivered == old(delivered) + AsSeq(Dispatch(flushing, mime, buffer).emitted)
    {
      flow := RenderCommon(mime, buffer, false);
    }

    /** gst_sub_sink_render_list */
    method RenderList(mime: Option<string>, list: seq<Buffer>) returns (flow: FlowReturn)
      modifies this`delivered
      ensures flow == RenderAll(flushing, mime, list).flow
      ensures delivered == old(delivered) + RenderAll(flushing, mime, list).emitted
    {
      ghost var acc: seq<Buffer> := [];
      ghost var fl := flushing;
      ghost var whole := RenderAll(fl, mime, list);
      flow := Ok;
      var i := 0;
      while i < |list|
        invariant 0 <= i <= |list|
        invariant flow == Ok && flushing == fl
        invariant delivered == old(delivered) + acc
        invariant whole == Prepend(acc, RenderAll(fl, mime, list[i..]))
      {
        var buffer := list[i];
        ghost var r := Dispatch(fl, mime, buffer);
        RenderAllStep(fl, mime, list, i, acc);
        flow := Render(mime, buffer);
        acc := acc + AsSeq(r.emitted);
        if flow != Ok {
          break;
        }
        i := i + 1;
      }
      assert flow == Ok ==> list[i..] == [];
    }

    /** gst_sub_sink_set_caps: the stored caps become a copy of `c`; storing
        what is already stored leaves it as it is. */
    method SetCaps(c: Option<Caps>)
      modifies this`caps
      ensures caps == c
    {
      if caps != c {
        caps := c;
      }
    }

    /** gst_sub_sink_get_caps */
    method GetCaps() returns (c: Option<Caps>)
      ensures c == caps
    {
      c := caps;
    }

    /** gst_sub_sink_change_event; `parentResult` is what the base sink's
        handler answers for a forwarded event. No event touches the flushing
        flag or the stored caps (the method modifies nothing); TOC events are
        consumed without being forwarded. `released` counts how often the
        caller's one reference to the event is dropped, by the base sink's
        handler (which takes ownership of what it is given) or here. This is
        the corrected handler: it never drops the reference a second time
        (see EventReleasesAsWritten). */
    method ChangeEvent(event: EventType, parentResult: bool) returns (ret: bool, forwarded: bool, released: nat)
      ensures forwarded <==> !event.Toc?
      ensures ret <==> event.FlushStart? || event.FlushStop? || event.Toc? || parentResult
      ensures released == 1
    {
      ret := true;
      match event
      case FlushStart =>
        forwarded, released := true, 1;
        ret := true;
      case FlushStop =>
        forwarded, released := true, 1;
        ret := true;
      case Toc =>
        forwarded, released := false, 1;
      case _ =>
        forwarded, released := true, 1;
        ret := parentResult;
    }
  }

  /** How often the source's event handler, as written, drops the caller's
      reference: the base sink's handler always consumes a forwarded event,
      and for CAPS, SEGMENT and TAG events the handler unreferences it once
      more when the base sink answers FALSE. */
  function EventReleasesAsWritten(event: EventType, parentResult: bool): (n: nat)
    ensures n >= 1
  {
    match event
    case FlushStart => 1
    case FlushStop => 1
    case Toc => 1
    case Other => 1
    case _ => if parentResult then 1 else 2
  }

  /** The discrepancy: a CAPS, SEGMENT or TAG event that the base sink
      refuses has its single reference dropped twice. */
  lemma RejectedEventReleasedTwice(event: EventType)
    requires event.CapsEvent? || event.Segment? || event.Tag?
    ensures EventReleasesAsWritten(event, false) == 2
    ensures EventReleasesAsWritten(event, true) == 1
  {
  }

  // ---------------------------------------------------------------------------
  // Sessions

  /** After stop, every render is rejected and nothing reaches the application. */
  method StopThenRender(sink: SubSink, mime: Option<string>, b: Buffer) returns (flow: FlowReturn)
    modifies sink
    ensures flow == Flushing && sink.flushing
    ensures sink.delivered == old(sink.delivered)
  {
    var _ := sink.Stop();
    flow := sink.Render(mime, b);
  }

  /** After start, a buffer without caps is handed out as it is. */
  method StartThenRender(sink: SubSink, b: Buffer) returns (flow: FlowReturn)
    modifies sink
    ensures flow == Ok && !sink.flushing
    ensures sink.delivered == old(sink.delivered) + [b]
  {
    var _ := sink.Start();
    flow := sink.Render(None, b);
  }

  /** What set_caps stores, get_caps returns. */
  method SetThenGetCaps(sink: SubSink, c: Option<Caps>) returns (got: Option<Caps>)
    modifies sink
    ensures got == c
  {
    sink.SetCaps(c);
    got := sink.GetCaps();
  }
}
