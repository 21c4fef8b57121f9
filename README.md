# subsink: a Dafny model of the subtitle sink's core

The GStreamer element `subsink` hands subtitle buffers to the application
through its `new-buffer` signal. This project models the part of
`src/gstsubsink.c` that does real work, and proves properties of it:

- **The two closed-caption decoders** (module `Captions`, `captions.dfy`).
  `decode_cea608_to_utf8` walks the payload in complete 2-byte pairs and keeps
  every byte in 0x20..0x7F. `decode_cea708_to_utf8` walks every byte and keeps
  those in 0x20..0x7E. Both return NULL when nothing is kept.
  - Each decoder is a pure function (`Decode608`, `Decode708`) with a
    loop method (`DecodeCea608`, `DecodeCea708`) proved equal to it.
  - The CEA-608 pair walk is proved equal to an independent reference: the
    printable bytes of the longest even prefix, in order (`Filter`).
  - Neither decoder interprets CEA-608 control codes or CEA-708 service
    blocks, and neither does the source.
- **The element** (module `SubSink`, `subsink.dfy`), a class with the
  private fields `flushing` and `caps`.
  - A ghost field `delivered` records every buffer emitted with `new-buffer`,
    in order.
  - `start`/`stop` clear and set `flushing`; `set_caps`/`get_caps` store and
    return the allowed caps.
  - `render_common` rejects with FLUSHING while flushing. Otherwise it
    decodes CEA-608 (tested first) or CEA-708 streams, chosen by MIME prefix,
    and passes every other buffer through. `render_list` renders a list in
    order and stops at the first result other than OK.
  - Each method is proved against a pure specification (`Dispatch`,
    `RenderAll`). Lemmas state what those specifications promise.

Inputs from the framework are parameters:
- the MIME name of the pad's current caps is an `Option<string>` (None when
  the pad has no caps);
- whether `gst_buffer_map` succeeds is the buffer's `readable` flag;
- the base sink's answer to a forwarded event is a boolean.

Behaviour of the code that the model follows:
- The private structure is zero-filled at instance creation, so `flushing`
  starts FALSE (`SubSink.SubSink.constructor`).
- FLUSH_START and FLUSH_STOP events are forwarded to the base sink and
  answered TRUE. They do not change `priv->flushing`; only `start` and `stop`
  do (`SubSink.SubSink.ChangeEvent` modifies nothing).
- `render_list` on an empty list returns OK even while flushing.
- `flushing` cannot change during one `render_list` call, so a list is
  rejected at its first buffer or not at all (`RenderAllClosedForm`).
- For an even-length payload of printable bytes, the CEA-608 decoder returns
  the payload itself, except for the empty payload, which gives NULL.

## Model

| member | source | states |
|---|---|---|
| `Captions.Decode608` | src/gstsubsink.c:34-51 | decode_cea608_to_utf8 as a value: text, when there is any, is non-empty and no longer than the complete pairs; its meaning is stated by `Decode608Spec` and `Kept608IsFilter` |
| `Captions.Decode708` | src/gstsubsink.c:54-68 | decode_cea708_to_utf8 as a value: text, when there is any, is non-empty and no longer than the payload; its meaning is stated by `Decode708Spec` |
| `Captions.Kept608Length` | src/gstsubsink.c:37-45 | the pair walk keeps at most the bytes of the complete pairs |
| `Captions.Decode608Spec` | src/gstsubsink.c:34-51 | NULL exactly when no byte of a complete pair is in 0x20..0x7F; otherwise the printable bytes of the even prefix, in input order |
| `Captions.Decode708Spec` | src/gstsubsink.c:54-68 | NULL exactly when no byte is in 0x20..0x7E; otherwise a non-empty text of printable bytes, each byte value as often as in the input |
| `Captions.DecodeCea608` | src/gstsubsink.c:34-51 | the pair loop (i += 2 while i + 1 < size) returns exactly `Decode608` of the payload |
| `Captions.DecodeCea708` | src/gstsubsink.c:54-68 | the byte loop returns exactly `Decode708` of the payload |
| `Captions.Kept608IsFilter` | src/gstsubsink.c:37-45 | the pair walk keeps exactly the printable bytes of the longest even prefix, in order |
| `Captions.Decode608IgnoresTrailingByte` | src/gstsubsink.c:37 | appending one byte to an even-length payload never changes the CEA-608 result |
| `Captions.Decode608Identity` | src/gstsubsink.c:37-50 | an even-length payload of bytes in 0x20..0x7F decodes to itself (NULL when empty) |
| `Captions.Decode608Contents` | src/gstsubsink.c:37-50 | CEA-608 text is non-empty when present, has only printable bytes, each as often as in the examined pairs |
| `Captions.DecodedTextHasNoNul` | src/gstsubsink.c:40-61 | no decoded text contains a NUL byte, so its strlen is its length |
| `Captions.DeleteByteDiffers` | src/gstsubsink.c:41-60 | 0x7F is kept by the CEA-608 decoder and dropped by the CEA-708 decoder |
| `Captions.PrintableRangesDifferOnlyIn7F` | src/gstsubsink.c:41-60 | for every byte: kept by the CEA-608 test and dropped by the CEA-708 test exactly when it is 0x7F; every byte the CEA-708 test keeps, the CEA-608 test keeps |
| `Captions.EmptyPayloadHasNoText` | src/gstsubsink.c:34-68 | both decoders return NULL for an empty payload |
| `Captions.Cea608Example` | src/gstsubsink.c:34-51 | bytes 41 42 00 43 decode to "ABC" |
| `Captions.Cea708Example` | src/gstsubsink.c:54-68 | bytes 01 48 49 decode to "HI" |
| `Captions.StrLen` | src/gstsubsink.c:310 | strlen is the number of bytes before the first NUL, all of them when there is none |
| `Captions.FilterCounts` | src/gstsubsink.c:41-44 | keeping bytes by a predicate keeps each kept value as often as it occurs and drops the others |
| `SubSink.CaptionPrefixesExclusive` | src/gstsubsink.c:302-322 | no MIME starts with both caption prefixes, so testing CEA-608 first hides no CEA-708 stream |
| `SubSink.HasPrefix` | src/gstsubsink.c:302-322 | g_str_has_prefix holds exactly when the MIME is the prefix followed by something |
| `SubSink.TextBuffer` | src/gstsubsink.c:310-312 | the text buffer carries the input's PTS and DTS, and wraps the whole text when it holds no NUL |
| `SubSink.Dispatch` | src/gstsubsink.c:288-361 | render_common as a value: FLUSHING exactly while flushing, and then nothing emitted, whatever the caps; an emitted buffer always carries the input's PTS and DTS (the cases are stated by `DispatchCea608`, `DispatchCea708`, `DispatchPassthrough`) |
| `SubSink.RenderAll` | src/gstsubsink.c:368-391 | render_list as a value: FLUSHING exactly when the sink is flushing and the list is not empty, with nothing emitted then; never more buffers out than in (the full behaviour is stated by `RenderAllClosedForm`) |
| `SubSink.DispatchCea608` | src/gstsubsink.c:302-321 | for a CEA-608 MIME render returns OK and emits one buffer exactly when the payload maps and decodes to text; that buffer holds the text and the input's PTS and DTS |
| `SubSink.DispatchCea708` | src/gstsubsink.c:322-341 | the same for a CEA-708 MIME and the CEA-708 decoder |
| `SubSink.DispatchPassthrough` | src/gstsubsink.c:342-354 | for any other MIME, or no caps, render returns OK and emits the input buffer itself |
| `SubSink.StrLenOfNulFree` | src/gstsubsink.c:310 | the text buffer wraps all of a NUL-free text |
| `SubSink.RenderAllClosedForm` | src/gstsubsink.c:368-391 | an empty list gives OK; a flushing sink rejects at the first buffer and emits nothing; an active sink renders every buffer in order and gives OK |
| `SubSink.DeliveredBounded` | src/gstsubsink.c:380-388 | a list emits at most one buffer per input buffer |
| `SubSink.DeliveredPassthrough` | src/gstsubsink.c:380-388 | a list of non-caption buffers is emitted complete and unchanged |
| `SubSink.SubSink.constructor` | src/gstsubsink.c:199-204 | a new element is not flushing, has no stored caps and has emitted nothing |
| `SubSink.SubSink.Start` | src/gstsubsink.c:266-275 | start clears `flushing` and succeeds |
| `SubSink.SubSink.Stop` | src/gstsubsink.c:277-286 | stop sets `flushing` and succeeds |
| `SubSink.SubSink.RenderCommon` | src/gstsubsink.c:288-361 | the flow return and the buffer appended to the emitted sequence are those of `Dispatch`; nothing else changes |
| `SubSink.SubSink.Render` | src/gstsubsink.c:363-366 | render is render_common for a single buffer |
| `SubSink.SubSink.RenderList` | src/gstsubsink.c:368-391 | the loop with early exit returns the flow of `RenderAll` and appends exactly what `RenderAll` emits |
| `SubSink.SubSink.SetCaps` | src/gstsubsink.c:419-440 | the stored caps become the given caps (None for NULL); storing what is stored changes nothing |
| `SubSink.SubSink.GetCaps` | src/gstsubsink.c:442-458 | get_caps returns the stored caps and changes nothing |
| `SubSink.SubSink.ChangeEvent` | src/gstsubsink.c:495-581 | flush events are forwarded and answered TRUE; TOC is consumed, not forwarded, and answered TRUE; others answer what the base sink answers; no event changes `flushing` or the caps; the event reference is dropped exactly once (corrected handler, see ## Findings) |
| `SubSink.EventReleasesAsWritten` | src/gstsubsink.c:515-566 | as written, every event reference is dropped at least once |
| `SubSink.RejectedEventReleasedTwice` | src/gstsubsink.c:525-565 | as written, a CAPS, SEGMENT or TAG event refused by the base sink is released twice |
| `SubSink.StopThenRender` | src/gstsubsink.c:277-294 | after stop, render returns FLUSHING and emits nothing |
| `SubSink.StartThenRender` | src/gstsubsink.c:266-354 | after start, a buffer without caps is emitted as it is and render returns OK |
| `SubSink.SetThenGetCaps` | src/gstsubsink.c:419-458 | what set_caps stores, get_caps returns |

## Findings

| source | as written | input that shows it | evidently intended | confidence | as-written member | corrected member |
|---|---|---|---|---|---|---|
| src/gstsubsink.c:525-529, 550-554, 561-565 | after handing a CAPS, SEGMENT or TAG event to the base sink's `event` handler, the handler unreferences it again when the base sink answers FALSE | a CAPS, SEGMENT or TAG event for which the base sink's `event` handler answers FALSE (a refused CAPS event is the likeliest): the single reference is dropped by the base sink and then once more here | the base sink's handler takes ownership of the event, so the event is released exactly once | medium, not executed; rests on the base sink's `event` handler consuming its event | `SubSink.RejectedEventReleasedTwice` | `SubSink.SubSink.ChangeEvent` |

## Left out

- GObject and GType boilerplate: the pad template, signal and property registration, the property wrappers and `dispose`. These are framework glue.
- The URI handler interface and the plugin registration. They only register constants.
- `gst_sub_sink_change_state`: it only logs and delegates to the parent class.
- Logging, including the segment's "DVB timestamp" `start / 11111`, which is computed only to be logged.
- `SubSink.SubSink.ChangeEvent`: models only the forwarding, the return value and the event reference. How the base sink reacts to a forwarded event is not modelled. That includes the new pad caps after a CAPS event, so the MIME name is a parameter of render.
- Object locking and the streaming thread: every operation is sequential.
- Reference counting of buffers and caps, and memory ownership (`gst_buffer_ref`, `g_strdup`, `g_free`, `gst_caps_unref`). The event reference count is modelled only for the finding above.
- `SubSink.SubSink.SetCaps`: caps are values, so pointer identity is modelled as equality and `gst_caps_copy` as the value itself.
- `gst_sub_sink_getcaps`, the base sink's caps query: it only hands the stored caps, or their intersection with a filter by the caps library, to the base sink. The stored-caps behaviour is modelled by `SetCaps` and `GetCaps`.
- `SubSink.SubSink.RenderCommon`: caps with no structure are not modelled; render sees only the first structure's name.
- Only the two flow returns render can produce, OK and FLUSHING, are modelled.
