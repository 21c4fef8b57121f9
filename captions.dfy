/** The two minimal closed-caption decoders of the subtitle sink.
    Both extract printable ASCII bytes from a caption payload; neither
    interprets the control codes of CEA-608 or the service syntax of CEA-708.
    The decoded text is kept as the bytes of the NUL-terminated C string the
    decoders build, without its terminator. */
module Captions {

  /** An unsigned 8-bit byte (guint8). */
  newtype uint8 = x: int | 0 <= x < 0x100

  datatype Option<+T> = None | Some(value: T)

  /** CEA-608 keeps a byte in 0x20..0x7F (0x7F included). */
  predicate Is608Printable(b: uint8) {
    0x20 <= b <= 0x7F
  }

  /** CEA-708 keeps a byte in 0x20..0x7E (0x7F excluded). */
  predicate Is708Printable(b: uint8) {
    0x20 <= b <= 0x7E
  }

  /** The byte `b` alone when `keep` holds of it, nothing otherwise. */
  function Keep(keep: uint8 -> bool, b: uint8): seq<uint8> {
    if keep(b) then [b] else []
  }

  /** Reference definition: the bytes of `s` that satisfy `keep`, in order. */
  function Filter(keep: uint8 -> bool, s: seq<uint8>): seq<uint8>
  {
    if s == [] then [] else Keep(keep, s[0]) + Filter(keep, s[1..])
  }

  /** Length of the longest even prefix: the part the pair walk examines. */
  function EvenLength(n: nat): (e: nat)
    ensures e <= n && e % 2 == 0 && n - e < 2
  {
    n - n % 2
  }

  /** The CEA-608 walk over complete 2-byte pairs: each byte of a pair is
      kept independently; a trailing odd byte is never reached. */
  function Kept608(data: seq<uint8>): seq<uint8>
    decreases |data|
  {
    if |data| < 2 then []
    else Keep(Is608Printable, data[0]) + Keep(Is608Printable, data[1]) + Kept608(data[2..])
  }

  /** decode_cea608_to_utf8 as a value: NULL (None) when the pair walk keeps nothing. */
  function Decode608(data: seq<uint8>): (r: Option<seq<uint8>>)
    ensures r.Some? ==> 0 < |r.value| <= EvenLength(|data|)
  {
    Kept608Length(data);
    var t := Kept608(data);
    if t == [] then None else Some(t)
  }

  /** decode_cea708_to_utf8 as a value: NULL (None) when no byte is kept. */
  function Decode708(data: seq<uint8>): (r: Option<seq<uint8>>)
    ensures r.Some? ==> 0 < |r.value| <= |data|
  {
    FilterLength(Is708Printable, data);
    var t := Filter(Is708Printable, data);
    if t == [] then None else Some(t)
  }

  /** The loop of decode_cea608_to_utf8: walks i = 0, 2, 4, ... while i + 1 < size. */
  method DecodeCea608(data: seq<uint8>) returns (text: Option<seq<uint8>>)
    ensures text == Decode608(data)
  {
    var out: seq<uint8> := [];
    var i := 0;
    while i + 1 < |data|
      invariant 0 <= i <= |data| && i % 2 == 0
      invariant out + Kept608(data[i..]) == Kept608(data)
    {
      var cc1 := data[i];
      var cc2 := data[i + 1];
      ghost var before := out;
      if cc1 >= 0x20 && cc1 <= 0x7F {
        out := out + [cc1];
      }
      if cc2 >= 0x20 && cc2 <= 0x7F {
        out := out + [cc2];
      }
      assert out == before + Keep(Is608Printable, cc1) + Keep(Is608Printable, cc2);
      Kept608Step(data, i, before);
      i := i + 2;
    }
    assert Kept608(data[i..]) == [];
    assert out + [] == out;
    if |out| == 0 {
      return None;
    }
    return Some(out);
  }

  /** The loop of decode_cea708_to_utf8: examines every byte. */
  method DecodeCea708(data: seq<uint8>) returns (text: Option<seq<uint8>>)
    ensures text == Decode708(data)
  {
    var out: seq<uint8> := [];
    var i := 0;
    while i < |data|
      invariant 0 <= i <= |data|
      invariant out + Filter(Is708Printable, data[i..]) == Filter(Is708Printable, data)
    {
      var cc := data[i];
      ghost var before := out;
      if cc >= 0x20 && cc <= 0x7E {
        out := out + [cc];
      }
      assert out == before + Keep(Is708Printable, cc);
      FilterStep(Is708Printable, data, i, before);
      i := i + 1;
    }
    assert data[i..] == [];
    assert out + Filter(Is708Printable, data[i..]) == out;
    if |out| == 0 {
      return None;
    }
    return Some(out);
  }

  /** The text of a decoder result, empty for none. */
  function TextOf(r: Option<seq<uint8>>): seq<uint8> {
    match r
    case None => []
    case Some(t) => t
  }

  // ---------------------------------------------------------------------------
  // Properties of the reference filter

  /** Filtering never lengthens a sequence. */
  lemma {:induction false} FilterLength(keep: uint8 -> bool, s: seq<uint8>)
    ensures |Filter(keep, s)| <= |s|
  {
    if s != [] {
      FilterLength(keep, s[1..]);
    }
  }

  /** The pair walk keeps at most the bytes of the complete pairs. */
  lemma {:induction false} Kept608Length(data: seq<uint8>)
    ensures |Kept608(data)| <= EvenLength(|data|)
    decreases |data|
  {
    if |data| >= 2 {
      Kept608Length(data[2..]);
    }
  }

  /** One step of a walk over `s` that has built `out` before index i. */
  lemma FilterStep(keep: uint8 -> bool, s: seq<uint8>, i: nat, out: seq<uint8>)
    requires i < |s|
    ensures out + Filter(keep, s[i..]) == (out + Keep(keep, s[i])) + Filter(keep, s[i + 1..])
  {
    assert s[i..][1..] == s[i + 1..];
  }

  lemma {:induction false} FilterKeepsOnly(keep: uint8 -> bool, s: seq<uint8>)
    ensures forall i | 0 <= i < |Filter(keep, s)| :: keep(Filter(keep, s)[i])
  {
    if s != [] {
      FilterKeepsOnly(keep, s[1..]);
    }
  }

  lemma {:induction false} FilterEmptyIff(keep: uint8 -> bool, s: seq<uint8>)
    ensures Filter(keep, s) == [] <==> forall i | 0 <= i < |s| :: !keep(s[i])
  {
    if s != [] {
      FilterEmptyIff(keep, s[1..]);
      assert forall i | 1 <= i < |s| :: s[i] == s[1..][i - 1];
    }
  }

  /** Every byte value is kept as many times as it occurs, or dropped entirely. */
  lemma {:induction false} FilterCounts(keep: uint8 -> bool, s: seq<uint8>)
    ensures forall x :: multiset(Filter(keep, s))[x] == if keep(x) then multiset(s)[x] else 0
  {
    if s != [] {
      FilterCounts(keep, s[1..]);
      assert s == [s[0]] + s[1..];
    }
  }

  /** When every byte is kept, the filter is the identity. */
  lemma {:induction false} FilterAll(keep: uint8 -> bool, s: seq<uint8>)
    requires forall i | 0 <= i < |s| :: keep(s[i])
    ensures Filter(keep, s) == s
  {
    if s != [] {
      FilterAll(keep, s[1..]);
    }
  }

  // ---------------------------------------------------------------------------
  // Properties of the CEA-608 pair walk

  /** The pair walk keeps exactly the printable bytes of the even prefix, in order. */
  lemma {:induction false} Kept608IsFilter(data: seq<uint8>)
    ensures Kept608(data) == Filter(Is608Printable, data[..EvenLength(|data|)])
    decreases |data|
  {
    if |data| < 2 {
      assert data[..EvenLength(|data|)] == [];
    } else {
      var rest := data[2..];
      Kept608IsFilter(rest);
      var e := EvenLength(|data|);
      assert data[..e] == [data[0], data[1]] + rest[..EvenLength(|rest|)];
      FilterPair(Is608Printable, data[0], data[1], rest[..EvenLength(|rest|)]);
    }
  }

  lemma FilterPair(keep: uint8 -> bool, a: uint8, b: uint8, t: seq<uint8>)
    ensures Filter(keep, [a, b] + t) == Keep(keep, a) + Keep(keep, b) + Filter(keep, t)
  {
    assert ([a, b] + t)[1..] == [b] + t;
    assert ([b] + t)[1..] == t;
  }

  /** decode_cea608_to_utf8 returns NULL exactly when no byte of a complete
      pair is printable, and otherwise the printable bytes of the even
      prefix, in input order. */
  lemma Decode608Spec(data: seq<uint8>)
    ensures Decode608(data).None? <==> forall i | 0 <= i < EvenLength(|data|) :: !Is608Printable(data[i])
    ensures Decode608(data).Some? ==> Decode608(data).value == Filter(Is608Printable, data[..EvenLength(|data|)])
  {
    Kept608IsFilter(data);
    FilterEmptyIff(Is608Printable, data[..EvenLength(|data|)]);
  }

  /** decode_cea708_to_utf8 returns NULL exactly when no byte is printable,
      and otherwise a non-empty text of printable bytes in which every byte
      value occurs as often as in the input. */
  lemma Decode708Spec(data: seq<uint8>)
    ensures Decode708(data).None? <==> forall i | 0 <= i < |data| :: !Is708Printable(data[i])
    ensures Decode708(data).Some? ==>
              Decode708(data).value != [] &&
              forall i | 0 <= i < |Decode708(data).value| :: Is708Printable(Decode708(data).value[i])
    ensures Decode708(data).Some? ==>
              forall x :: multiset(Decode708(data).value)[x] == if Is708Printable(x) then multiset(data)[x] else 0
  {
    FilterEmptyIff(Is708Printable, data);
    FilterKeepsOnly(Is708Printable, data);
    FilterCounts(Is708Printable, data);
  }

  /** One step of the pair walk that has built `out` before index i. */
  lemma Kept608Step(data: seq<uint8>, i: nat, out: seq<uint8>)
    requires i + 1 < |data|
    ensures out + Kept608(data[i..]) ==
            (out + Keep(Is608Printable, data[i]) + Keep(Is608Printable, data[i + 1])) + Kept608(data[i + 2..])
  {
    assert data[i..][2..] == data[i + 2..];
  }

  /** A trailing odd byte never reaches the output. */
  lemma {:induction false} Decode608IgnoresTrailingByte(data: seq<uint8>, b: uint8)
    requires |data| % 2 == 0
    ensures Decode608(data + [b]) == Decode608(data)
  {
    Kept608TrailingByte(data, b);
  }

  lemma {:induction false} Kept608TrailingByte(data: seq<uint8>, b: uint8)
    requires |data| % 2 == 0
    ensures Kept608(data + [b]) == Kept608(data)
    decreases |data|
  {
    if |data| >= 2 {
      assert (data + [b])[2..] == data[2..] + [b];
      Kept608TrailingByte(data[2..], b);
    }
  }

  /** An even-length payload of printable bytes decodes to itself (to no
      text when it is empty). */
  lemma Decode608Identity(data: seq<uint8>)
    requires |data| % 2 == 0
    requires forall i | 0 <= i < |data| :: Is608Printable(data[i])
    ensures Decode608(data) == if data == [] then None else Some(data)
  {
    assert data[..EvenLength(|data|)] == data;
    FilterAll(Is608Printable, data);
    Decode608Spec(data);
  }

  /** The CEA-608 decoder only keeps printable bytes, each as often as it
      occurs in the examined pairs; the text is never empty. */
  lemma Decode608Contents(data: seq<uint8>)
    ensures Decode608(data).Some? ==> TextOf(Decode608(data)) != []
    ensures forall i | 0 <= i < |TextOf(Decode608(data))| :: Is608Printable(TextOf(Decode608(data))[i])
    ensures forall x :: multiset(TextOf(Decode608(data)))[x] ==
                        if Is608Printable(x) then multiset(data[..EvenLength(|data|)])[x] else 0
  {
    var p := data[..EvenLength(|data|)];
    Decode608Spec(data);
    FilterKeepsOnly(Is608Printable, p);
    FilterCounts(Is608Printable, p);
    FilterEmptyIff(Is608Printable, p);
  }

  /** Neither decoder ever produces a NUL byte, so strlen of the decoded C
      string is the length of the text. */
  lemma DecodedTextHasNoNul(data: seq<uint8>)
    ensures forall i | 0 <= i < |TextOf(Decode608(data))| :: TextOf(Decode608(data))[i] != 0
    ensures forall i | 0 <= i < |TextOf(Decode708(data))| :: TextOf(Decode708(data))[i] != 0
  {
    Decode608Contents(data);
    Decode708Spec(data);
  }

  /** The two byte ranges differ in 0x7F alone. */
  lemma PrintableRangesDifferOnlyIn7F(b: uint8)
    ensures Is608Printable(b) && !Is708Printable(b) <==> b == 0x7F
    ensures Is708Printable(b) ==> Is608Printable(b)
  {
  }

  /** 0x7F survives the CEA-608 decoder but not the CEA-708 decoder. */
  lemma DeleteByteDiffers()
    ensures Decode608([0x7F, 0x7F]) == Some([0x7F, 0x7F])
    ensures Decode708([0x7F, 0x7F]) == None
  {
    Decode608Identity([0x7F, 0x7F]);
  }

  /** Both decoders return no text for an empty payload. */
  lemma EmptyPayloadHasNoText()
    ensures Decode608([]) == None && Decode708([]) == None
  {
  }

  lemma Cea608Example()
    ensures Decode608([0x41, 0x42, 0x00, 0x43]) == Some([0x41, 0x42, 0x43])
  {
    var d: seq<uint8> := [0x41, 0x42, 0x00, 0x43];
    assert d[2..][2..] == [];
    assert Kept608(d[2..]) == [0x43];
    assert Kept608(d) == [0x41, 0x42, 0x43];
  }

  lemma Cea708Example()
    ensures Decode708([0x01, 0x48, 0x49]) == Some([0x48, 0x49])
  {
    var d: seq<uint8> := [0x01, 0x48, 0x49];
    assert d[2..][1..] == [];
    assert Filter(Is708Printable, d[2..]) == [0x49];
    assert d[1..][1..] == d[2..];
    assert Filter(Is708Printable, d[1..]) == [0x48, 0x49];
    assert Filter(Is708Printable, d) == [0x48, 0x49];
  }

  // ---------------------------------------------------------------------------
  // strlen over the decoded C string

  /** strlen: the number of bytes before the first NUL (all of them if none). */
  function StrLen(s: seq<uint8>): (n: nat)
    ensures n <= |s|
    ensures forall i | 0 <= i < n :: s[i] != 0
    ensures n < |s| ==> s[n] == 0
  {
    if s == [] || s[0] == 0 then 0 else 1 + StrLen(s[1..])
  }
}
