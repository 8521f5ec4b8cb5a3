/**
 * The protobuf wire format, as sections "Base 128 Varints" and "Message Structure" of the Protocol Buffers
 * Encoding guide define it, with the decoder's convention that a negative length is an error code.
 */
module Wire {
  import opened Bytes

  // Error codes: the callers compare a length with -1, so the codes are part of the interface.
  const TRUNCATED := -1
  const BAD_FIELD_NUMBER := -2
  const OVERFLOW := -3
  const RESERVED_TYPE := -4
  const BAD_END_GROUP := -5
  const TOO_DEEP := -6

  const GROUP_DEPTH_LIMIT := 10000

  type WireType = t: int | 0 <= t < 8
  const VARINT: WireType := 0
  const FIXED64: WireType := 1
  const BYTES: WireType := 2
  const START_GROUP: WireType := 3
  const END_GROUP: WireType := 4
  const FIXED32: WireType := 5

  type FieldNumber = n: int | 1 <= n < 0x8000_0000 witness 1

  /** A decoded value with the number of bytes it took, or an error code. */
  datatype Take<+T> = Took(value: T, n: nat) | Bad(code: int)

  datatype Tag = Tag(num: FieldNumber, wt: WireType)

  // ---- Decoders ----

  /** Exclusive bound on what is left of a 64-bit varint after i bytes. */
  function VarintBound(i: nat): (m: nat)
    requires i <= 9
    ensures m >= 2
    decreases 9 - i
  {
    if i == 9 then 2 else 128 * VarintBound(i + 1)
  }

  lemma VarintBoundIs64Bits()
    ensures VarintBound(0) == 0x1_0000_0000_0000_0000
  {
    assert VarintBound(7) == 0x8000;
    assert VarintBound(5) == 0x2000_0000;
    assert VarintBound(3) == 0x800_0000_0000;
    assert VarintBound(1) == 0x200_0000_0000_0000;
  }

  function ConsumeVarintFrom(b: Text, i: nat): (r: Take<nat>)
    requires i <= 9
    ensures r.Took? ==> 1 <= r.n <= |b| && r.n <= 10 - i && r.value < VarintBound(i)
    ensures r.Bad? ==> r.code == TRUNCATED || r.code == OVERFLOW
    decreases 9 - i
  {
    if |b| == 0 then Bad(TRUNCATED)
    else if i == 9 then (if b[0] < 2 then Took(b[0], 1) else Bad(OVERFLOW))
    else if b[0] < 128 then Took(b[0], 1)
    else
      match ConsumeVarintFrom(b[1..], i + 1)
      case Took(v, n) => Took(b[0] - 128 + 128 * v, n + 1)
      case Bad(code) => Bad(code)
  }

  function ConsumeVarint(b: Text): (r: Take<uint64>)
    ensures r.Took? ==> 1 <= r.n <= |b|
    ensures r.Bad? ==> r.code == TRUNCATED || r.code == OVERFLOW
  {
    VarintBoundIs64Bits();
    match ConsumeVarintFrom(b, 0)
    case Took(v, n) => Took(v, n)
    case Bad(code) => Bad(code)
  }

  function ConsumeTag(b: Text): (r: Take<Tag>)
    ensures r.Took? ==> 1 <= r.n <= |b|
    ensures r.Bad? ==> r.code < 0
  {
    match ConsumeVarint(b)
    case Bad(code) => Bad(code)
    case Took(v, n) =>
      if 1 <= v / 8 < 0x8000_0000 then Took(Tag(v / 8, v % 8), n) else Bad(BAD_FIELD_NUMBER)
  }

  function ConsumeFixed64(b: Text): (r: Take<uint64>)
    ensures r.Took? ==> r.n == 8 <= |b| && r.value == U64(b[..8])
    ensures r.Bad? ==> r.code == TRUNCATED && |b| < 8
  {
    if |b| < 8 then Bad(TRUNCATED) else Took(U64(b[..8]), 8)
  }

  function ConsumeBytes(b: Text): (r: Take<Text>)
    ensures r.Took? ==> 1 <= r.n <= |b|
    ensures r.Bad? ==> r.code == TRUNCATED || r.code == OVERFLOW
  {
    match ConsumeVarint(b)
    case Bad(code) => Bad(code)
    case Took(m, n) =>
      if m > |b| - n then Bad(TRUNCATED) else Took(b[n..n + m], n + m)
  }

  function LengthOf<T>(r: Take<T>): (n: int)
    ensures r.Took? ==> n == r.n
    ensures r.Bad? ==> n == r.code
  {
    match r
    case Took(_, n) => n
    case Bad(code) => code
  }

  /** Length of the value of a field, or an error code; groups nest at most `depth` + 1 deep. */
  function ConsumeFieldValueD(num: FieldNumber, wt: WireType, b: Text, depth: int): (n: int)
    ensures n < 0 || 1 <= n <= |b|
    decreases |b|, 1
  {
    if wt == VARINT then LengthOf(ConsumeVarint(b))
    else if wt == FIXED32 then (if |b| < 4 then TRUNCATED else 4)
    else if wt == FIXED64 then LengthOf(ConsumeFixed64(b))
    else if wt == BYTES then LengthOf(ConsumeBytes(b))
    else if wt == START_GROUP then (if depth < 0 then TOO_DEEP else ConsumeGroup(num, b, depth))
    else if wt == END_GROUP then BAD_END_GROUP
    else RESERVED_TYPE
  }

  /** Length of the fields up to and including the end tag of group `num`. */
  function ConsumeGroup(num: FieldNumber, b: Text, depth: int): (n: int)
    ensures n < 0 || 1 <= n <= |b|
    decreases |b|, 0
  {
    match ConsumeTag(b)
    case Bad(code) => code
    case Took(tag, n) =>
      if tag.wt == END_GROUP then (if tag.num == num then n else BAD_END_GROUP)
      else
        var m := ConsumeFieldValueD(tag.num, tag.wt, b[n..], depth - 1);
        if m < 0 then m
        else
          var k := ConsumeGroup(num, b[n + m..], depth);
          if k < 0 then k else n + m + k
  }

  function ConsumeFieldValue(num: FieldNumber, wt: WireType, b: Text): (n: int)
    ensures n < 0 || 1 <= n <= |b|
  {
    ConsumeFieldValueD(num, wt, b, GROUP_DEPTH_LIMIT)
  }

  // ---- A success does not depend on what follows ----

  lemma {:induction false} VarintPrefix(b: Text, rest: Text, i: nat)
    requires i <= 9 && ConsumeVarintFrom(b, i).Took?
    ensures ConsumeVarintFrom(b + rest, i) == ConsumeVarintFrom(b, i)
    decreases 9 - i
  {
    if i < 9 && b[0] >= 128 {
      VarintPrefix(b[1..], rest, i + 1);
      assert (b + rest)[1..] == b[1..] + rest;
    }
  }

  lemma TagPrefix(b: Text, rest: Text)
    requires ConsumeTag(b).Took?
    ensures ConsumeTag(b + rest) == ConsumeTag(b)
  {
    VarintPrefix(b, rest, 0);
  }

  lemma BytesPrefix(b: Text, rest: Text)
    requires ConsumeBytes(b).Took?
    ensures ConsumeBytes(b + rest) == ConsumeBytes(b)
  {
    VarintPrefix(b, rest, 0);
    var n, m := ConsumeVarint(b).n, ConsumeVarint(b).value;
    assert (b + rest)[n..n + m] == b[n..n + m];
  }

  lemma {:induction false} FieldValuePrefix(num: FieldNumber, wt: WireType, b: Text, rest: Text, depth: int)
    requires ConsumeFieldValueD(num, wt, b, depth) >= 0
    ensures ConsumeFieldValueD(num, wt, b + rest, depth) == ConsumeFieldValueD(num, wt, b, depth)
    decreases |b|, 1
  {
    if wt == VARINT {
      VarintPrefix(b, rest, 0);
    } else if wt == BYTES {
      BytesPrefix(b, rest);
    } else if wt == START_GROUP {
      GroupPrefix(num, b, rest, depth);
    }
  }

  lemma {:induction false} GroupPrefix(num: FieldNumber, b: Text, rest: Text, depth: int)
    requires ConsumeGroup(num, b, depth) >= 0
    ensures ConsumeGroup(num, b + rest, depth) == ConsumeGroup(num, b, depth)
    decreases |b|, 0
  {
    hide *;
    var tag, n, m := GroupCases(num, b, depth);
    TagPrefix(b, rest);
    if tag.wt == END_GROUP {
      GroupEnd(num, b + rest, depth, n);
    } else {
      FieldValuePrefix(tag.num, tag.wt, b[n..], rest, depth - 1);
      DropConcat(b, rest, n);
      DropConcat(b, rest, n + m);
      GroupPrefix(num, b[n + m..], rest, depth);
      GroupUnfold(num, b + rest, depth, tag, n, m);
    }
  }

  /** What a complete group starts with: its end tag, or a field and the rest of the group. */
  lemma GroupCases(num: FieldNumber, b: Text, depth: int) returns (tag: Tag, n: nat, m: nat)
    requires ConsumeGroup(num, b, depth) >= 0
    ensures ConsumeTag(b) == Took(tag, n) && 1 <= n <= |b|
    ensures tag.wt == END_GROUP ==> tag.num == num && ConsumeGroup(num, b, depth) == n
    ensures tag.wt != END_GROUP ==> n + m <= |b| && ConsumeFieldValueD(tag.num, tag.wt, b[n..], depth - 1) == m
    ensures tag.wt != END_GROUP ==>
              (var k := ConsumeGroup(num, b[n + m..], depth); k >= 0 && ConsumeGroup(num, b, depth) == n + m + k <= |b|)
  {
    hide ConsumeTag, ConsumeFieldValueD;
    var r := ConsumeTag(b);
    tag, n, m := r.value, r.n, 0;
    if tag.wt != END_GROUP {
      m := ConsumeFieldValueD(tag.num, tag.wt, b[n..], depth - 1);
      var k := ConsumeGroup(num, b[n + m..], depth);
    }
  }

  lemma GroupEnd(num: FieldNumber, b: Text, depth: int, n: nat)
    requires ConsumeTag(b) == Took(Tag(num, END_GROUP), n)
    ensures ConsumeGroup(num, b, depth) == n
  {}

  lemma DropConcat(b: Text, rest: Text, n: nat)
    requires n <= |b|
    ensures (b + rest)[n..] == b[n..] + rest
  {}

  lemma GroupUnfold(num: FieldNumber, b: Text, depth: int, tag: Tag, n: nat, m: int)
    requires ConsumeTag(b) == Took(tag, n) && tag.wt != END_GROUP
    requires m == ConsumeFieldValueD(tag.num, tag.wt, b[n..], depth - 1)
    ensures m < 0 ==> ConsumeGroup(num, b, depth) == m
    ensures m >= 0 ==>
              (var k := ConsumeGroup(num, b[n + m..], depth);
               ConsumeGroup(num, b, depth) == if k < 0 then k else n + m + k)
  {
    hide ConsumeTag, ConsumeFieldValueD;
  }

  // ---- Splitting a message into fields ----

  /** One field as it lies on the wire: its tag and the bytes of its value. */
  datatype Field = Field(num: FieldNumber, wt: WireType, value: Text)

  /** Why the splitting of a message stopped. */
  datatype Stop = AtEnd | BadTag(code: int) | BadValue(code: int)

  datatype Message = Message(fields: seq<Field>, stop: Stop)

  /** Splits one field off the front. */
  function ConsumeField(b: Text): (r: Take<Field>)
    ensures r.Took? ==> 1 <= r.n <= |b|
    ensures r.Bad? ==> r.code < 0
  {
    match ConsumeTag(b)
    case Bad(code) => Bad(code)
    case Took(tag, n) =>
      var m := ConsumeFieldValue(tag.num, tag.wt, b[n..]);
      if m < 0 then Bad(m) else Took(Field(tag.num, tag.wt, b[n..n + m]), n + m)
  }

  function Split(b: Text): (m: Message)
    ensures m.stop.BadTag? ==> m.stop.code < 0
    ensures m.stop.BadValue? ==> m.stop.code < 0
    decreases |b|
  {
    if |b| == 0 then Message([], AtEnd)
    else
      match ConsumeField(b)
      case Bad(code) => Message([], if ConsumeTag(b).Bad? then BadTag(code) else BadValue(code))
      case Took(f, n) =>
        var tail := Split(b[n..]);
        Message([f] + tail.fields, tail.stop)
  }

  lemma SliceConcat(b: Text, rest: Text, lo: nat, hi: nat)
    requires lo <= hi <= |b|
    ensures (b + rest)[lo..hi] == b[lo..hi]
  {}

  lemma FieldPrefix(b: Text, rest: Text)
    requires ConsumeField(b).Took?
    ensures ConsumeField(b + rest) == ConsumeField(b)
  {
    hide ConsumeFieldValue, ConsumeTag;
    var Took(tag, n) := ConsumeTag(b);
    var m := ConsumeFieldValue(tag.num, tag.wt, b[n..]);
    TagPrefix(b, rest);
    ValuePrefix(tag.num, tag.wt, b[n..], rest);
    DropConcat(b, rest, n);
    SliceConcat(b, rest, n, n + m);
  }

  lemma ValuePrefix(num: FieldNumber, wt: WireType, b: Text, rest: Text)
    requires ConsumeFieldValue(num, wt, b) >= 0
    ensures ConsumeFieldValue(num, wt, b + rest) == ConsumeFieldValue(num, wt, b)
  {
    hide ConsumeFieldValueD;
    FieldValuePrefix(num, wt, b, rest, GROUP_DEPTH_LIMIT);
  }

  lemma FieldExact(b: Text)
    requires ConsumeField(b).Took?
    ensures var f := ConsumeField(b).value; ConsumeFieldValue(f.num, f.wt, f.value) == |f.value|
  {
    hide ConsumeFieldValue, ConsumeTag;
    var Took(tag, n) := ConsumeTag(b);
    var m := ConsumeFieldValue(tag.num, tag.wt, b[n..]);
    ValueCut(tag.num, tag.wt, b[n..]);
    assert b[n..n + m] == b[n..][..m];
  }

  lemma ValueCut(num: FieldNumber, wt: WireType, b: Text)
    requires ConsumeFieldValue(num, wt, b) >= 0
    ensures var m := ConsumeFieldValue(num, wt, b); m <= |b| && ConsumeFieldValue(num, wt, b[..m]) == m
  {
    hide ConsumeFieldValueD;
    FieldValueCut(num, wt, b, GROUP_DEPTH_LIMIT);
  }

  lemma SplitUnfold(b: Text)
    requires ConsumeField(b).Took?
    ensures var Took(f, n) := ConsumeField(b); Split(b) == Message([f] + Split(b[n..]).fields, Split(b[n..]).stop)
  {
    hide ConsumeField, ConsumeTag;
  }

  /** The bytes a field's value took decode, on their own, to that same value. */
  lemma {:induction false} SplitFieldsExact(b: Text, i: nat)
    requires i < |Split(b).fields|
    ensures var f := Split(b).fields[i]; ConsumeFieldValue(f.num, f.wt, f.value) == |f.value|
    decreases |b|
  {
    hide ConsumeField, ConsumeTag, ConsumeFieldValue;
    SplitUnfold(b);
    if i == 0 {
      FieldExact(b);
    } else {
      SplitFieldsExact(b[ConsumeField(b).n..], i - 1);
    }
  }

  lemma {:induction false} VarintCut(b: Text, i: nat)
    requires i <= 9 && ConsumeVarintFrom(b, i).Took?
    ensures var r := ConsumeVarintFrom(b, i); ConsumeVarintFrom(b[..r.n], i) == r
    decreases 9 - i
  {
    if i < 9 && b[0] >= 128 {
      VarintCut(b[1..], i + 1);
      var n := ConsumeVarintFrom(b, i).n;
      assert b[..n][1..] == b[1..][..n - 1];
    }
  }

  lemma {:induction false} FieldValueCut(num: FieldNumber, wt: WireType, b: Text, depth: int)
    requires ConsumeFieldValueD(num, wt, b, depth) >= 0
    ensures var m := ConsumeFieldValueD(num, wt, b, depth); ConsumeFieldValueD(num, wt, b[..m], depth) == m
    decreases |b|, 1
  {
    var m := ConsumeFieldValueD(num, wt, b, depth);
    if wt == VARINT {
      VarintCut(b, 0);
    } else if wt == BYTES {
      VarintCutExtended(b, m);
    } else if wt == START_GROUP {
      GroupCut(num, b, depth);
    }
  }

  lemma VarintCutExtended(b: Text, m: nat)
    requires ConsumeVarint(b).Took? && ConsumeVarint(b).n <= m <= |b|
    ensures ConsumeVarint(b[..m]) == ConsumeVarint(b)
  {
    VarintCut(b, 0);
    var n := ConsumeVarint(b).n;
    VarintPrefix(b[..n], b[n..m], 0);
    assert b[..m] == b[..n] + b[n..m];
  }

  lemma {:induction false} GroupCut(num: FieldNumber, b: Text, depth: int)
    requires ConsumeGroup(num, b, depth) >= 0
    ensures var k := ConsumeGroup(num, b, depth); ConsumeGroup(num, b[..k], depth) == k
    decreases |b|, 0
  {
    hide *;
    var total := ConsumeGroup(num, b, depth);
    var tag, n, m := GroupCases(num, b, depth);
    TagCut(b, total);
    if tag.wt == END_GROUP {
      GroupEnd(num, b[..total], depth, n);
    } else {
      FieldValueCutExtended(tag.num, tag.wt, b[n..], m, total - n, depth - 1);
      TakeDrop(b, n, total);
      TakeDrop(b, n + m, total);
      GroupCut(num, b[n + m..], depth);
      GroupUnfold(num, b[..total], depth, tag, n, m);
    }
  }

  lemma TagCut(b: Text, end: nat)
    requires ConsumeTag(b).Took? && ConsumeTag(b).n <= end <= |b|
    ensures ConsumeTag(b[..end]) == ConsumeTag(b)
  {
    VarintCutExtended(b, end);
  }

  lemma TakeDrop(b: Text, n: nat, total: nat)
    requires n <= total <= |b|
    ensures b[..total][n..] == b[n..][..total - n]
  {}

  lemma FieldValueCutExtended(num: FieldNumber, wt: WireType, b: Text, m: nat, end: nat, depth: int)
    requires ConsumeFieldValueD(num, wt, b, depth) == m && m <= end <= |b|
    ensures ConsumeFieldValueD(num, wt, b[..end], depth) == m
    decreases |b|, 2
  {
    FieldValueCut(num, wt, b, depth);
    FieldValuePrefix(num, wt, b[..m], b[m..end], depth);
    assert b[..end] == b[..m] + b[m..end];
  }

  /** Complete fields can be split off the front of any message. */
  lemma {:induction false} SplitConcat(pre: Text, post: Text)
    requires Split(pre).stop == AtEnd
    ensures Split(pre + post) == Message(Split(pre).fields + Split(post).fields, Split(post).stop)
    decreases |pre|
  {
    hide ConsumeField, ConsumeTag;
    if |pre| == 0 {
      assert pre + post == post;
    } else {
      FieldPrefix(pre, post);
      SplitUnfold(pre);
      SplitUnfold(pre + post);
      var Took(f, n) := ConsumeField(pre);
      hide *;
      DropConcat(pre, post, n);
      SplitConcat(pre[n..], post);
      PrependAssociates(f, Split(pre[n..]).fields, Split(post).fields);
    }
  }

  lemma PrependAssociates(f: Field, fs: seq<Field>, gs: seq<Field>)
    ensures [f] + (fs + gs) == ([f] + fs) + gs
  {}

  // ---- Encoders ----

  function AppendVarint(v: nat): (b: Text)
    ensures |b| >= 1
  {
    if v < 128 then [v] else [v % 128 + 128] + AppendVarint(v / 128)
  }

  function AppendTag(num: FieldNumber, wt: WireType): Text {
    AppendVarint(8 * num + wt)
  }

  function AppendBytes(b: Text): Text {
    AppendVarint(|b|) + b
  }

  /** What a writer can put in a field without using groups. */
  datatype Value =
    | VarintValue(v: uint64)
    | Fixed64Value(bits: uint64)
    | BytesValue(bytes: Text)
    | Fixed32Value(word: uint32)

  datatype Entry = Entry(num: FieldNumber, value: Value)

  function TypeOf(v: Value): WireType {
    match v
    case VarintValue(_) => VARINT
    case Fixed64Value(_) => FIXED64
    case BytesValue(_) => BYTES
    case Fixed32Value(_) => FIXED32
  }

  function EncodeValue(v: Value): Text {
    match v
    case VarintValue(u) => AppendVarint(u)
    case Fixed64Value(bits) => PutU64(bits)
    case BytesValue(bytes) => AppendBytes(bytes)
    case Fixed32Value(word) => PutU32(word)
  }

  function EncodeEntry(e: Entry): Text {
    AppendTag(e.num, TypeOf(e.value)) + EncodeValue(e.value)
  }

  function EncodeMessage(es: seq<Entry>): Text {
    if |es| == 0 then [] else EncodeEntry(es[0]) + EncodeMessage(es[1..])
  }

  /** A length that fits the decoder: 64-bit byte counts. */
  predicate Encodable(es: seq<Entry>) {
    forall e <- es | e.value.BytesValue? :: |e.value.bytes| < 0x1_0000_0000_0000_0000
  }

  lemma {:induction false} VarintRoundTrip(v: nat, rest: Text, i: nat)
    requires i <= 9 && v < VarintBound(i)
    ensures ConsumeVarintFrom(AppendVarint(v) + rest, i) == Took(v, |AppendVarint(v)|)
    decreases 9 - i
  {
    var b := AppendVarint(v) + rest;
    if v >= 128 {
      assert i < 9 && v / 128 < VarintBound(i + 1);
      VarintRoundTrip(v / 128, rest, i + 1);
      hide VarintBound;
      assert b[1..] == AppendVarint(v / 128) + rest;
    }
  }

  lemma TagRoundTrip(num: FieldNumber, wt: WireType, rest: Text)
    ensures ConsumeTag(AppendTag(num, wt) + rest) == Took(Tag(num, wt), |AppendTag(num, wt)|)
  {
    VarintBoundIs64Bits();
    VarintRoundTrip(8 * num + wt, rest, 0);
  }

  lemma BytesRoundTrip(b: Text, rest: Text)
    requires |b| < 0x1_0000_0000_0000_0000
    ensures ConsumeBytes(AppendBytes(b) + rest) == Took(b, |AppendBytes(b)|)
  {
    VarintBoundIs64Bits();
    VarintRoundTrip(|b|, b + rest, 0);
    var all := AppendBytes(b) + rest;
    assert all == AppendVarint(|b|) + (b + rest);
    var n := |AppendVarint(|b|)|;
    assert all[n..n + |b|] == b;
  }

  lemma ValueRoundTrip(num: FieldNumber, v: Value, rest: Text)
    requires v.BytesValue? ==> |v.bytes| < 0x1_0000_0000_0000_0000
    ensures ConsumeFieldValue(num, TypeOf(v), EncodeValue(v) + rest) == |EncodeValue(v)|
  {
    match v
    case VarintValue(u) => VarintBoundIs64Bits(); VarintRoundTrip(u, rest, 0);
    case Fixed64Value(bits) =>
    case BytesValue(bytes) => BytesRoundTrip(bytes, rest);
    case Fixed32Value(word) =>
  }

  function ToField(e: Entry): Field {
    Field(e.num, TypeOf(e.value), EncodeValue(e.value))
  }

  function ToFields(es: seq<Entry>): (fs: seq<Field>)
    ensures |fs| == |es|
    ensures forall i | 0 <= i < |es| :: fs[i] == ToField(es[i])
  {
    if |es| == 0 then [] else [ToField(es[0])] + ToFields(es[1..])
  }

  /** Splitting an encoded message gives back exactly the entries written, and nothing is left over. */
  lemma {:induction false} MessageRoundTrip(es: seq<Entry>)
    requires Encodable(es)
    ensures Split(EncodeMessage(es)) == Message(ToFields(es), AtEnd)
  {
    if |es| > 0 {
      var e, tail := es[0], EncodeMessage(es[1..]);
      EntryRoundTrip(e, tail);
      MessageRoundTrip(es[1..]);
      assert EncodeMessage(es) == EncodeEntry(e) + tail;
      hide ConsumeField, ConsumeTag, EncodeEntry;
      SplitUnfold(EncodeMessage(es));
      assert EncodeMessage(es)[|EncodeEntry(e)|..] == tail;
    }
  }

  lemma EntryRoundTrip(e: Entry, tail: Text)
    requires e.value.BytesValue? ==> |e.value.bytes| < 0x1_0000_0000_0000_0000
    ensures ConsumeField(EncodeEntry(e) + tail) == Took(ToField(e), |EncodeEntry(e)|)
  {
    hide EncodeValue, AppendTag, ConsumeTag, ConsumeFieldValue;
    var tag, value := AppendTag(e.num, TypeOf(e.value)), EncodeValue(e.value);
    var b := EncodeEntry(e) + tail;
    assert b == tag + (value + tail);
    TagRoundTrip(e.num, TypeOf(e.value), value + tail);
    ValueRoundTrip(e.num, e.value, tail);
    assert b[|tag|..] == value + tail;
    assert b[|tag|..|tag| + |value|] == value;
  }

  // ---- What the decoders make of a byte string ----

  /** The first i bytes ask for another one. */
  predicate Continues(b: Text, i: nat) {
    i <= |b| && forall j | 0 <= j < i :: b[j] >= 128
  }

  /** The number that groups of seven bits make, the lowest first. */
  function Base128(b: Text): nat {
    if |b| == 0 then 0 else b[0] % 128 + 128 * Base128(b[1..])
  }

  /**
   * A varint ends at the first byte below 128. If the data ends before that the code is -1, and if it does not fit
   * 64 bits the code is -3: ten bytes are too many unless the last is 0 or 1. Here i bytes have gone before.
   */
  predicate VarintIs(b: Text, i: nat, r: Take<nat>)
    requires i <= 9
  {
    match r
    case Bad(-1) => |b| < 10 - i && Continues(b, |b|)
    case Bad(-3) => |b| >= 10 - i && Continues(b, 9 - i) && b[9 - i] >= 2
    case Bad(_) => false
    case Took(v, n) =>
      && 1 <= n <= |b| && n <= 10 - i && Continues(b, n - 1) && b[n - 1] < 128 && v == Base128(b[..n])
      && (n == 10 - i ==> b[n - 1] < 2)
  }

  /** That is what is decoded, and nothing else can be. */
  lemma VarintExactly(b: Text, r: Take<nat>)
    ensures VarintIs(b, 0, r) <==> r == ConsumeVarint(b)
  {
    VarintFromExactly(b, 0);
    hide ConsumeVarintFrom, Base128;
  }

  lemma {:induction false} VarintFromExactly(b: Text, i: nat)
    requires i <= 9
    ensures VarintIs(b, i, ConsumeVarintFrom(b, i))
    decreases 9 - i
  {
    if i < 9 && |b| > 0 && b[0] >= 128 {
      VarintFromExactly(b[1..], i + 1);
      hide *;
      NextByteExactly(b, i, ConsumeVarintFrom(b[1..], i + 1));
    } else {
      FirstByteExactly(b, i);
    }
  }

  /** What the bytes after the first decode to, given what all of them do. */
  lemma NextByteExactly(b: Text, i: nat, tail: Take<nat>)
    requires i < 9 && |b| > 0 && b[0] >= 128 && tail == ConsumeVarintFrom(b[1..], i + 1)
    requires VarintIs(b[1..], i + 1, tail)
    ensures VarintIs(b, i, ConsumeVarintFrom(b, i))
  {
    if tail.Took? {
      assert b[..tail.n + 1][1..] == b[1..][..tail.n];
    }
  }

  lemma FirstByteExactly(b: Text, i: nat)
    requires i <= 9 && (|b| == 0 || i == 9 || b[0] < 128)
    ensures VarintIs(b, i, ConsumeVarintFrom(b, i))
  {
    if |b| > 0 {
      assert b[..1][1..] == [];
    }
  }

  lemma ContinuesAfter(b: Text, j: nat)
    requires 1 <= j <= |b| && b[0] >= 128
    ensures Continues(b, j) <==> Continues(b[1..], j - 1)
  {
    if Continues(b[1..], j - 1) {
      forall k | 0 < k < j ensures b[k] >= 128 {
        assert b[1..][k - 1] == b[k];
      }
    }
  }

  /** A tag is a varint: its low three bits are the wire type, and the rest is a 31-bit number that is not 0. */
  lemma TagExactly(b: Text)
    ensures match ConsumeVarint(b)
            case Bad(code) => ConsumeTag(b) == Bad(code)
            case Took(v, n) =>
              match ConsumeTag(b)
              case Bad(code) => code == -2 && (v < 8 || v >= 0x4_0000_0000)
              case Took(tag, k) => v == 8 * tag.num + tag.wt && k == n
  {}

  /** The length of a value that is no group, by its wire type, and the codes of the values that have none. */
  lemma PlainValueExactly(num: FieldNumber, wt: WireType, b: Text)
    requires wt != 3
    ensures var n := ConsumeFieldValue(num, wt, b); var varint := ConsumeVarint(b);
      match wt
      case 0 => n == if varint.Took? then varint.n else varint.code
      case 1 => n == if |b| < 8 then -1 else 8
      case 5 => n == if |b| < 4 then -1 else 4
      case 2 => n == if varint.Bad? then varint.code else if varint.n + varint.value > |b| then -1
                     else varint.n + varint.value
      case 4 => n == -5
      case _ => n == -4
    ensures wt == 2 && ConsumeFieldValue(num, wt, b) > 0 ==>
              ConsumeBytes(b).Took? && ConsumeBytes(b).value == b[ConsumeVarint(b).n..ConsumeFieldValue(num, wt, b)]
  {
    hide ConsumeVarint;
  }

  /** A group ends at an end tag of its own number; any other end tag is refused with -5. */
  lemma GroupEndExactly(num: FieldNumber, other: FieldNumber, depth: int, rest: Text)
    ensures ConsumeGroup(num, AppendTag(other, END_GROUP) + rest, depth) ==
            if other == num then |AppendTag(num, END_GROUP)| else -5
  {
    TagRoundTrip(other, END_GROUP, rest);
    hide ConsumeTag, AppendTag;
  }

  /** What follows the start tag of a group that holds n groups, one inside the other. */
  function Nested(num: FieldNumber, n: nat): Text {
    if n == 0 then AppendTag(num, END_GROUP)
    else (AppendTag(num, START_GROUP) + Nested(num, n - 1)) + AppendTag(num, END_GROUP)
  }

  /** A group may hold 10000 others, one inside the other, and no more. */
  lemma GroupsNestExactly(num: FieldNumber, n: nat, rest: Text)
    ensures ConsumeFieldValue(num, 3, Nested(num, n) + rest) == if n <= 10000 then |Nested(num, n)| else -6
  {
    NestedGroups(num, n, 10000, rest);
    hide Nested, ConsumeGroup;
  }

  lemma {:induction false} NestedGroups(num: FieldNumber, n: nat, depth: nat, rest: Text)
    ensures ConsumeGroup(num, Nested(num, n) + rest, depth) == if n <= depth then |Nested(num, n)| else -6
    decreases n
  {
    hide ConsumeTag, AppendTag, ConsumeGroup;
    if n == 0 {
      GroupEndExactly(num, num, depth, rest);
    } else {
      var start, inner, end := AppendTag(num, START_GROUP), Nested(num, n - 1), AppendTag(num, END_GROUP);
      var b := Nested(num, n) + rest;
      assert b == start + (inner + (end + rest));
      TagRoundTrip(num, START_GROUP, inner + (end + rest));
      assert b[|start|..] == inner + (end + rest);
      if depth > 0 {
        NestedGroups(num, n - 1, depth - 1, end + rest);
      }
      var m := ConsumeFieldValueD(num, START_GROUP, b[|start|..], depth - 1);
      GroupUnfold(num, b, depth, Tag(num, START_GROUP), |start|, m);
      if n <= depth {
        assert b[|start| + m..] == end + rest;
        GroupEndExactly(num, num, depth, rest);
      }
    }
  }

  // ---- Data that is cut off ----

  lemma VarintTruncated(b: Text, k: nat)
    requires ConsumeVarint(b).Took? && k < ConsumeVarint(b).n
    ensures ConsumeVarint(b[..k]) == Bad(-1)
  {
    VarintExactly(b, ConsumeVarint(b));
    VarintExactly(b[..k], Bad(-1));
    hide ConsumeVarint, Base128;
  }

  lemma TagTruncated(b: Text, k: nat)
    requires ConsumeTag(b).Took? && k < ConsumeTag(b).n
    ensures ConsumeTag(b[..k]) == Bad(-1)
  {
    hide ConsumeVarint;
    VarintTruncated(b, k);
  }

  /** A value that is cut off fails with -1, whatever its type and however deep in a group the cut is. */
  lemma {:induction false} ValueTruncated(num: FieldNumber, wt: WireType, b: Text, k: nat, depth: int)
    requires k < ConsumeFieldValueD(num, wt, b, depth)
    ensures ConsumeFieldValueD(num, wt, b[..k], depth) == -1
    decreases |b|, 1
  {
    hide ConsumeVarint;
    if wt == START_GROUP {
      GroupTruncated(num, b, k, depth);
    } else if wt == VARINT {
      VarintTruncated(b, k);
    } else if wt == BYTES {
      if k < ConsumeVarint(b).n {
        VarintTruncated(b, k);
      } else {
        VarintCutExtended(b, k);
      }
    }
  }

  lemma {:induction false} GroupTruncated(num: FieldNumber, b: Text, k: nat, depth: int)
    requires k < ConsumeGroup(num, b, depth)
    ensures ConsumeGroup(num, b[..k], depth) == -1
    decreases |b|, 0
  {
    hide *;
    var tag, n, m := GroupCases(num, b, depth);
    if k < n {
      TagTruncated(b, k);
      GroupWithoutTag(num, b[..k], depth, -1);
    } else if tag.wt != END_GROUP {
      TagCut(b, k);
      TakeDrop(b, n, k);
      if k < n + m {
        ValueTruncated(tag.num, tag.wt, b[n..], k - n, depth - 1);
        GroupUnfold(num, b[..k], depth, tag, n, -1);
      } else {
        FieldValueCutExtended(tag.num, tag.wt, b[n..], m, k - n, depth - 1);
        TakeDrop(b, n + m, k);
        GroupTruncated(num, b[n + m..], k - n - m, depth);
        GroupUnfold(num, b[..k], depth, tag, n, m);
      }
    }
  }

  lemma GroupWithoutTag(num: FieldNumber, b: Text, depth: int, code: int)
    requires ConsumeTag(b) == Bad(code)
    ensures ConsumeGroup(num, b, depth) == code
  {}

  /** A field that is cut off fails with -1, in its tag or in its value. */
  lemma FieldTruncated(b: Text, k: nat)
    requires ConsumeField(b).Took? && k < ConsumeField(b).n
    ensures ConsumeField(b[..k]) == Bad(-1)
  {
    hide ConsumeTag, ConsumeFieldValueD;
    var Took(tag, n) := ConsumeTag(b);
    if k < n {
      TagTruncated(b, k);
    } else {
      TagCut(b, k);
      TakeDrop(b, n, k);
      ValueTruncated(tag.num, tag.wt, b[n..], k - n, GROUP_DEPTH_LIMIT);
    }
  }

  /** Cutting a message off anywhere leaves the fields that are complete, and no code but -1. */
  lemma {:induction false} CutSplits(b: Text, k: nat)
    requires Split(b).stop == AtEnd && k <= |b|
    ensures Split(b[..k]).stop in {AtEnd, BadTag(-1), BadValue(-1)}
    ensures Split(b[..k]).fields <= Split(b).fields
    decreases |b|
  {
    hide ConsumeField, ConsumeTag;
    if k == 0 {
    } else if k < ConsumeField(b).n {
      FieldTruncated(b, k);
    } else {
      var n := ConsumeField(b).n;
      FieldCutExtended(b, k);
      SplitUnfold(b);
      SplitUnfold(b[..k]);
      TakeDrop(b, n, k);
      CutSplits(b[n..], k - n);
    }
  }

  lemma FieldCutExtended(b: Text, k: nat)
    requires ConsumeField(b).Took? && ConsumeField(b).n <= k <= |b|
    ensures ConsumeField(b[..k]) == ConsumeField(b)
  {
    hide ConsumeTag, ConsumeFieldValueD;
    var Took(tag, n) := ConsumeTag(b);
    var m := ConsumeFieldValue(tag.num, tag.wt, b[n..]);
    TagCut(b, k);
    TakeDrop(b, n, k);
    FieldValueCutExtended(tag.num, tag.wt, b[n..], m, k - n, GROUP_DEPTH_LIMIT);
    assert b[..k][n..n + m] == b[n..n + m];
  }
}
