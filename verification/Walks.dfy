/** The loops that read the statistics and environment messages of a run file. */
module Walks {
  import opened Wrappers
  import opened Bytes
  import opened Wire

  // ---- What a walk over a message means ----

  function FoldFields<S>(step: (S, Field) -> S, s: S, fs: seq<Field>): S {
    if |fs| == 0 then s else FoldFields(step, step(s, fs[0]), fs[1..])
  }

  /**
   * A walk applies `step` to each field in turn. It ends quietly when the message ends, at a bad tag, or at a
   * value that fails with code -1. Any other negative length is used to reslice the data, which panics.
   */
  function Walk<S>(step: (S, Field) -> S, s: S, b: Text): Call<S> {
    var m := Split(b);
    if m.stop.BadValue? && m.stop.code != TRUNCATED then Panicked
    else Returned(FoldFields(step, s, m.fields))
  }

  lemma WalkStep<S>(step: (S, Field) -> S, s: S, b: Text)
    requires ConsumeField(b).Took?
    ensures var Took(f, n) := ConsumeField(b); Walk(step, s, b) == Walk(step, step(s, f), b[n..])
  {
    hide ConsumeField;
    SplitUnfold(b);
    var Took(f, n) := ConsumeField(b);
    assert ([f] + Split(b[n..]).fields)[1..] == Split(b[n..]).fields;
  }

  /** How a walk ends, by what it finds at the front of the data. */
  lemma WalkEnds<S>(step: (S, Field) -> S, s: S, b: Text)
    ensures |b| == 0 || ConsumeTag(b).Bad? ==> Walk(step, s, b) == Returned(s)
    ensures ConsumeTag(b).Took? ==>
              (var Took(tag, n) := ConsumeTag(b);
               var m := ConsumeFieldValue(tag.num, tag.wt, b[n..]);
               && (m == TRUNCATED ==> Walk(step, s, b) == Returned(s))
               && (m < TRUNCATED ==> Walk(step, s, b) == Panicked))
  {
    hide ConsumeTag, ConsumeFieldValue;
  }

  lemma {:induction false} FoldConcat<S>(step: (S, Field) -> S, s: S, fs: seq<Field>, gs: seq<Field>)
    ensures FoldFields(step, s, fs + gs) == FoldFields(step, FoldFields(step, s, fs), gs)
    decreases |fs|
  {
    if |fs| == 0 {
      assert fs + gs == gs;
    } else {
      FoldConcat(step, step(s, fs[0]), fs[1..], gs);
      assert (fs + gs)[1..] == fs[1..] + gs;
    }
  }

  lemma FoldSnoc<S>(step: (S, Field) -> S, s: S, fs: seq<Field>, f: Field)
    ensures FoldFields(step, s, fs + [f]) == step(FoldFields(step, s, fs), f)
  {
    FoldConcat(step, s, fs, [f]);
    assert FoldFields(step, FoldFields(step, s, fs), [f]) == step(FoldFields(step, s, fs), f);
  }

  /** `pre` is a run of complete fields, so its end is a field boundary. */
  predicate Complete(pre: Text) {
    Split(pre).stop == AtEnd
  }

  /** A field the step ignores can be put at any field boundary, whatever follows. */
  lemma WalkIgnores<S(!new)>(step: (S, Field) -> S, s: S, pre: Text, chunk: Text, post: Text)
    requires Complete(pre) && Complete(chunk)
    requires forall f, t | f in Split(chunk).fields :: step(t, f) == t
    ensures Walk(step, s, pre + (chunk + post)) == Walk(step, s, pre + post)
  {
    hide Split;
    var fs, cs, ps := Split(pre).fields, Split(chunk).fields, Split(post).fields;
    SplitConcat(chunk, post);
    SplitConcat(pre, chunk + post);
    SplitConcat(pre, post);
    FoldConcat(step, s, fs, cs + ps);
    FoldConcat(step, s, fs, ps);
    FoldConcat(step, FoldFields(step, s, fs), cs, ps);
    FoldIgnores(step, FoldFields(step, s, fs), cs);
  }

  lemma {:induction false} FoldIgnores<S(!new)>(step: (S, Field) -> S, s: S, fs: seq<Field>)
    requires forall f, t | f in fs :: step(t, f) == t
    ensures FoldFields(step, s, fs) == s
  {
    if |fs| > 0 {
      assert step(s, fs[0]) == s;
      FoldIgnores(step, s, fs[1..]);
    }
  }

  /** After k bytes of complete fields comes a good tag whose value fails with a code other than -1. */
  predicate BreaksAt(b: Text, k: nat) {
    && k <= |b| && Complete(b[..k])
    && ConsumeTag(b[k..]).Took?
    && (var Took(tag, n) := ConsumeTag(b[k..]); ConsumeFieldValue(tag.num, tag.wt, b[k..][n..]) < TRUNCATED)
  }

  ghost predicate Breaks(b: Text) {
    exists k: nat :: BreaksAt(b, k)
  }

  /** The exact domain of the inner walks: they return unless some field value fails with another code. */
  lemma WalkReturnsExactly<S>(step: (S, Field) -> S, s: S, b: Text)
    ensures Walk(step, s, b).Panicked? <==> Breaks(b)
  {
    hide ConsumeTag, ConsumeFieldValue, BreaksAt, Split;
    if Walk(step, s, b).Panicked? {
      var k := FirstBreak(b);
    }
    forall k: nat | BreaksAt(b, k) ensures Walk(step, s, b).Panicked? {
      BreakPanics(step, s, b, k);
    }
  }

  lemma BreakPanics<S>(step: (S, Field) -> S, s: S, b: Text, k: nat)
    requires BreaksAt(b, k)
    ensures Walk(step, s, b).Panicked?
  {
    hide ConsumeTag, ConsumeFieldValue, Split;
    SplitConcat(b[..k], b[k..]);
    assert b == b[..k] + b[k..];
    BreakStops(b[k..]);
  }

  /** The same walk, but stopping at any negative length. It terminates on every byte string. */
  function StrictWalk<S>(step: (S, Field) -> S, s: S, b: Text): S
    decreases |b|
  {
    var r := ConsumeField(b);
    if r.Bad? then s else StrictWalk(step, step(s, r.value), b[r.n..])
  }

  /** Stopping at any negative length would make a walk total without changing the result of any walk that returns. */
  lemma {:induction false} StrictWalkAgrees<S>(step: (S, Field) -> S, s: S, b: Text)
    ensures if Breaks(b) then Walk(step, s, b) == Panicked else Walk(step, s, b) == Returned(StrictWalk(step, s, b))
  {
    WalkReturnsExactly(step, s, b);
    StrictWalkFolds(step, s, b);
  }

  lemma {:induction false} StrictWalkFolds<S>(step: (S, Field) -> S, s: S, b: Text)
    ensures StrictWalk(step, s, b) == FoldFields(step, s, Split(b).fields)
    decreases |b|
  {
    hide ConsumeTag, ConsumeFieldValue;
    var r := ConsumeField(b);
    if r.Took? {
      SplitUnfold(b);
      StrictWalkFolds(step, step(s, r.value), b[r.n..]);
      assert ([r.value] + Split(b[r.n..]).fields)[1..] == Split(b[r.n..]).fields;
    }
  }

  /** Any field of wire type 4, 6 or 7 at a field boundary breaks a walk, whatever follows. */
  lemma BadWireTypeBreaks<S>(step: (S, Field) -> S, s: S, pre: Text, num: FieldNumber, wt: WireType, post: Text)
    requires Complete(pre) && (wt == END_GROUP || wt > FIXED32)
    ensures Walk(step, s, pre + (AppendTag(num, wt) + post)).Panicked?
  {
    TagRoundTrip(num, wt, post);
    var b := AppendTag(num, wt) + post;
    assert ConsumeFieldValue(num, wt, b[|AppendTag(num, wt)|..]) < TRUNCATED;
    hide ConsumeTag, ConsumeFieldValue, AppendTag;
    BreakStops(b);
    SplitConcat(pre, b);
  }

  /** A message that is cut off anywhere never breaks a walk: it returns what the complete fields before the cut say. */
  lemma CutMessagesReturn<S>(step: (S, Field) -> S, s: S, b: Text, k: nat)
    requires Complete(b) && k <= |b|
    ensures var fs := Split(b[..k]).fields;
      fs <= Split(b).fields && Walk(step, s, b[..k]) == Returned(FoldFields(step, s, fs))
  {
    hide Split;
    CutSplits(b, k);
  }

  lemma BreakStops(b: Text)
    requires ConsumeTag(b).Took?
    requires var Took(tag, n) := ConsumeTag(b); ConsumeFieldValue(tag.num, tag.wt, b[n..]) < TRUNCATED
    ensures Split(b).stop.BadValue? && Split(b).stop.code != TRUNCATED
  {
    hide ConsumeTag, ConsumeFieldValue;
  }

  lemma {:induction false} FirstBreak(b: Text) returns (k: nat)
    requires Split(b).stop.BadValue? && Split(b).stop.code != TRUNCATED
    ensures BreaksAt(b, k)
    decreases |b|
  {
    hide ConsumeTag, ConsumeFieldValue;
    k := 0;
    if ConsumeField(b).Took? {
      SplitUnfold(b);
      var n := ConsumeField(b).n;
      var j := FirstBreak(b[n..]);
      k := n + j;
      OneField(b, n);
      hide *;
      SplitConcat(b[..n], b[n..][..j]);
      assert b[..k] == b[..n] + b[n..][..j];
      assert b[k..] == b[n..][j..];
      BreaksLater(b, n, j);
    } else {
      assert b[..0] == [] && b[0..] == b;
    }
  }

  lemma OneField(b: Text, n: nat)
    requires ConsumeField(b).Took? && ConsumeField(b).n == n
    ensures Complete(b[..n])
  {
    hide ConsumeField;
    FieldCutExtended(b, n);
    SplitUnfold(b[..n]);
    assert b[..n][n..] == [];
  }

  lemma FieldOfParts(b: Text, tag: Tag, n: nat, m: nat)
    requires ConsumeTag(b) == Took(tag, n) && ConsumeFieldValue(tag.num, tag.wt, b[n..]) == m
    ensures ConsumeField(b) == Took(Field(tag.num, tag.wt, b[n..][..m]), n + m)
    ensures b[n + m..] == b[n..][m..]
  {
    hide ConsumeTag, ConsumeFieldValue;
    assert b[n..n + m] == b[n..][..m];
  }

  lemma BreaksLater(b: Text, n: nat, j: nat)
    requires n <= |b| && BreaksAt(b[n..], j) && Split(b[..n + j]).stop == AtEnd && b[n + j..] == b[n..][j..]
    ensures BreaksAt(b, n + j)
  {
    hide Split, ConsumeTag, ConsumeFieldValue;
  }

  // ---- Field contents ----

  function TextOf(f: Field): Option<Text> {
    if f.wt == BYTES && ConsumeBytes(f.value).Took? then Some(TrimSpace(ConsumeBytes(f.value).value)) else None
  }

  /** Doubles stay 64-bit patterns. */
  function DoubleOf(f: Field): Option<uint64> {
    if f.wt == FIXED64 && |f.value| == 8 then Some(U64(f.value)) else None
  }

  function Int32Of(f: Field): Option<int32> {
    if f.wt == VARINT && ConsumeVarint(f.value).Took? then Some(Wrap32(ConsumeVarint(f.value).value)) else None
  }

  /** The content of the last field on the wire that has one of these numbers and this kind of content. */
  function Last<T>(fs: seq<Field>, nums: set<FieldNumber>, get: Field -> Option<T>): Option<T> {
    if |fs| == 0 then None
    else
      var f := fs[|fs| - 1];
      if f.num in nums && get(f).Some? then get(f) else Last(fs[..|fs| - 1], nums, get)
  }

  lemma LastSnoc<T>(fs: seq<Field>, f: Field, nums: set<FieldNumber>, get: Field -> Option<T>)
    ensures Last(fs + [f], nums, get) == if f.num in nums && get(f).Some? then get(f) else Last(fs, nums, get)
  {
    assert (fs + [f])[..|fs|] == fs;
  }

  // ---- RunStatsSummary ----

  const SUMMARY_SCORE: FieldNumber := 1
  const SUMMARY_AVG_TTK: FieldNumber := 6
  const SUMMARY_SCENARIO: FieldNumber := 19
  const SUMMARY_ACCURACY: FieldNumber := 44
  const SUMMARY_REAL_AVG_TTK: FieldNumber := 45
  const SUMMARY_CM360: FieldNumber := 46
  const SUMMARY_DURATION: FieldNumber := 47

  datatype ParsedStats = ParsedStats(
    scenarioName: Text,
    score: Option<uint64>,
    accuracy: Option<uint64>,
    avgTTKSeconds: Option<uint64>,
    durationSecs: Option<uint64>,
    sensCM360: Option<uint64>)

  const NO_STATS := ParsedStats([], None, None, None, None, None)

  /** What one decoded field does to the summary. */
  function SummaryStep(s: ParsedStats, f: Field): ParsedStats {
    if f.num == SUMMARY_SCENARIO then
      (if TextOf(f).Some? then s.(scenarioName := TextOf(f).value) else s)
    else if DoubleOf(f).None? then s
    else if f.num == SUMMARY_SCORE then s.(score := DoubleOf(f))
    else if f.num == SUMMARY_ACCURACY then s.(accuracy := DoubleOf(f))
    else if f.num == SUMMARY_AVG_TTK || f.num == SUMMARY_REAL_AVG_TTK then s.(avgTTKSeconds := DoubleOf(f))
    else if f.num == SUMMARY_DURATION then s.(durationSecs := DoubleOf(f))
    else if f.num == SUMMARY_CM360 then s.(sensCM360 := DoubleOf(f))
    else s
  }

  /** Every attribute of a summary is the last one written; fields 6 and 45 write the same attribute. */
  function LastSummary(fs: seq<Field>): ParsedStats {
    ParsedStats(
      Last(fs, {19}, TextOf).GetOr([]),
      Last(fs, {1}, DoubleOf),
      Last(fs, {44}, DoubleOf),
      Last(fs, {6, 45}, DoubleOf),
      Last(fs, {47}, DoubleOf),
      Last(fs, {46}, DoubleOf))
  }

  lemma NoSummaryFields()
    ensures FoldFields(SummaryStep, NO_STATS, []) == NO_STATS == LastSummary([])
  {
    hide SummaryStep, TextOf, DoubleOf;
  }

  lemma {:induction false} SummaryIsLastWriter(fs: seq<Field>)
    ensures FoldFields(SummaryStep, NO_STATS, fs) == LastSummary(fs)
  {
    NoSummaryFields();
    hide SummaryStep, LastSummary, FoldFields;
    if |fs| > 0 {
      var init, f := fs[..|fs| - 1], fs[|fs| - 1];
      SummaryIsLastWriter(init);
      FoldSnoc(SummaryStep, NO_STATS, init, f);
      assert fs == init + [f];
      SummarySnoc(init, f);
    }
  }

  lemma SummarySnoc(fs: seq<Field>, f: Field)
    ensures LastSummary(fs + [f]) == SummaryStep(LastSummary(fs), f)
  {
    hide Last, TextOf, DoubleOf;
    LastSnoc(fs, f, {19}, TextOf);
    LastSnoc(fs, f, {1}, DoubleOf);
    LastSnoc(fs, f, {44}, DoubleOf);
    LastSnoc(fs, f, {6, 45}, DoubleOf);
    LastSnoc(fs, f, {47}, DoubleOf);
    LastSnoc(fs, f, {46}, DoubleOf);
  }

  predicate SummaryReads(num: FieldNumber, wt: WireType) {
    if num == 19 then wt == 2 else num in {1, 6, 44, 45, 46, 47} && wt == 1
  }

  /** Fields with an unknown number or the wrong wire type, groups included, are skipped without a trace. */
  lemma SummaryIgnoresUnknown(s: ParsedStats, pre: Text, chunk: Text, post: Text)
    requires Complete(pre) && Complete(chunk)
    requires forall f <- Split(chunk).fields :: !SummaryReads(f.num, f.wt)
    ensures Walk(SummaryStep, s, pre + (chunk + post)) == Walk(SummaryStep, s, pre + post)
  {
    hide Split;
    WalkIgnores(SummaryStep, s, pre, chunk, post);
  }

  class SummaryReader {
    var scenarioName: Text
    var score: Option<uint64>
    var accuracy: Option<uint64>
    var avgTTKSeconds: Option<uint64>
    var durationSecs: Option<uint64>
    var sensCM360: Option<uint64>

    function Value(): ParsedStats
      reads this
    {
      ParsedStats(scenarioName, score, accuracy, avgTTKSeconds, durationSecs, sensCM360)
    }

    constructor ()
      ensures Value() == NO_STATS
    {
      scenarioName := [];
      score, accuracy, avgTTKSeconds, durationSecs, sensCM360 := None, None, None, None, None;
    }

    /** Reads one field value, or skips it, and returns its length or an error code. */
    method ReadSummaryField(num: FieldNumber, wt: WireType, data: Text) returns (consumed: int)
      modifies this
      ensures consumed == ConsumeFieldValue(num, wt, data)
      ensures consumed < 0 ==> Value() == old(Value())
      ensures consumed >= 0 ==> Value() == SummaryStep(old(Value()), Field(num, wt, data[..consumed]))
    {
      hide TextOf, DoubleOf, ConsumeFieldValue, ConsumeBytes, ConsumeFixed64, TrimSpace;
      ghost var n := ConsumeFieldValue(num, wt, data);
      OtherTypeReadsNothing(Field(num, wt, if n >= 0 then data[..n] else []));
      if num == SUMMARY_SCENARIO {
        if wt == BYTES {
          TextOfCut(num, data);
          var r := ConsumeBytes(data);
          if r.Took? {
            scenarioName := TrimSpace(r.value);
            return r.n;
          }
        }
      } else if wt == FIXED64 && SummaryReads(num, wt) {
        DoubleOfCut(num, data);
        var r := ConsumeFixed64(data);
        if r.Took? {
          if num == SUMMARY_SCORE {
            score := Some(r.value);
          } else if num == SUMMARY_ACCURACY {
            accuracy := Some(r.value);
          } else if num == SUMMARY_AVG_TTK || num == SUMMARY_REAL_AVG_TTK {
            avgTTKSeconds := Some(r.value);
          } else if num == SUMMARY_DURATION {
            durationSecs := Some(r.value);
          } else {
            sensCM360 := Some(r.value);
          }
          return r.n;
        }
      }
      consumed := ConsumeFieldValue(num, wt, data);
    }
  }

  // Reading a value off the front of the data and reading it from its own bytes give the same content.

  lemma TextOfCut(num: FieldNumber, data: Text)
    ensures ConsumeFieldValue(num, BYTES, data) == LengthOf(ConsumeBytes(data))
    ensures var r := ConsumeBytes(data); r.Took? ==> TextOf(Field(num, BYTES, data[..r.n])) == Some(TrimSpace(r.value))
  {
    hide TrimSpace, ConsumeBytes;
    if ConsumeBytes(data).Took? {
      BytesCut(data);
    }
  }

  lemma BytesCut(data: Text)
    requires ConsumeBytes(data).Took?
    ensures var r := ConsumeBytes(data); ConsumeBytes(data[..r.n]) == r
  {
    var n := ConsumeBytes(data).n;
    hide ConsumeVarint;
    VarintCutExtended(data, n);
    var k, m := ConsumeVarint(data).n, ConsumeVarint(data).value;
    assert data[..n][k..k + m] == data[k..k + m];
  }

  lemma DoubleOfCut(num: FieldNumber, data: Text)
    ensures ConsumeFieldValue(num, FIXED64, data) == LengthOf(ConsumeFixed64(data))
    ensures var r := ConsumeFixed64(data); r.Took? ==> DoubleOf(Field(num, FIXED64, data[..r.n])) == Some(r.value)
  {
    hide U64;
    if |data| >= 8 {
      assert data[..8][..8] == data[..8];
    }
  }

  lemma Int32OfCut(num: FieldNumber, data: Text)
    ensures ConsumeFieldValue(num, VARINT, data) == LengthOf(ConsumeVarint(data))
    ensures var r := ConsumeVarint(data); r.Took? ==> Int32Of(Field(num, VARINT, data[..r.n])) == Some(Wrap32(r.value))
  {
    hide ConsumeVarint, Wrap32;
    if ConsumeVarint(data).Took? {
      VarintCutExtended(data, ConsumeVarint(data).n);
    }
  }

  lemma OtherTypeReadsNothing(f: Field)
    ensures f.wt != BYTES ==> TextOf(f).None?
    ensures f.wt != FIXED64 ==> DoubleOf(f).None?
    ensures f.wt != VARINT ==> Int32Of(f).None?
  {}

  method ExtractSummaryFields(b: Text) returns (r: Call<ParsedStats>)
    ensures r == Walk(SummaryStep, NO_STATS, b)
  {
    hide Split, Walk, SummaryStep, ConsumeTag, ConsumeFieldValue, ConsumeField;
    var s := new SummaryReader();
    var data := b;
    while |data| > 0
      invariant Walk(SummaryStep, s.Value(), data) == Walk(SummaryStep, NO_STATS, b)
      decreases |data|
    {
      WalkEnds(SummaryStep, s.Value(), data);
      var tag := ConsumeTag(data);
      if tag.Bad? {
        return Returned(s.Value());
      }
      ghost var before := s.Value();
      ghost var was := data;
      data := data[tag.n..];
      var consumed := s.ReadSummaryField(tag.value.num, tag.value.wt, data);
      if consumed == TRUNCATED {
        return Returned(s.Value());
      }
      if consumed < 0 {
        return Panicked;
      }
      FieldOfParts(was, tag.value, tag.n, consumed);
      WalkStep(SummaryStep, before, was);
      data := data[consumed..];
    }
    WalkEnds(SummaryStep, s.Value(), data);
    return Returned(s.Value());
  }

  // ---- RunStatsData: the summary is its first field 1 ----

  const STATS_SUMMARY: FieldNumber := 1

  /** The content of the first message with field number 1, or nothing. */
  function FirstSummary(fs: seq<Field>): Text {
    if |fs| == 0 then []
    else if fs[0].num == STATS_SUMMARY && fs[0].wt == BYTES && ConsumeBytes(fs[0].value).Took? then
      ConsumeBytes(fs[0].value).value
    else FirstSummary(fs[1..])
  }

  /** The whole statistics section: the fields of its first summary message. */
  function StatsOf(b: Text): Call<ParsedStats> {
    Walk(SummaryStep, NO_STATS, FirstSummary(Split(b).fields))
  }

  /** Inserting other fields between those of the outer message changes nothing either. */
  lemma StatsIgnoreOtherFields(pre: Text, chunk: Text, post: Text)
    requires Complete(pre) && Complete(chunk)
    requires forall f <- Split(chunk).fields :: f.num != STATS_SUMMARY || f.wt != BYTES
    ensures StatsOf(pre + (chunk + post)) == StatsOf(pre + post)
  {
    hide Split, Walk;
    var fs, cs, ps := Split(pre).fields, Split(chunk).fields, Split(post).fields;
    SplitConcat(chunk, post);
    SplitConcat(pre, chunk + post);
    SplitConcat(pre, post);
    FirstSummarySkips(fs, cs, ps);
  }

  lemma {:induction false} FirstSummarySkips(fs: seq<Field>, cs: seq<Field>, ps: seq<Field>)
    requires forall f <- cs :: f.num != STATS_SUMMARY || f.wt != BYTES
    ensures FirstSummary(fs + (cs + ps)) == FirstSummary(fs + ps)
    decreases |fs|, |cs|
  {
    hide ConsumeBytes;
    if |fs| > 0 {
      assert (fs + (cs + ps))[1..] == fs[1..] + (cs + ps);
      assert (fs + ps)[1..] == fs[1..] + ps;
      FirstSummarySkips(fs[1..], cs, ps);
    } else if |cs| > 0 {
      assert (fs + (cs + ps))[1..] == fs + (cs[1..] + ps);
      assert (fs + (cs + ps))[0] == cs[0];
      FirstSummarySkips(fs, cs[1..], ps);
    } else {
      assert cs + ps == ps;
    }
  }

  /** The outer walk stops on any negative length, so it returns on every byte string. */
  method FindSummary(b: Text) returns (summary: Text)
    ensures summary == FirstSummary(Split(b).fields)
  {
    hide Split, FirstSummary, ConsumeTag, ConsumeFieldValue, ConsumeField, ConsumeBytes;
    var data := b;
    while |data| > 0
      invariant FirstSummary(Split(data).fields) == FirstSummary(Split(b).fields)
      decreases |data|
    {
      NoFirstField(data);
      var tag := ConsumeTag(data);
      if tag.Bad? {
        return [];
      }
      ghost var was := data;
      data := data[tag.n..];
      if tag.value.num == STATS_SUMMARY && tag.value.wt == BYTES {
        TextOfCut(tag.value.num, data);
        var r := ConsumeBytes(data);
        if r.Bad? {
          return [];
        }
        FieldOfParts(was, tag.value, tag.n, r.n);
        FirstFieldContent(was, r.n);
        return r.value;
      }
      var consumed := ConsumeFieldValue(tag.value.num, tag.value.wt, data);
      if consumed < 0 {
        return [];
      }
      FieldOfParts(was, tag.value, tag.n, consumed);
      FirstFieldOther(was);
      data := data[consumed..];
    }
    NoFirstField(data);
    return [];
  }

  lemma NoFirstField(b: Text)
    ensures |b| == 0 || ConsumeTag(b).Bad? ==> FirstSummary(Split(b).fields) == []
    ensures ConsumeTag(b).Took? ==>
              (var Took(tag, n) := ConsumeTag(b);
               ConsumeFieldValue(tag.num, tag.wt, b[n..]) < 0 ==> FirstSummary(Split(b).fields) == [])
  {
    hide ConsumeTag, ConsumeFieldValue;
  }

  lemma FirstFieldContent(b: Text, m: nat)
    requires ConsumeField(b).Took? && ConsumeField(b).value.num == STATS_SUMMARY && ConsumeField(b).value.wt == BYTES
    requires ConsumeTag(b).Took? && ConsumeBytes(b[ConsumeTag(b).n..]).Took?
        && ConsumeBytes(b[ConsumeTag(b).n..]).n == m
    requires ConsumeField(b).value.value == b[ConsumeTag(b).n..][..m]
    ensures FirstSummary(Split(b).fields) == ConsumeBytes(b[ConsumeTag(b).n..]).value
  {
    var data := b[ConsumeTag(b).n..];
    BytesCut(data);
    hide ConsumeField, ConsumeTag, ConsumeBytes;
    SplitUnfold(b);
  }

  lemma FirstFieldOther(b: Text)
    requires ConsumeField(b).Took?
    requires var f := ConsumeField(b).value; f.num != STATS_SUMMARY || f.wt != BYTES
    ensures FirstSummary(Split(b).fields) == FirstSummary(Split(b[ConsumeField(b).n..]).fields)
  {
    hide ConsumeField, ConsumeBytes;
    SplitUnfold(b);
    var Took(f, n) := ConsumeField(b);
    assert ([f] + Split(b[n..]).fields)[1..] == Split(b[n..]).fields;
  }

  method ExtractStatsSummary(b: Text) returns (r: Call<ParsedStats>)
    ensures r == StatsOf(b)
  {
    var summary := FindSummary(b);
    if |summary| == 0 {
      return Returned(NO_STATS);
    }
    r := ExtractSummaryFields(summary);
  }

  // ---- RunEnvironment ----

  const ENV_STEAM_ID: FieldNumber := 5
  const ENV_PERSONA_NAME: FieldNumber := 6
  const ENV_MOUSE_VID: FieldNumber := 16
  const ENV_MOUSE_PID: FieldNumber := 17
  const ENV_TRACE_POINTS: FieldNumber := 20

  datatype ParsedEnvironment = ParsedEnvironment(
    steamID: Text,
    steamUsername: Text,
    mouseVID: Text,
    mousePID: Text,
    tracePoints: int32)

  const NO_ENVIRONMENT := ParsedEnvironment([], [], [], [], 0)

  function EnvStep(e: ParsedEnvironment, f: Field): ParsedEnvironment {
    if f.num == ENV_TRACE_POINTS then
      (if Int32Of(f).Some? then e.(tracePoints := Int32Of(f).value) else e)
    else if TextOf(f).None? then e
    else if f.num == ENV_STEAM_ID then e.(steamID := TextOf(f).value)
    else if f.num == ENV_PERSONA_NAME then e.(steamUsername := TextOf(f).value)
    else if f.num == ENV_MOUSE_VID then e.(mouseVID := TextOf(f).value)
    else if f.num == ENV_MOUSE_PID then e.(mousePID := TextOf(f).value)
    else e
  }

  function LastEnvironment(fs: seq<Field>): ParsedEnvironment {
    ParsedEnvironment(
      Last(fs, {5}, TextOf).GetOr([]),
      Last(fs, {6}, TextOf).GetOr([]),
      Last(fs, {16}, TextOf).GetOr([]),
      Last(fs, {17}, TextOf).GetOr([]),
      Last(fs, {20}, Int32Of).GetOr(0))
  }

  lemma NoEnvironmentFields()
    ensures FoldFields(EnvStep, NO_ENVIRONMENT, []) == NO_ENVIRONMENT == LastEnvironment([])
  {
    hide EnvStep, TextOf, Int32Of;
  }

  lemma {:induction false} EnvironmentIsLastWriter(fs: seq<Field>)
    ensures FoldFields(EnvStep, NO_ENVIRONMENT, fs) == LastEnvironment(fs)
  {
    NoEnvironmentFields();
    hide EnvStep, LastEnvironment, FoldFields;
    if |fs| > 0 {
      var init, f := fs[..|fs| - 1], fs[|fs| - 1];
      EnvironmentIsLastWriter(init);
      FoldSnoc(EnvStep, NO_ENVIRONMENT, init, f);
      assert fs == init + [f];
      EnvironmentSnoc(init, f);
    }
  }

  lemma EnvironmentSnoc(fs: seq<Field>, f: Field)
    ensures LastEnvironment(fs + [f]) == EnvStep(LastEnvironment(fs), f)
  {
    hide Last, TextOf, Int32Of;
    LastSnoc(fs, f, {5}, TextOf);
    LastSnoc(fs, f, {6}, TextOf);
    LastSnoc(fs, f, {16}, TextOf);
    LastSnoc(fs, f, {17}, TextOf);
    LastSnoc(fs, f, {20}, Int32Of);
  }

  predicate EnvReads(num: FieldNumber, wt: WireType) {
    if num == 20 then wt == 0 else num in {5, 6, 16, 17} && wt == 2
  }

  lemma EnvironmentIgnoresUnknown(e: ParsedEnvironment, pre: Text, chunk: Text, post: Text)
    requires Complete(pre) && Complete(chunk)
    requires forall f <- Split(chunk).fields :: !EnvReads(f.num, f.wt)
    ensures Walk(EnvStep, e, pre + (chunk + post)) == Walk(EnvStep, e, pre + post)
  {
    hide Split;
    WalkIgnores(EnvStep, e, pre, chunk, post);
  }

  class EnvironmentReader {
    var steamID: Text
    var steamUsername: Text
    var mouseVID: Text
    var mousePID: Text
    var tracePoints: int32

    function Value(): ParsedEnvironment
      reads this
    {
      ParsedEnvironment(steamID, steamUsername, mouseVID, mousePID, tracePoints)
    }

    constructor ()
      ensures Value() == NO_ENVIRONMENT
    {
      steamID, steamUsername, mouseVID, mousePID, tracePoints := [], [], [], [], 0;
    }

    method ReadEnvironmentField(num: FieldNumber, wt: WireType, data: Text) returns (consumed: int)
      modifies this
      ensures consumed == ConsumeFieldValue(num, wt, data)
      ensures consumed < 0 ==> Value() == old(Value())
      ensures consumed >= 0 ==> Value() == EnvStep(old(Value()), Field(num, wt, data[..consumed]))
    {
      hide TextOf, Int32Of, ConsumeFieldValue, ConsumeBytes, ConsumeVarint, TrimSpace;
      ghost var n := ConsumeFieldValue(num, wt, data);
      OtherTypeReadsNothing(Field(num, wt, if n >= 0 then data[..n] else []));
      if num == ENV_TRACE_POINTS {
        if wt == VARINT {
          Int32OfCut(num, data);
          var r := ConsumeVarint(data);
          if r.Took? {
            tracePoints := Wrap32(r.value);
            return r.n;
          }
        }
      } else if wt == BYTES && EnvReads(num, wt) {
        TextOfCut(num, data);
        var r := ConsumeBytes(data);
        if r.Took? {
          if num == ENV_STEAM_ID {
            steamID := TrimSpace(r.value);
          } else if num == ENV_PERSONA_NAME {
            steamUsername := TrimSpace(r.value);
          } else if num == ENV_MOUSE_VID {
            mouseVID := TrimSpace(r.value);
          } else {
            mousePID := TrimSpace(r.value);
          }
          return r.n;
        }
      }
      consumed := ConsumeFieldValue(num, wt, data);
    }
  }

  method ExtractEnvironment(b: Text) returns (r: Call<ParsedEnvironment>)
    ensures r == Walk(EnvStep, NO_ENVIRONMENT, b)
  {
    hide Split, Walk, EnvStep, ConsumeTag, ConsumeFieldValue, ConsumeField;
    var e := new EnvironmentReader();
    var data := b;
    while |data| > 0
      invariant Walk(EnvStep, e.Value(), data) == Walk(EnvStep, NO_ENVIRONMENT, b)
      decreases |data|
    {
      WalkEnds(EnvStep, e.Value(), data);
      var tag := ConsumeTag(data);
      if tag.Bad? {
        return Returned(e.Value());
      }
      ghost var before := e.Value();
      ghost var was := data;
      data := data[tag.n..];
      var consumed := e.ReadEnvironmentField(tag.value.num, tag.value.wt, data);
      if consumed == TRUNCATED {
        return Returned(e.Value());
      }
      if consumed < 0 {
        return Panicked;
      }
      FieldOfParts(was, tag.value, tag.n, consumed);
      WalkStep(EnvStep, before, was);
      data := data[consumed..];
    }
    WalkEnds(EnvStep, e.Value(), data);
    return Returned(e.Value());
  }
}
