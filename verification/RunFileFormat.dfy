/** The files the parser accepts: an exact grammar, byte accounting and the round trip of the canonical writer. */
module RunFileFormat {
  import opened Wrappers
  import opened Bytes
  import opened Wire
  import opened Walks
  import opened Mouse
  import opened RunFile

  // ---- Layouts ----

  /** A mouse section: empty, or an announced size and the points that are read from it. */
  datatype MouseLayout = NoMouse | Mouse(size: uint32, points: seq<Point>)

  datatype Layout = Layout(name: Text, stats: Text, performances: Text, mouse: MouseLayout, environment: Text)

  predicate FitsSize(b: Text) {
    |b| < 0x1_0000_0000
  }

  predicate ValidMouse(m: MouseLayout) {
    m.Mouse? ==> |m.points| <= 20000000 && 4 + POINT_SIZE * |m.points| <= m.size
  }

  predicate ValidLayout(l: Layout) {
    && 1 <= |l.name| <= 1024
    && FitsSize(l.stats) && FitsSize(l.performances) && FitsSize(l.environment)
    && ValidMouse(l.mouse)
  }

  function PutSized(b: Text): (r: Text)
    requires FitsSize(b)
    ensures |r| == 4 + |b|
  {
    PutU32(|b|) + b
  }

  function PutMouse(m: MouseLayout): (r: Text)
    requires ValidMouse(m)
    ensures |r| == if m.NoMouse? then 4 else 8 + POINT_SIZE * |m.points|
  {
    match m
    case NoMouse => PutU32(0)
    case Mouse(size, points) => PutU32(size) + PutU32(|points|) + PutPoints(points)
  }

  function PutLayout(l: Layout): Text
    requires ValidLayout(l)
  {
    PutSized(l.name) + (PutSized(l.stats) + (PutSized(l.performances) + (PutMouse(l.mouse) + PutSized(l.environment))))
  }

  function PointsOf(m: MouseLayout): seq<Point> {
    match m
    case NoMouse => []
    case Mouse(_, points) => points
  }

  /** What a layout means; it has no meaning when one of the two message walks panics. */
  function ContentsOf(hypot: Hypot, l: Layout): Call<Contents> {
    match (StatsOf(l.stats), EnvironmentOf(l.environment))
    case (Returned(stats), Returned(env)) => Returned(Contents(l.name, stats, MetricsOf(hypot, PointsOf(l.mouse)), env))
    case _ => Panicked
  }

  // ---- One section at a time ----

  lemma SizedRoundTrip(b: Text, rest: Text, error: ParseError)
    requires FitsSize(b)
    ensures SizedSection(PutSized(b) + rest, error) == Got(b, rest)
  {
    FixedRoundTrips();
    hide U32, PutU32;
    var all := PutSized(b) + rest;
    assert all[..4] == PutU32(|b|);
    assert all[4..4 + |b|] == b && all[4 + |b|..] == rest;
  }

  lemma SizedIsPut(b: Text, error: ParseError)
    requires SizedSection(b, error).Got?
    ensures var Got(body, rest) := SizedSection(b, error); FitsSize(body) && b == PutSized(body) + rest
  {
    FixedRoundTrips();
    hide U32, PutU32;
    var size := U32(b[..4]);
    assert b == b[..4] + b[4..4 + size] + b[4 + size..];
  }

  lemma MouseRoundTrip(hypot: Hypot, m: MouseLayout, rest: Text)
    requires ValidMouse(m)
    ensures MouseSection(hypot, PutMouse(m) + rest) == Got(MetricsOf(hypot, PointsOf(m)), rest)
  {
    FixedRoundTrips();
    hide U32, PutU32, TakePoints, PutPoints, MetricsOf;
    var b := PutMouse(m) + rest;
    match m
    case NoMouse =>
      assert b[..4] == PutU32(0) && b[4..] == rest;
    case Mouse(size, points) =>
      MouseBytes(size, points, rest);
      PointsRoundTrip(points, rest);
      hide PutMouse;
  }

  lemma MouseBytes(size: uint32, points: seq<Point>, rest: Text)
    requires ValidMouse(Mouse(size, points))
    ensures var b := PutMouse(Mouse(size, points)) + rest;
      && b[..4] == PutU32(size) && b[4..8] == PutU32(|points|)
      && b[8..] == PutPoints(points) + rest && b[8 + POINT_SIZE * |points|..] == rest
  {
    hide PutU32, PutPoints;
    Drop3(PutU32(size), PutU32(|points|), PutPoints(points), rest);
  }

  lemma Drop3(a: Text, b: Text, c: Text, rest: Text)
    ensures var all := a + b + c + rest;
      && all[..|a|] == a && all[|a|..|a| + |b|] == b && all[|a| + |b|..] == c + rest && all[|a| + |b| + |c|..] == rest
  {}

  lemma MouseIsPut(hypot: Hypot, b: Text) returns (m: MouseLayout)
    requires MouseSection(hypot, b).Got?
    ensures var Got(metrics, rest) := MouseSection(hypot, b);
      ValidMouse(m) && b == PutMouse(m) + rest && metrics == MetricsOf(hypot, PointsOf(m))
  {
    hide U32, PutU32, TakePoints, PutPoints, MetricsOf, PutMouse;
    var size := U32(b[..4]);
    if size == 0 {
      m := NoMouse;
      EmptyMouseIsPut(b);
    } else {
      var count := U32(b[4..8]);
      m := Mouse(size, TakePoints(b[8..], count));
      TraceIsPut(b, size, count);
    }
  }

  lemma EmptyMouseIsPut(b: Text)
    requires |b| >= 4 && U32(b[..4]) == 0
    ensures b == PutMouse(NoMouse) + b[4..]
  {
    FixedRoundTrips();
    hide U32, PutU32;
  }

  lemma TraceIsPut(b: Text, size: uint32, count: uint32)
    requires 8 + POINT_SIZE * count <= |b| && count <= MAX_POINTS && 4 + POINT_SIZE * count <= size
    requires size == U32(b[..4]) && count == U32(b[4..8])
    ensures b == PutMouse(Mouse(size, TakePoints(b[8..], count))) + b[8 + POINT_SIZE * count..]
  {
    hide U32, PutU32, TakePoints, PutPoints;
    PutOfU32(b[..4]);
    PutOfU32(b[4..8]);
    BytesOfPoints(b[8..], count);
    Pieces(b, POINT_SIZE * count);
  }

  lemma PutOfU32(b: Text)
    requires |b| == 4
    ensures PutU32(U32(b)) == b
  {
    FixedRoundTrips();
    hide U32, PutU32;
  }

  lemma Pieces(b: Text, end: nat)
    requires 8 + end <= |b|
    ensures b == b[..4] + b[4..8] + b[8..][..end] + b[8 + end..]
  {}

  /**
   * A mouse section that is read takes 8 bytes and 20 for each point, which is never more than its announced size
   * allows, and as much as that exactly when the size counts its points and no more.
   */
  lemma MouseSizeAgrees(hypot: Hypot, b: Text)
    requires MouseSection(hypot, b).Got? && U32(b[..4]) != 0
    ensures |b| >= 8
    ensures var Got(metrics, rest) := MouseSection(hypot, b);
      var size: nat, count: nat := U32(b[..4]), U32(b[4..8]);
      && metrics == MetricsOf(hypot, TakePoints(b[8..], count))
      && |b| - |rest| == 8 + POINT_SIZE * count <= 4 + size
      && (|b| - |rest| == 4 + size <==> size == 4 + POINT_SIZE * count)
  {
    hide U32, TakePoints, MetricsOf;
  }

  lemma NameRoundTrip(name: Text, rest: Text)
    requires 1 <= |name| <= MAX_NAME_BYTES
    ensures NameSection(PutSized(name) + rest) == Got(name, rest)
  {
    SizedRoundTrip(name, rest, BadName);
    FixedRoundTrips();
    hide U32, PutU32, SizedSection;
    assert (PutSized(name) + rest)[..4] == PutU32(|name|);
  }

  // ---- The exact grammar of payloads ----

  lemma LayoutParses(hypot: Hypot, l: Layout, rest: Text)
    requires ValidLayout(l)
    ensures Sections(hypot, PutLayout(l) + rest) ==
            match ContentsOf(hypot, l) case Returned(c) => Got(c, rest) case Panicked => Broken
  {
    hide NameSection, SizedSection, MouseSection, StatsOf, EnvironmentOf, MetricsOf, PutSized, PutMouse;
    var b5 := rest;
    var b4 := PutSized(l.environment) + b5;
    var b3 := PutMouse(l.mouse) + b4;
    var b2 := PutSized(l.performances) + b3;
    var b1 := PutSized(l.stats) + b2;
    assert PutLayout(l) + rest == PutSized(l.name) + b1;
    NameRoundTrip(l.name, b1);
    SizedRoundTrip(l.stats, b2, BadStats);
    SizedRoundTrip(l.performances, b3, BadPerformances);
    MouseRoundTrip(hypot, l.mouse, b4);
    SizedRoundTrip(l.environment, b5, BadEnvironment);
  }

  lemma ParsedIsLayout(hypot: Hypot, b: Text) returns (l: Layout)
    requires Sections(hypot, b).Got?
    ensures var Got(c, rest) := Sections(hypot, b);
      ValidLayout(l) && b == PutLayout(l) + rest && ContentsOf(hypot, l) == Returned(c)
  {
    hide SizedSection, MouseSection, StatsOf, EnvironmentOf, MetricsOf, PutSized, PutMouse;
    var b1 := NameSection(b).rest;
    var b2 := StatsSection(b1).rest;
    var b3 := SizedSection(b2, BadPerformances).rest;
    var b4 := MouseSection(hypot, b3).rest;
    var mouse := MouseIsPut(hypot, b3);
    var rest := EnvironmentSection(b4).rest;
    SizedIsPut(b, BadName);
    SizedIsPut(b1, BadStats);
    SizedIsPut(b2, BadPerformances);
    SizedIsPut(b4, BadEnvironment);
    l := Layout(NameSection(b).value, SizedSection(b1, BadStats).value, SizedSection(b2, BadPerformances).value, mouse,
                SizedSection(b4, BadEnvironment).value);
    NameIsShort(b);
    Regroup(PutSized(l.name), PutSized(l.stats), PutSized(l.performances), PutMouse(l.mouse), PutSized(l.environment),
            rest);
  }

  lemma NameIsShort(b: Text)
    requires NameSection(b).Got?
    ensures SizedSection(b, BadName) == NameSection(b) && 1 <= |NameSection(b).value| <= MAX_NAME_BYTES
  {
    hide U32;
  }

  lemma Regroup(a: Text, b: Text, c: Text, d: Text, e: Text, rest: Text)
    ensures a + (b + (c + (d + (e + rest)))) == a + (b + (c + (d + e))) + rest
  {}

  /**
   * A payload is accepted exactly when it is, to its last byte, the encoding of a valid layout whose two message
   * walks return; the values are then those of that layout.
   */
  lemma PayloadAcceptedExactly(hypot: Hypot, s: Stream, c: Contents)
    ensures ParsePayload(hypot, s) == Ok(c) <==>
            !s.corrupt && exists l :: ValidLayout(l) && s.bytes == PutLayout(l) && ContentsOf(hypot, l) == Returned(c)
  {
    hide Sections, PutLayout, ContentsOf, ValidLayout;
    if ParsePayload(hypot, s) == Ok(c) {
      var l := ParsedIsLayout(hypot, s.bytes);
      assert PutLayout(l) + [] == PutLayout(l);
    }
    forall l | ValidLayout(l) && s.bytes == PutLayout(l) && ContentsOf(hypot, l) == Returned(c) && !s.corrupt
      ensures ParsePayload(hypot, s) == Ok(c)
    {
      LayoutParses(hypot, l, []);
      assert PutLayout(l) + [] == PutLayout(l);
    }
  }

  /** A good name is followed by a whole statistics section whose summary breaks a walk. */
  ghost predicate StatsBreak(b: Text, name: Text, stats: Text, rest: Text) {
    && 1 <= |name| <= 1024 && FitsSize(stats) && b == PutSized(name) + (PutSized(stats) + rest)
    && Breaks(FirstSummary(Split(stats).fields))
  }

  /** A whole layout, whatever follows it, has an environment that breaks a walk. */
  ghost predicate EnvironmentBreaks(b: Text, l: Layout, rest: Text) {
    ValidLayout(l) && b == PutLayout(l) + rest && Breaks(l.environment)
  }

  ghost predicate PayloadBreaks(b: Text) {
    || (exists name, stats, rest :: StatsBreak(b, name, stats, rest))
    || (exists l, rest :: EnvironmentBreaks(b, l, rest))
  }

  /**
   * The exact inputs on which the parser crashes, cut off, corrupt or followed by anything: the sections before the
   * statistics or the environment are read, that section is whole, and its walk panics.
   */
  lemma PayloadCrashesExactly(hypot: Hypot, s: Stream)
    ensures ParsePayload(hypot, s).Crashed? <==> PayloadBreaks(s.bytes)
  {
    hide Sections, StatsBreak, EnvironmentBreaks;
    if Sections(hypot, s.bytes).Broken? {
      BrokenBreaks(hypot, s.bytes);
    }
    forall name, stats, rest | StatsBreak(s.bytes, name, stats, rest) ensures Sections(hypot, s.bytes).Broken? {
      StatsBreakBreaks(hypot, s.bytes, name, stats, rest);
    }
    forall l, rest | EnvironmentBreaks(s.bytes, l, rest) ensures Sections(hypot, s.bytes).Broken? {
      EnvironmentBreaksBreak(hypot, s.bytes, l, rest);
    }
  }

  lemma StatsBreakBreaks(hypot: Hypot, b: Text, name: Text, stats: Text, rest: Text)
    requires StatsBreak(b, name, stats, rest)
    ensures Sections(hypot, b).Broken?
  {
    hide NameSection, SizedSection, MouseSection, EnvironmentSection, PutSized, Walk, Breaks, Split;
    NameRoundTrip(name, PutSized(stats) + rest);
    SizedRoundTrip(stats, rest, BadStats);
    WalkReturnsExactly(SummaryStep, NO_STATS, FirstSummary(Split(stats).fields));
  }

  lemma EnvironmentBreaksBreak(hypot: Hypot, b: Text, l: Layout, rest: Text)
    requires EnvironmentBreaks(b, l, rest)
    ensures Sections(hypot, b).Broken?
  {
    hide Sections, PutLayout, Walk, Breaks, MetricsOf, StatsOf;
    LayoutParses(hypot, l, rest);
    WalkReturnsExactly(EnvStep, NO_ENVIRONMENT, l.environment);
  }

  lemma BrokenBreaks(hypot: Hypot, b: Text)
    requires Sections(hypot, b).Broken?
    ensures PayloadBreaks(b)
  {
    hide SizedSection, MouseSection, Walk, Breaks, Split, MetricsOf, PutSized, PutMouse, ConsumeBytes, U32;
    NameIsShort(b);
    SizedIsPut(b, BadName);
    var b1 := NameSection(b).rest;
    SizedIsPut(b1, BadStats);
    var stats := SizedSection(b1, BadStats);
    if StatsSection(b1).Broken? {
      WalkReturnsExactly(SummaryStep, NO_STATS, FirstSummary(Split(stats.value).fields));
      assert StatsBreak(b, NameSection(b).value, stats.value, stats.rest);
    } else {
      var l, rest := BrokenEnvironment(hypot, b);
      assert EnvironmentBreaks(b, l, rest);
    }
  }

  lemma MouseNeverBreaks(hypot: Hypot, b: Text)
    ensures !MouseSection(hypot, b).Broken?
  {
    hide U32, MetricsOf, TakePoints;
  }

  lemma BrokenEnvironment(hypot: Hypot, b: Text) returns (l: Layout, rest: Text)
    requires Sections(hypot, b).Broken? && NameSection(b).Got? && !StatsSection(NameSection(b).rest).Broken?
    ensures EnvironmentBreaks(b, l, rest)
  {
    hide SizedSection, MouseSection, StatsOf, Walk, Breaks, MetricsOf, PutSized, PutMouse;
    var b1 := NameSection(b).rest;
    var b2 := StatsSection(b1).rest;
    var b3 := SizedSection(b2, BadPerformances).rest;
    MouseNeverBreaks(hypot, b3);
    var b4 := MouseSection(hypot, b3).rest;
    var mouse := MouseIsPut(hypot, b3);
    SizedIsPut(b, BadName);
    SizedIsPut(b1, BadStats);
    SizedIsPut(b2, BadPerformances);
    SizedIsPut(b4, BadEnvironment);
    rest := SizedSection(b4, BadEnvironment).rest;
    l := Layout(NameSection(b).value, SizedSection(b1, BadStats).value, SizedSection(b2, BadPerformances).value, mouse,
                SizedSection(b4, BadEnvironment).value);
    NameIsShort(b);
    WalkReturnsExactly(EnvStep, NO_ENVIRONMENT, l.environment);
    Regroup(PutSized(l.name), PutSized(l.stats), PutSized(l.performances), PutMouse(l.mouse), PutSized(l.environment),
            rest);
  }

  lemma LayoutSize(l: Layout)
    requires ValidLayout(l)
    ensures |PutLayout(l)| ==
            (4 + |l.name|) + (4 + |l.stats|) + (4 + |l.performances|)
            + (if l.mouse.NoMouse? then 4 else 8 + POINT_SIZE * |l.mouse.points|) + (4 + |l.environment|)
  {}

  /**
   * Exact byte accounting: an accepted payload is consumed to its last byte, 4 bytes and the announced size for each
   * section, except that the mouse section takes 8 bytes and 20 for each point.
   */
  lemma PayloadSize(hypot: Hypot, s: Stream, c: Contents) returns (l: Layout)
    requires ParsePayload(hypot, s) == Ok(c)
    ensures ValidLayout(l) && s.bytes == PutLayout(l) && ContentsOf(hypot, l) == Returned(c)
    ensures |s.bytes| ==
            (4 + |l.name|) + (4 + |l.stats|) + (4 + |l.performances|)
            + (if l.mouse.NoMouse? then 4 else 8 + POINT_SIZE * |l.mouse.points|) + (4 + |l.environment|)
  {
    hide Sections, PutLayout, ContentsOf, ValidLayout;
    l := ParsedIsLayout(hypot, s.bytes);
    LayoutSize(l);
    assert PutLayout(l) + [] == PutLayout(l);
  }

  // ---- Files ----

  /** "RFLK", version 2, compression, epoch, payload and checksum. */
  function PutFile(codec: Codec, epoch: int64, compression: byte, payload: Text): Text {
    [0x52, 0x46, 0x4C, 0x4B] + [2, compression] + PutU64(Bits64(epoch)) + payload + PutU64(codec.checksum(payload))
  }

  lemma HeaderRoundTrip(codec: Codec, epoch: int64, compression: byte, payload: Text)
    ensures var raw := PutFile(codec, epoch, compression, payload);
      && |raw| >= HEADER_SIZE + CHECKSUM_SIZE && raw[..4] == MAGIC && raw[4] == VERSION && raw[5] == compression
      && Wrap64(U64(raw[6..14])) == epoch
      && raw[HEADER_SIZE..|raw| - CHECKSUM_SIZE] == payload
      && U64(raw[|raw| - CHECKSUM_SIZE..]) == codec.checksum(payload)
  {
    FixedRoundTrips();
    SignedRoundTrips();
    hide U32, PutU32, U64, PutU64, Wrap64, Bits64;
    var raw := PutFile(codec, epoch, compression, payload);
    assert raw[6..14] == PutU64(Bits64(epoch));
    assert raw[|raw| - CHECKSUM_SIZE..] == PutU64(codec.checksum(payload));
  }

  /** What a client is told about a file, value by value. */
  predicate Reports(p: ParsedRefleksFile, c: Contents, epoch: int64) {
    && p.fileName == c.name && p.playedAt == epoch && p.formatVersion == 2
    && p.scenarioName == c.stats.scenarioName
    && p.score == c.stats.score && p.accuracy == c.stats.accuracy && p.avgTTKSeconds == c.stats.avgTTKSeconds
    && p.durationSecs == c.stats.durationSecs && p.sensCM360 == c.stats.sensCM360
    && (p.hasMouseTrace <==> c.mouse.hasTrace || c.env.tracePoints > 0) && p.avgMouseSpeed == c.mouse.avgSpeed
    && p.steamID == c.env.steamID && p.steamUsername == c.env.steamUsername
    && p.mouseVID == c.env.mouseVID && p.mousePID == c.env.mousePID
  }

  lemma DescribeReports(p: ParsedRefleksFile, c: Contents, epoch: int64)
    ensures Reports(p, c, epoch) <==> p == Describe(c, epoch, VERSION)
  {}

  /** What a payload decodes to: itself for compression 0, the unzipped stream for compression 1. */
  predicate DecodesTo(codec: Codec, payload: Text, compression: byte, s: Stream) {
    (compression == 0 && s == Stream(payload, false)) || (compression == 1 && s == codec.unzip(payload))
  }

  lemma DecodesExactly(codec: Codec, payload: Text, compression: byte, s: Stream)
    ensures DecodesTo(codec, payload, compression, s) <==> DecodePayload(codec, payload, compression) == Some(s)
  {}

  /** An accepted file is byte for byte the header, an accepted payload and its checksum. */
  lemma FileAcceptedExactly(codec: Codec, raw: Text, parsed: ParsedRefleksFile)
    ensures ParseFile(codec, raw) == Ok(parsed) <==>
            exists epoch, compression, payload, s, c ::
              IsFileOf(codec, raw, epoch, compression, payload, s, c) && Reports(parsed, c, epoch)
  {
    hide U64, PutU64, Wrap64, ParsePayload, Describe, PutFile, Reports, DecodesTo, DecodePayload;
    if ParseFile(codec, raw) == Ok(parsed) {
      var epoch, compression, payload, s, c := FileParts(codec, raw);
      DescribeReports(parsed, c, epoch);
      assert IsFileOf(codec, raw, epoch, compression, payload, s, c);
    }
    forall epoch, compression, payload, s, c |
      IsFileOf(codec, raw, epoch, compression, payload, s, c) && Reports(parsed, c, epoch)
      ensures ParseFile(codec, raw) == Ok(parsed)
    {
      HeaderRoundTrip(codec, epoch, compression, payload);
      DecodesExactly(codec, payload, compression, s);
      DescribeReports(parsed, c, epoch);
    }
  }

  predicate IsFileOf(codec: Codec, raw: Text, epoch: int64, compression: byte, payload: Text, s: Stream, c: Contents) {
    && raw == PutFile(codec, epoch, compression, payload)
    && DecodesTo(codec, payload, compression, s) && ParsePayload(codec.hypot, s) == Ok(c)
  }

  /** The parts of a file whose header and checksum are good. */
  lemma HeaderParts(codec: Codec, raw: Text) returns (epoch: int64, compression: byte, payload: Text)
    requires |raw| >= HEADER_SIZE + CHECKSUM_SIZE && raw[..4] == MAGIC && raw[4] == VERSION
    requires codec.checksum(raw[HEADER_SIZE..|raw| - CHECKSUM_SIZE]) == U64(raw[|raw| - CHECKSUM_SIZE..])
    ensures raw == PutFile(codec, epoch, compression, payload)
    ensures compression == raw[5] && payload == raw[HEADER_SIZE..|raw| - CHECKSUM_SIZE]
        && epoch == Wrap64(U64(raw[6..14]))
  {
    FixedRoundTrips();
    SignedRoundTrips();
    hide U32, PutU32, U64, PutU64, Wrap64, Bits64;
    epoch, compression, payload := Wrap64(U64(raw[6..14])), raw[5], raw[HEADER_SIZE..|raw| - CHECKSUM_SIZE];
    var n := |raw| - CHECKSUM_SIZE;
    assert raw == raw[..4] + [raw[4], raw[5]] + raw[6..14] + raw[14..n] + raw[n..];
  }

  lemma FileParts(codec: Codec, raw: Text)
    returns (epoch: int64, compression: byte, payload: Text, s: Stream, c: Contents)
    requires ParseFile(codec, raw).Ok?
    ensures IsFileOf(codec, raw, epoch, compression, payload, s, c)
    ensures ParseFile(codec, raw) == Ok(Describe(c, epoch, VERSION))
  {
    hide U32, U64, PutFile, Wrap64, ParsePayload, Describe, DecodesTo, DecodePayload;
    epoch, compression, payload := HeaderParts(codec, raw);
    s := DecodePayload(codec, payload, compression).value;
    DecodesExactly(codec, payload, compression, s);
    c := ParsePayload(codec.hypot, s).value;
  }

  /** A file with a correct header and checksum whose payload decodes to bytes that break a walk. */
  ghost predicate FileBreaks(codec: Codec, raw: Text, epoch: int64, compression: byte, payload: Text, s: Stream) {
    && raw == PutFile(codec, epoch, compression, payload)
    && DecodesTo(codec, payload, compression, s) && PayloadBreaks(s.bytes)
  }

  /** The files on which the parser crashes. */
  lemma FileCrashesExactly(codec: Codec, raw: Text)
    ensures ParseFile(codec, raw).Crashed? <==>
            exists epoch, compression, payload, s :: FileBreaks(codec, raw, epoch, compression, payload, s)
  {
    hide U64, PutU64, Wrap64, ParsePayload, Describe, PutFile, PayloadBreaks, DecodesTo, DecodePayload;
    if ParseFile(codec, raw).Crashed? {
      var epoch, compression, payload := HeaderParts(codec, raw);
      var s := DecodePayload(codec, payload, compression).value;
      DecodesExactly(codec, payload, compression, s);
      PayloadCrashesExactly(codec.hypot, s);
      assert FileBreaks(codec, raw, epoch, compression, payload, s);
    }
    forall epoch, compression, payload, s | FileBreaks(codec, raw, epoch, compression, payload, s)
      ensures ParseFile(codec, raw).Crashed?
    {
      HeaderRoundTrip(codec, epoch, compression, payload);
      DecodesExactly(codec, payload, compression, s);
      PayloadCrashesExactly(codec.hypot, s);
    }
  }

  // ---- The canonical writer ----

  /** What the writer is given: entries of the summary and environment messages, and the trace. */
  datatype RunRecord = RunRecord(
    name: Text,
    epoch: int64,
    summary: seq<Entry>,
    performances: Text,
    points: seq<Point>,
    environment: seq<Entry>)

  function StatsBody(summary: seq<Entry>): Text {
    if |summary| == 0 then [] else EncodeEntry(Entry(1, BytesValue(EncodeMessage(summary))))
  }

  function LayoutOf(r: RunRecord): Layout
    requires Writable(r)
  {
    Layout(
      r.name, StatsBody(r.summary), r.performances,
      if |r.points| == 0 then NoMouse else Mouse(4 + POINT_SIZE * |r.points|, r.points),
      EncodeMessage(r.environment))
  }

  predicate Writable(r: RunRecord) {
    && 1 <= |r.name| <= 1024 && |r.points| <= 20000000
    && FitsSize(StatsBody(r.summary)) && FitsSize(r.performances) && FitsSize(EncodeMessage(r.environment))
  }

  function WriteFile(codec: Codec, r: RunRecord): Text
    requires Writable(r)
  {
    PutFile(codec, r.epoch, 0, PutLayout(LayoutOf(r)))
  }

  lemma {:induction false} ShortMessagesAreEncodable(es: seq<Entry>)
    requires |EncodeMessage(es)| < 0x1_0000_0000_0000_0000
    ensures Encodable(es)
  {
    if |es| > 0 {
      ShortMessagesAreEncodable(es[1..]);
      assert es == [es[0]] + es[1..];
    }
  }

  lemma StatsRoundTrip(summary: seq<Entry>)
    requires FitsSize(StatsBody(summary))
    ensures StatsOf(StatsBody(summary)) == Returned(LastSummary(ToFields(summary)))
  {
    hide EncodeEntry, Walk, FoldFields, LastSummary, EncodeMessage, ConsumeField, ConsumeBytes;
    SummaryIsLastWriter(ToFields(summary));
    if |summary| == 0 {
      WalkEnds(SummaryStep, NO_STATS, []);
      NoEntries();
    } else {
      var body := EncodeMessage(summary);
      EntryLength(STATS_SUMMARY, body);
      ShortMessagesAreEncodable(summary);
      OneMessage(body);
      MessageWalk(SummaryStep, NO_STATS, summary);
    }
  }

  lemma NoEntries()
    ensures ToFields([]) == [] && LastSummary([]) == NO_STATS && LastEnvironment([]) == NO_ENVIRONMENT
    ensures StatsOf([]) == Returned(NO_STATS)
  {}

  lemma EntryLength(num: FieldNumber, body: Text)
    ensures |EncodeEntry(Entry(num, BytesValue(body)))| > |body|
  {}

  lemma MessageWalk<S>(step: (S, Field) -> S, s: S, es: seq<Entry>)
    requires Encodable(es)
    ensures Walk(step, s, EncodeMessage(es)) == Returned(FoldFields(step, s, ToFields(es)))
  {
    hide Split, EncodeMessage;
    MessageRoundTrip(es);
  }

  lemma OneMessage(body: Text)
    requires |body| < 0x1_0000_0000_0000_0000
    ensures FirstSummary(Split(EncodeEntry(Entry(STATS_SUMMARY, BytesValue(body)))).fields) == body
  {
    var e := Entry(STATS_SUMMARY, BytesValue(body));
    EntryRoundTrip(e, []);
    assert EncodeEntry(e) + [] == EncodeEntry(e);
    BytesRoundTrip(body, []);
    assert AppendBytes(body) + [] == AppendBytes(body);
    hide EncodeEntry, ConsumeField, ConsumeBytes, AppendBytes;
    SplitUnfold(EncodeEntry(e));
  }

  lemma EnvironmentRoundTrip(es: seq<Entry>)
    requires FitsSize(EncodeMessage(es))
    ensures EnvironmentOf(EncodeMessage(es)) == Returned(LastEnvironment(ToFields(es)))
  {
    hide EncodeMessage, LastEnvironment, FoldFields, Walk;
    ShortMessagesAreEncodable(es);
    MessageWalk(EnvStep, NO_ENVIRONMENT, es);
    EnvironmentIsLastWriter(ToFields(es));
  }

  /**
   * Parsing what the canonical writer wrote returns the name and epoch as given, the last value written for each
   * attribute, and the metrics of the trace.
   */
  lemma FileRoundTrip(codec: Codec, r: RunRecord)
    requires Writable(r)
    ensures ParseFile(codec, WriteFile(codec, r)).Ok?
    ensures Reports(ParseFile(codec, WriteFile(codec, r)).value, ContentsOfRecord(codec, r), r.epoch)
  {
    ParsedRecord(codec, r);
    DescribeReports(Describe(ContentsOfRecord(codec, r), r.epoch, VERSION), ContentsOfRecord(codec, r), r.epoch);
    hide ParseFile, WriteFile, Describe, Reports, ContentsOfRecord;
  }

  /** The values in a record: the last ones written, and the metrics of the trace. */
  function ContentsOfRecord(codec: Codec, r: RunRecord): Contents {
    Contents(r.name, LastSummary(ToFields(r.summary)),
             MouseMetrics(|r.points| > 0, AvgSpeed(codec.hypot, r.points)), LastEnvironment(ToFields(r.environment)))
  }

  lemma ParsedRecord(codec: Codec, r: RunRecord)
    requires Writable(r)
    ensures ParseFile(codec, WriteFile(codec, r)) == Ok(Describe(ContentsOfRecord(codec, r), r.epoch, VERSION))
  {
    hide StatsOf, EnvironmentOf, PutFile, PutLayout, Sections, StatsBody, EncodeMessage, LastSummary, LastEnvironment,
      ToFields, Describe, U64, Wrap64, AvgSpeed;
    var l := LayoutOf(r);
    HeaderRoundTrip(codec, r.epoch, 0, PutLayout(l));
    LayoutParses(codec.hypot, l, []);
    assert PutLayout(l) + [] == PutLayout(l);
    StatsRoundTrip(r.summary);
    EnvironmentRoundTrip(r.environment);
  }

  // ---- Writing typed values ----

  function Int64OfInt32(v: int32): uint64 {
    if v < 0 then v + 0x1_0000_0000_0000_0000 else v
  }

  /** What each kind of entry reads back as: trimmed text, the same 64 bits, or the low 32 bits of any varint. */
  lemma WrittenValues(num: FieldNumber, text: Text, bits: uint64, v: uint64, count: int32)
    requires |text| < 0x1_0000_0000_0000_0000
    ensures TextOf(ToField(Entry(num, BytesValue(text)))) == Some(TrimSpace(text))
    ensures DoubleOf(ToField(Entry(num, Fixed64Value(bits)))) == Some(bits)
    ensures Int32Of(ToField(Entry(num, VarintValue(v)))) == Some(Wrap32(v))
    ensures Int32Of(ToField(Entry(num, VarintValue(Int64OfInt32(count))))) == Some(count)
  {
    hide TextOf, DoubleOf, Int32Of, TrimSpace, Wrap32, Int64OfInt32, ToField;
    WrittenText(num, text);
    WrittenDouble(num, bits);
    WrittenVarint(num, v);
    WrittenVarint(num, Int64OfInt32(count));
    SignExtension(count);
  }

  lemma WrittenText(num: FieldNumber, text: Text)
    requires |text| < 0x1_0000_0000_0000_0000
    ensures TextOf(ToField(Entry(num, BytesValue(text)))) == Some(TrimSpace(text))
  {
    hide TrimSpace, AppendBytes, ConsumeBytes;
    BytesRoundTrip(text, []);
    assert AppendBytes(text) + [] == AppendBytes(text);
  }

  lemma WrittenDouble(num: FieldNumber, bits: uint64)
    ensures DoubleOf(ToField(Entry(num, Fixed64Value(bits)))) == Some(bits)
  {
    FixedRoundTrips();
    hide U64, PutU64;
  }

  lemma WrittenVarint(num: FieldNumber, v: uint64)
    ensures Int32Of(ToField(Entry(num, VarintValue(v)))) == Some(Wrap32(v))
  {
    hide AppendVarint, ConsumeVarint, Wrap32;
    VarintValueRoundTrip(v);
  }

  lemma VarintValueRoundTrip(v: uint64)
    ensures ConsumeVarint(AppendVarint(v)) == Took(v, |AppendVarint(v)|)
  {
    VarintBoundIs64Bits();
    VarintRoundTrip(v, [], 0);
    assert AppendVarint(v) + [] == AppendVarint(v);
  }

  lemma SignExtension(count: int32)
    ensures Wrap32(Int64OfInt32(count)) == count
  {
    if count < 0 {
      assert Int64OfInt32(count) == count + 0x1_0000_0000 * 0x1_0000_0000;
      Wrap32Shift(count, 0x1_0000_0000);
    }
  }

  function DoubleEntry(num: FieldNumber, v: Option<uint64>): seq<Entry> {
    if v.Some? then [Entry(num, Fixed64Value(v.value))] else []
  }

  function TextEntry(num: FieldNumber, text: Text): seq<Entry> {
    [Entry(num, BytesValue(text))]
  }

  /** The entries of a summary, in the order of their field numbers. */
  function SummaryEntries(s: ParsedStats): seq<Entry> {
    DoubleEntry(1, s.score)
    + (DoubleEntry(6, s.avgTTKSeconds)
       + (TextEntry(19, s.scenarioName)
          + (DoubleEntry(44, s.accuracy)
             + (DoubleEntry(46, s.sensCM360)
                + DoubleEntry(47, s.durationSecs)))))
  }

  function EnvironmentEntries(e: ParsedEnvironment): seq<Entry> {
    TextEntry(5, e.steamID)
    + (TextEntry(6, e.steamUsername)
       + (TextEntry(16, e.mouseVID)
          + (TextEntry(17, e.mousePID)
             + [Entry(20, VarintValue(Int64OfInt32(e.tracePoints)))])))
  }

  function FoldEntries<S>(step: (S, Field) -> S, s: S, es: seq<Entry>): S {
    FoldFields(step, s, ToFields(es))
  }

  lemma FoldEntriesConcat<S>(step: (S, Field) -> S, s: S, a: seq<Entry>, b: seq<Entry>)
    ensures FoldEntries(step, s, a + b) == FoldEntries(step, FoldEntries(step, s, a), b)
  {
    hide ToFields, ToField, FoldFields;
    assert ToFields(a + b) == ToFields(a) + ToFields(b);
    FoldConcat(step, s, ToFields(a), ToFields(b));
  }

  lemma FoldOne<S>(step: (S, Field) -> S, s: S, e: Entry)
    ensures FoldEntries(step, s, [e]) == step(s, ToField(e))
    ensures FoldEntries(step, s, []) == s
  {
    assert ToFields([e]) == [ToField(e)];
    hide ToField;
    FoldSingle(step, s, ToField(e));
  }

  lemma FoldSingle<S>(step: (S, Field) -> S, s: S, f: Field)
    ensures FoldFields(step, s, [f]) == step(s, f)
  {
    var rest := [f][1..];
    assert FoldFields(step, step(s, f), rest) == step(s, f);
  }

  lemma WriteDouble(s: ParsedStats, num: FieldNumber, v: Option<uint64>)
    ensures FoldEntries(SummaryStep, s, DoubleEntry(num, v)) ==
            if v.None? || num == SUMMARY_SCENARIO then s
            else if num == SUMMARY_SCORE then s.(score := v)
            else if num == SUMMARY_ACCURACY then s.(accuracy := v)
            else if num == SUMMARY_AVG_TTK || num == SUMMARY_REAL_AVG_TTK then s.(avgTTKSeconds := v)
            else if num == SUMMARY_DURATION then s.(durationSecs := v)
            else if num == SUMMARY_CM360 then s.(sensCM360 := v)
            else s
  {
    var bits := v.GetOr(0);
    hide FoldEntries, ToField, DoubleOf, TextOf;
    FoldOne(SummaryStep, s, Entry(num, Fixed64Value(bits)));
    WrittenValues(num, [], bits, 0, 0);
    DoubleIsNotText(num, bits);
  }

  lemma DoubleIsNotText(num: FieldNumber, bits: uint64)
    ensures TextOf(ToField(Entry(num, Fixed64Value(bits)))).None?
  {}

  lemma WriteScenario(s: ParsedStats, name: Text)
    requires |name| < 0x1_0000_0000_0000_0000
    ensures FoldEntries(SummaryStep, s, TextEntry(SUMMARY_SCENARIO, name)) == s.(scenarioName := TrimSpace(name))
  {
    hide FoldEntries, ToField, DoubleOf, TextOf, TrimSpace;
    FoldOne(SummaryStep, s, Entry(SUMMARY_SCENARIO, BytesValue(name)));
    WrittenValues(SUMMARY_SCENARIO, name, 0, 0, 0);
    NumOfField(Entry(SUMMARY_SCENARIO, BytesValue(name)));
  }

  lemma NumOfField(e: Entry)
    ensures ToField(e).num == e.num
  {}

  lemma SummaryEntriesRoundTrip(s: ParsedStats)
    requires |s.scenarioName| < 0x1_0000_0000_0000_0000
    ensures LastSummary(ToFields(SummaryEntries(s))) == s.(scenarioName := TrimSpace(s.scenarioName))
  {
    hide DoubleEntry, TextEntry, TrimSpace, SummaryStep, LastSummary;
    var e6 := DoubleEntry(SUMMARY_DURATION, s.durationSecs);
    var e5 := DoubleEntry(SUMMARY_CM360, s.sensCM360) + e6;
    var e4 := DoubleEntry(SUMMARY_ACCURACY, s.accuracy) + e5;
    var e3 := TextEntry(SUMMARY_SCENARIO, s.scenarioName) + e4;
    var e2 := DoubleEntry(SUMMARY_AVG_TTK, s.avgTTKSeconds) + e3;
    SummaryIsLastWriter(ToFields(SummaryEntries(s)));
    assert FoldEntries(SummaryStep, NO_STATS, SummaryEntries(s)) == LastSummary(ToFields(SummaryEntries(s)));
    hide FoldEntries, ToFields;
    var s1 := NO_STATS.(score := s.score);
    FoldEntriesConcat(SummaryStep, NO_STATS, DoubleEntry(SUMMARY_SCORE, s.score), e2);
    WriteDouble(NO_STATS, SUMMARY_SCORE, s.score);
    var s2 := s1.(avgTTKSeconds := s.avgTTKSeconds);
    FoldEntriesConcat(SummaryStep, s1, DoubleEntry(SUMMARY_AVG_TTK, s.avgTTKSeconds), e3);
    WriteDouble(s1, SUMMARY_AVG_TTK, s.avgTTKSeconds);
    var s3 := s2.(scenarioName := TrimSpace(s.scenarioName));
    FoldEntriesConcat(SummaryStep, s2, TextEntry(SUMMARY_SCENARIO, s.scenarioName), e4);
    WriteScenario(s2, s.scenarioName);
    var s4 := s3.(accuracy := s.accuracy);
    FoldEntriesConcat(SummaryStep, s3, DoubleEntry(SUMMARY_ACCURACY, s.accuracy), e5);
    WriteDouble(s3, SUMMARY_ACCURACY, s.accuracy);
    var s5 := s4.(sensCM360 := s.sensCM360);
    FoldEntriesConcat(SummaryStep, s4, DoubleEntry(SUMMARY_CM360, s.sensCM360), e6);
    WriteDouble(s4, SUMMARY_CM360, s.sensCM360);
    WriteDouble(s5, SUMMARY_DURATION, s.durationSecs);
  }

  lemma WriteText(e: ParsedEnvironment, num: FieldNumber, text: Text)
    requires |text| < 0x1_0000_0000_0000_0000
    ensures FoldEntries(EnvStep, e, TextEntry(num, text)) ==
            if num == ENV_TRACE_POINTS then e
            else if num == ENV_STEAM_ID then e.(steamID := TrimSpace(text))
            else if num == ENV_PERSONA_NAME then e.(steamUsername := TrimSpace(text))
            else if num == ENV_MOUSE_VID then e.(mouseVID := TrimSpace(text))
            else if num == ENV_MOUSE_PID then e.(mousePID := TrimSpace(text))
            else e
  {
    hide FoldEntries, ToField, Int32Of, TextOf, TrimSpace;
    FoldOne(EnvStep, e, Entry(num, BytesValue(text)));
    WrittenValues(num, text, 0, 0, 0);
    NumOfField(Entry(num, BytesValue(text)));
    TextIsNotInt(num, text);
  }

  lemma TextIsNotInt(num: FieldNumber, text: Text)
    ensures Int32Of(ToField(Entry(num, BytesValue(text)))).None?
  {}

  lemma WriteTracePoints(e: ParsedEnvironment, count: int32)
    ensures FoldEntries(EnvStep, e, [Entry(ENV_TRACE_POINTS, VarintValue(Int64OfInt32(count)))]) ==
        e.(tracePoints := count)
  {
    hide FoldEntries, ToField, Int32Of, TextOf, Int64OfInt32;
    FoldOne(EnvStep, e, Entry(ENV_TRACE_POINTS, VarintValue(Int64OfInt32(count))));
    WrittenValues(ENV_TRACE_POINTS, [], 0, 0, count);
    NumOfField(Entry(ENV_TRACE_POINTS, VarintValue(Int64OfInt32(count))));
  }

  function Trimmed(e: ParsedEnvironment): ParsedEnvironment {
    ParsedEnvironment(TrimSpace(e.steamID), TrimSpace(e.steamUsername), TrimSpace(e.mouseVID), TrimSpace(e.mousePID),
                      e.tracePoints)
  }

  predicate ShortTexts(e: ParsedEnvironment) {
    FitsSize(e.steamID) && FitsSize(e.steamUsername) && FitsSize(e.mouseVID) && FitsSize(e.mousePID)
  }

  lemma EnvironmentEntriesRoundTrip(e: ParsedEnvironment)
    requires ShortTexts(e)
    ensures LastEnvironment(ToFields(EnvironmentEntries(e))) == Trimmed(e)
  {
    hide TextEntry, TrimSpace, EnvStep, LastEnvironment, Int64OfInt32;
    var e5 := [Entry(ENV_TRACE_POINTS, VarintValue(Int64OfInt32(e.tracePoints)))];
    var e4 := TextEntry(ENV_MOUSE_PID, e.mousePID) + e5;
    var e3 := TextEntry(ENV_MOUSE_VID, e.mouseVID) + e4;
    var e2 := TextEntry(ENV_PERSONA_NAME, e.steamUsername) + e3;
    EnvironmentIsLastWriter(ToFields(EnvironmentEntries(e)));
    assert FoldEntries(EnvStep, NO_ENVIRONMENT, EnvironmentEntries(e)) ==
        LastEnvironment(ToFields(EnvironmentEntries(e)));
    hide FoldEntries, ToFields;
    var n1 := NO_ENVIRONMENT.(steamID := TrimSpace(e.steamID));
    FoldEntriesConcat(EnvStep, NO_ENVIRONMENT, TextEntry(ENV_STEAM_ID, e.steamID), e2);
    WriteText(NO_ENVIRONMENT, ENV_STEAM_ID, e.steamID);
    var n2 := n1.(steamUsername := TrimSpace(e.steamUsername));
    FoldEntriesConcat(EnvStep, n1, TextEntry(ENV_PERSONA_NAME, e.steamUsername), e3);
    WriteText(n1, ENV_PERSONA_NAME, e.steamUsername);
    var n3 := n2.(mouseVID := TrimSpace(e.mouseVID));
    FoldEntriesConcat(EnvStep, n2, TextEntry(ENV_MOUSE_VID, e.mouseVID), e4);
    WriteText(n2, ENV_MOUSE_VID, e.mouseVID);
    var n4 := n3.(mousePID := TrimSpace(e.mousePID));
    FoldEntriesConcat(EnvStep, n3, TextEntry(ENV_MOUSE_PID, e.mousePID), e5);
    WriteText(n3, ENV_MOUSE_PID, e.mousePID);
    WriteTracePoints(n4, e.tracePoints);
  }

  function RecordOf(name: Text, epoch: int64, stats: ParsedStats, points: seq<Point>,
                    env: ParsedEnvironment): RunRecord {
    RunRecord(name, epoch, SummaryEntries(stats), [], points, EnvironmentEntries(env))
  }

  /** A file written from typed values parses to exactly those values, its texts trimmed. */
  lemma TypedRoundTrip(codec: Codec, name: Text, epoch: int64, stats: ParsedStats, points: seq<Point>,
                       env: ParsedEnvironment)
    requires Writable(RecordOf(name, epoch, stats, points, env))
    requires FitsSize(stats.scenarioName) && ShortTexts(env)
    ensures var parse := ParseFile(codec, WriteFile(codec, RecordOf(name, epoch, stats, points, env)));
      && parse.Ok?
      && var p := parse.value;
      && p.fileName == name && p.playedAt == epoch && p.formatVersion == 2
      && p.scenarioName == TrimSpace(stats.scenarioName)
      && p.score == stats.score && p.accuracy == stats.accuracy && p.avgTTKSeconds == stats.avgTTKSeconds
      && p.durationSecs == stats.durationSecs && p.sensCM360 == stats.sensCM360
      && p.steamID == TrimSpace(env.steamID) && p.steamUsername == TrimSpace(env.steamUsername)
      && p.mouseVID == TrimSpace(env.mouseVID) && p.mousePID == TrimSpace(env.mousePID)
      && (p.hasMouseTrace <==> |points| > 0 || env.tracePoints > 0)
      && p.avgMouseSpeed == AvgSpeed(codec.hypot, points)
  {
    hide ParseFile, WriteFile, SummaryEntries, EnvironmentEntries, Writable, LastSummary, LastEnvironment, TrimSpace,
      AvgSpeed;
    FileRoundTrip(codec, RecordOf(name, epoch, stats, points, env));
    SummaryEntriesRoundTrip(stats);
    EnvironmentEntriesRoundTrip(env);
  }
}
