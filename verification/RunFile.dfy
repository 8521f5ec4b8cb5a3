/** The `.refleks` container: header, checksum and a payload of five length-prefixed sections. */
module RunFile {
  import opened Wrappers
  import opened Bytes
  import opened Wire
  import opened Walks
  import opened Mouse

  const MAGIC: Text := [0x52, 0x46, 0x4C, 0x4B]
  const VERSION: byte := 2
  const COMPRESSION_NONE: byte := 0
  const COMPRESSION_ZSTD: byte := 1
  const HEADER_SIZE := 14
  const CHECKSUM_SIZE := 8
  const MAX_NAME_BYTES := 1024

  /** What a payload decodes to: some bytes, after which the decoder reports end of file or an error. */
  datatype Stream = Stream(bytes: Text, corrupt: bool)

  /** The foreign code a parse depends on: xxh3, zstd and the floating-point hypotenuse. */
  datatype Codec = Codec(checksum: Text -> uint64, unzip: Text -> Stream, hypot: Hypot)

  datatype ParseError =
    | FileTooSmall | BadMagic | BadVersion | ChecksumMismatch | UnsupportedCompression
    | BadName | BadStats | BadPerformances | BadMouseTrace | BadEnvironment | TrailingBytes

  /** How a parser call ends. Every error wraps the same sentinel in the program. */
  datatype Outcome<+T> = Ok(value: T) | Failed(error: ParseError) | Crashed

  datatype MouseMetrics = MouseMetrics(hasTrace: bool, avgSpeed: Option<real>)

  /** The values read from the sections of a payload. */
  datatype Contents = Contents(name: Text, stats: ParsedStats, mouse: MouseMetrics, env: ParsedEnvironment)

  datatype ParsedRefleksFile = ParsedRefleksFile(
    fileName: Text,
    scenarioName: Text,
    steamID: Text,
    steamUsername: Text,
    playedAt: int64,
    formatVersion: byte,
    score: Option<uint64>,
    accuracy: Option<uint64>,
    avgTTKSeconds: Option<uint64>,
    durationSecs: Option<uint64>,
    sensCM360: Option<uint64>,
    hasMouseTrace: bool,
    avgMouseSpeed: Option<real>,
    mouseVID: Text,
    mousePID: Text)

  function Describe(c: Contents, epoch: int64, version: byte): ParsedRefleksFile {
    ParsedRefleksFile(
      c.name, c.stats.scenarioName, c.env.steamID, c.env.steamUsername, epoch, version,
      c.stats.score, c.stats.accuracy, c.stats.avgTTKSeconds, c.stats.durationSecs, c.stats.sensCM360,
      c.mouse.hasTrace || c.env.tracePoints > 0, c.mouse.avgSpeed, c.env.mouseVID, c.env.mousePID)
  }

  // ---- What the section parsers compute, on the bytes that are left ----

  datatype Section<+T> = Got(value: T, rest: Text) | Refused(error: ParseError) | Broken {
    predicate IsFailure() {
      !Got?
    }

    function PropagateFailure<U>(): Section<U>
      requires IsFailure()
    {
      match this
      case Refused(error) => Refused(error)
      case Broken => Broken
    }

    function Extract(): (T, Text)
      requires !IsFailure()
    {
      (value, rest)
    }
  }

  /** A 32-bit size and that many bytes. */
  function SizedSection(b: Text, error: ParseError): (r: Section<Text>)
    ensures r.Got? || r == Refused(error)
  {
    if |b| < 4 then Refused(error)
    else
      var size := U32(b[..4]);
      if size > |b| - 4 then Refused(error) else Got(b[4..4 + size], b[4 + size..])
  }

  function NameSection(b: Text): Section<Text> {
    if |b| >= 4 && U32(b[..4]) > MAX_NAME_BYTES then Refused(BadName)
    else
      var (name, rest) :- SizedSection(b, BadName);
      if name == [] then Refused(BadName) else Got(name, rest)
  }

  function StatsSection(b: Text): Section<ParsedStats> {
    var (body, rest) :- SizedSection(b, BadStats);
    match StatsOf(body)
    case Returned(stats) => Got(stats, rest)
    case Panicked => Broken
  }

  function EnvironmentOf(body: Text): Call<ParsedEnvironment> {
    Walk(EnvStep, NO_ENVIRONMENT, body)
  }

  function EnvironmentSection(b: Text): Section<ParsedEnvironment> {
    var (body, rest) :- SizedSection(b, BadEnvironment);
    match EnvironmentOf(body)
    case Returned(env) => Got(env, rest)
    case Panicked => Broken
  }

  function MetricsOf(hypot: Hypot, ps: seq<Point>): MouseMetrics {
    MouseMetrics(|ps| > 0, AvgSpeed(hypot, ps))
  }

  /** The points are read from the size announced, but whatever the section has beyond them is left unread. */
  function MouseSection(hypot: Hypot, b: Text): Section<MouseMetrics> {
    if |b| < 4 then Refused(BadMouseTrace)
    else
      var size := U32(b[..4]);
      if size == 0 then Got(MetricsOf(hypot, []), b[4..])
      else if size < 4 || |b| < 8 then Refused(BadMouseTrace)
      else
        var count := U32(b[4..8]);
        if count > MAX_POINTS || 4 + POINT_SIZE * count > size || 8 + POINT_SIZE * count > |b|
            then Refused(BadMouseTrace)
        else Got(MetricsOf(hypot, TakePoints(b[8..], count)), b[8 + POINT_SIZE * count..])
  }

  function Sections(hypot: Hypot, b: Text): Section<Contents> {
    var (name, b1) :- NameSection(b);
    var (stats, b2) :- StatsSection(b1);
    var (_, b3) :- SizedSection(b2, BadPerformances);
    var (mouse, b4) :- MouseSection(hypot, b3);
    var (env, b5) :- EnvironmentSection(b4);
    Got(Contents(name, stats, mouse, env), b5)
  }

  function ParsePayload(hypot: Hypot, s: Stream): Outcome<Contents> {
    match Sections(hypot, s.bytes)
    case Refused(error) => Failed(error)
    case Broken => Crashed
    case Got(c, rest) => if rest == [] && !s.corrupt then Ok(c) else Failed(TrailingBytes)
  }

  function DecodePayload(codec: Codec, payload: Text, compression: byte): Option<Stream> {
    if compression == COMPRESSION_NONE then Some(Stream(payload, false))
    else if compression == COMPRESSION_ZSTD then Some(codec.unzip(payload))
    else None
  }

  function ParseFile(codec: Codec, raw: Text): Outcome<ParsedRefleksFile> {
    if |raw| < HEADER_SIZE + CHECKSUM_SIZE then Failed(FileTooSmall)
    else if raw[..4] != MAGIC then Failed(BadMagic)
    else if raw[4] != VERSION then Failed(BadVersion)
    else
      var payload := raw[HEADER_SIZE..|raw| - CHECKSUM_SIZE];
      if codec.checksum(payload) != U64(raw[|raw| - CHECKSUM_SIZE..]) then Failed(ChecksumMismatch)
      else
        match DecodePayload(codec, payload, raw[5])
        case None => Failed(UnsupportedCompression)
        case Some(stream) =>
          match ParsePayload(codec.hypot, stream)
          case Failed(error) => Failed(error)
          case Crashed => Crashed
          case Ok(c) => Ok(Describe(c, Wrap64(U64(raw[6..14])), raw[4]))
  }

  // ---- The stateful reader the parsers share ----

  class Reader {
    const bytes: Text
    const corrupt: bool
    var pos: nat

    ghost predicate Valid()
      reads this
    {
      pos <= |bytes|
    }

    function Rest(): Text
      requires Valid()
      reads this
    {
      bytes[pos..]
    }

    constructor (s: Stream)
      ensures Valid() && Rest() == s.bytes && corrupt == s.corrupt
    {
      bytes, corrupt, pos := s.bytes, s.corrupt, 0;
    }

    /** `io.ReadFull` of n bytes: on a short stream everything is consumed and the read fails. */
    method ReadFull(n: nat) returns (r: Option<Text>)
      requires Valid()
      modifies this
      ensures Valid()
      ensures if n <= |old(Rest())| then r == Some(old(Rest())[..n]) && Rest() == old(Rest())[n..]
              else r == None && Rest() == []
    {
      if n <= |bytes| - pos {
        assert bytes[pos..pos + n] == Rest()[..n] && bytes[pos + n..] == Rest()[n..];
        r := Some(bytes[pos..pos + n]);
        pos := pos + n;
      } else {
        r := None;
        pos := |bytes|;
      }
    }

    method ReadU32() returns (r: Option<uint32>)
      requires Valid()
      modifies this
      ensures Valid()
      ensures if 4 <= |old(Rest())| then r == Some(U32(old(Rest())[..4])) && Rest() == old(Rest())[4..]
              else r == None && Rest() == []
    {
      var b := ReadFull(4);
      r := if b.Some? then Some(U32(b.value)) else None;
    }

    /** A one-byte read must report end of file. */
    method EnsureEOF() returns (ok: bool)
      requires Valid()
      modifies this
      ensures Valid()
      ensures ok <==> old(Rest()) == [] && !corrupt
      ensures Rest() == if |old(Rest())| == 0 then [] else old(Rest())[1..]
    {
      if pos < |bytes| {
        pos := pos + 1;
        ok := false;
      } else {
        ok := !corrupt;
      }
    }
  }

  /** `io.LimitReader`: at most `left` more bytes of the underlying reader. */
  class LimitedReader {
    const source: Reader
    var left: nat

    constructor (source: Reader, left: nat)
      ensures this.source == source && this.left == left
    {
      this.source, this.left := source, left;
    }

    method ReadFull(n: nat) returns (r: Option<Text>)
      requires source.Valid()
      modifies this, source
      ensures source.Valid()
      ensures if n <= old(left) && n <= |old(source.Rest())| then
                && r == Some(old(source.Rest())[..n])
                && source.Rest() == old(source.Rest())[n..] && left == old(left) - n
              else r == None
    {
      if n <= left {
        r := source.ReadFull(n);
        left := left - n;
      } else {
        var _ := source.ReadFull(left);
        left := 0;
        r := None;
      }
    }

    /** Four reads: timestamp, x, y and buttons. */
    method ReadPoint() returns (r: Option<Point>)
      requires source.Valid()
      modifies this, source
      ensures source.Valid()
      ensures if POINT_SIZE <= old(left) && POINT_SIZE <= |old(source.Rest())| then
                && r == Some(PointOf(old(source.Rest())[..POINT_SIZE]))
                && source.Rest() == old(source.Rest())[POINT_SIZE..] && left == old(left) - POINT_SIZE
              else r == None
    {
      hide Wrap32, Wrap64, U32, U64;
      ghost var b := source.Rest();
      r := None;
      var ts := ReadFull(8);
      if ts.None? { return; }
      var x := ReadFull(4);
      if x.None? { return; }
      var y := ReadFull(4);
      if y.None? { return; }
      var buttons := ReadFull(4);
      if buttons.None? { return; }
      PointParts(b);
      r := Some(Point(Wrap64(U64(ts.value)), Wrap32(U32(x.value)), Wrap32(U32(y.value)), Wrap32(U32(buttons.value))));
    }
  }

  lemma PointParts(b: Text)
    requires |b| >= POINT_SIZE
    ensures PointOf(b[..POINT_SIZE]) ==
            Point(Wrap64(U64(b[..8])), Wrap32(U32(b[8..][..4])), Wrap32(U32(b[8..][4..][..4])),
                  Wrap32(U32(b[8..][4..][4..][..4])))
    ensures b[8..][4..][4..][4..] == b[POINT_SIZE..]
  {
    hide Wrap32, Wrap64, U32, U64;
    var p := b[..POINT_SIZE];
    assert p[..8] == b[..8];
    assert p[8..12] == b[8..][..4];
    assert p[12..16] == b[8..][4..][..4];
    assert p[16..] == b[8..][4..][4..][..4];
  }

  // ---- The parsers ----

  /** A parser call has done on the reader what the section function says. */
  ghost predicate Agrees<T>(r: Outcome<T>, s: Section<T>, reader: Reader)
    reads reader
  {
    && reader.Valid()
    && match s
       case Got(value, rest) => r == Ok(value) && reader.Rest() == rest
       case Refused(error) => r == Failed(error)
       case Broken => r == Crashed
  }

  method ReadSized(reader: Reader, error: ParseError) returns (r: Outcome<Text>)
    requires reader.Valid()
    modifies reader
    ensures Agrees(r, SizedSection(old(reader.Rest()), error), reader)
  {
    hide U32;
    ghost var b := reader.Rest();
    var size := reader.ReadU32();
    if size.None? {
      return Failed(error);
    }
    var body := reader.ReadFull(size.value);
    if body.None? {
      return Failed(error);
    }
    assert b[4..][..size.value] == b[4..4 + size.value];
    return Ok(body.value);
  }

  method ReadString(reader: Reader, maxLen: uint32) returns (r: Outcome<Text>)
    requires reader.Valid()
    modifies reader
    ensures var b := old(reader.Rest());
      if |b| >= 4 && U32(b[..4]) > maxLen then r == Failed(BadName) && reader.Valid()
      else Agrees(r, SizedSection(b, BadName), reader)
  {
    hide U32;
    ghost var b := reader.Rest();
    var n := reader.ReadU32();
    if n.None? || n.value > maxLen {
      return Failed(BadName);
    }
    if n.value == 0 {
      assert b[4..4 + n.value] == [];
      return Ok([]);
    }
    var buf := reader.ReadFull(n.value);
    if buf.None? {
      return Failed(BadName);
    }
    assert b[4..][..n.value] == b[4..4 + n.value];
    return Ok(buf.value);
  }

  method ParseStats(reader: Reader) returns (r: Outcome<ParsedStats>)
    requires reader.Valid()
    modifies reader
    ensures Agrees(r, StatsSection(old(reader.Rest())), reader)
  {
    hide SizedSection, StatsOf;
    var body := ReadSized(reader, BadStats);
    if !body.Ok? {
      return Failed(BadStats);
    }
    var stats := ExtractStatsSummary(body.value);
    r := if stats.Returned? then Ok(stats.value) else Crashed;
  }

  method ParseEnvironment(reader: Reader) returns (r: Outcome<ParsedEnvironment>)
    requires reader.Valid()
    modifies reader
    ensures Agrees(r, EnvironmentSection(old(reader.Rest())), reader)
  {
    hide SizedSection, Walk;
    var body := ReadSized(reader, BadEnvironment);
    if !body.Ok? {
      return Failed(BadEnvironment);
    }
    var env := ExtractEnvironment(body.value);
    r := if env.Returned? then Ok(env.value) else Crashed;
  }

  method ParseMouseMetrics(reader: Reader, hypot: Hypot) returns (r: Outcome<MouseMetrics>)
    requires reader.Valid()
    modifies reader
    ensures Agrees(r, MouseSection(hypot, old(reader.Rest())), reader)
  {
    hide U32, PointOf, StepMillis, StepDistance, TakePoints, Distance, Millis, AvgSpeed;
    ghost var b := reader.Rest();
    var size := reader.ReadU32();
    if size.None? {
      return Failed(BadMouseTrace);
    }
    if size.value == 0 {
      NoPoints(hypot, b);
      return Ok(MouseMetrics(false, None));
    }
    if size.value < 4 {
      return Failed(BadMouseTrace);
    }
    var limited := new LimitedReader(reader, size.value);
    var countBytes := limited.ReadFull(4);
    if countBytes.None? {
      return Failed(BadMouseTrace);
    }
    assert b[4..][..4] == b[4..8] && b[4..][4..] == b[8..];
    var count := U32(countBytes.value);
    if count == 0 {
      NoPoints(hypot, b[8..]);
      return Ok(MouseMetrics(false, None));
    }
    if count > MAX_POINTS {
      return Failed(BadMouseTrace);
    }

    r := ReadTrace(limited, count, hypot);
    if r.Ok? {
      assert b[8..][POINT_SIZE * count..] == b[8 + POINT_SIZE * count..];
    }
  }

  lemma NoPoints(hypot: Hypot, b: Text)
    ensures TakePoints(b, 0) == [] && MetricsOf(hypot, []) == MouseMetrics(false, None)
  {}

  /** The loop over the points of a trace. */
  method ReadTrace(limited: LimitedReader, count: uint32, hypot: Hypot) returns (r: Outcome<MouseMetrics>)
    requires limited.source.Valid() && count > 0
    modifies limited, limited.source
    ensures limited.source.Valid()
    ensures var b := old(limited.source.Rest());
      if POINT_SIZE * count > old(limited.left) || POINT_SIZE * count > |b| then r == Failed(BadMouseTrace)
      else r == Ok(MetricsOf(hypot, TakePoints(b, count))) && limited.source.Rest() == b[POINT_SIZE * count..]
  {
    hide PointOf, StepMillis, StepDistance, TakePoints, Distance, Millis;
    ghost var b := limited.source.Rest();
    ghost var points: seq<Point> := [];
    var prev := Point(0, 0, 0, 0);
    var hasPrev := false;
    var totalDist, totalSeconds := 0.0, 0.0;
    var i := 0;
    TraceStart(hypot, b);
    while i < count
      invariant limited.source.Valid()
      invariant i <= count && POINT_SIZE * i <= |b| && POINT_SIZE * i <= old(limited.left)
      invariant limited.source.Rest() == b[POINT_SIZE * i..] && limited.left == old(limited.left) - POINT_SIZE * i
      invariant points == TakePoints(b, i)
      invariant hasPrev == (i > 0)
      invariant i > 0 ==> prev == points[i - 1]
      invariant totalDist == Distance(hypot, points) && totalSeconds == Seconds(points)
    {
      var p := limited.ReadPoint();
      if p.None? {
        return Failed(BadMouseTrace);
      }
      ghost var before := points;
      TakePointsSnoc(b, i);
      assert b[POINT_SIZE * i..][..POINT_SIZE] == b[POINT_SIZE * i..POINT_SIZE * (i + 1)];
      points := points + [p.value];
      if hasPrev {
        MetricsSnoc(hypot, before, p.value);
        var dtMillis := StepMillis(prev, p.value);
        if dtMillis > 0 {
          totalDist := totalDist + StepDistance(hypot, prev, p.value);
          totalSeconds := totalSeconds + dtMillis as real / 1000.0;
        }
      } else {
        TraceOfOne(hypot, p.value);
      }
      prev := p.value;
      hasPrev := true;
      i := i + 1;
    }
    var avgSpeed := if totalSeconds > 0.0 then Some(totalDist / totalSeconds) else None;
    r := Ok(MouseMetrics(true, avgSpeed));
  }

  lemma TraceStart(hypot: Hypot, b: Text)
    ensures TakePoints(b, 0) == [] && Distance(hypot, []) == 0.0 && Seconds([]) == 0.0
  {}

  lemma TraceOfOne(hypot: Hypot, p: Point)
    ensures [] + [p] == [p] && Distance(hypot, [p]) == 0.0 && Seconds([p]) == 0.0
  {}

  method ParsePayloadStream(s: Stream, hypot: Hypot) returns (r: Outcome<Contents>)
    ensures r == ParsePayload(hypot, s)
  {
    hide SizedSection, StatsSection, MouseSection, EnvironmentSection, U32;
    var reader := new Reader(s);
    var name := ReadString(reader, MAX_NAME_BYTES);
    if !name.Ok? || name.value == [] {
      return Failed(BadName);
    }
    var stats := ParseStats(reader);
    if !stats.Ok? {
      return if stats.Crashed? then Crashed else Failed(stats.error);
    }
    var skipped := ReadSized(reader, BadPerformances);
    if !skipped.Ok? {
      return Failed(BadPerformances);
    }
    var mouse := ParseMouseMetrics(reader, hypot);
    if !mouse.Ok? {
      return if mouse.Crashed? then Crashed else Failed(mouse.error);
    }
    var env := ParseEnvironment(reader);
    if !env.Ok? {
      return if env.Crashed? then Crashed else Failed(env.error);
    }
    var eof := reader.EnsureEOF();
    if !eof {
      return Failed(TrailingBytes);
    }
    return Ok(Contents(name.value, stats.value, mouse.value, env.value));
  }

  /** Validates a run file and extracts its metadata. */
  method ParseRefleksFile(codec: Codec, raw: Text) returns (r: Outcome<ParsedRefleksFile>)
    ensures r == ParseFile(codec, raw)
  {
    hide U64, ParsePayload, Describe, Wrap64;
    if |raw| < HEADER_SIZE + CHECKSUM_SIZE {
      return Failed(FileTooSmall);
    }
    if raw[..4] != MAGIC {
      return Failed(BadMagic);
    }
    var version := raw[4];
    if version != VERSION {
      return Failed(BadVersion);
    }
    var compression := raw[5];
    var epoch := Wrap64(U64(raw[6..14]));
    var payload := raw[HEADER_SIZE..|raw| - CHECKSUM_SIZE];
    if codec.checksum(payload) != U64(raw[|raw| - CHECKSUM_SIZE..]) {
      return Failed(ChecksumMismatch);
    }
    var stream := DecodePayload(codec, payload, compression);
    if stream.None? {
      return Failed(UnsupportedCompression);
    }
    var contents := ParsePayloadStream(stream.value, codec.hypot);
    match contents
    case Failed(error) => return Failed(error);
    case Crashed => return Crashed;
    case Ok(c) => return Ok(Describe(c, epoch, version));
  }
}
