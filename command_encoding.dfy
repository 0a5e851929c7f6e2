/** Reference for the command decoder: the geometry encoding of section 4.3 of the
    Mapbox Vector Tile Specification. A stream is a list of segments, each a command
    header followed by its zigzag-encoded parameters. Decoding an encoded stream
    gives back the commands the segments describe, and every stream the decoder
    accepts is such an encoding. */
module CommandEncoding {
  import opened Base
  import opened Utils
  import opened Features
  import opened Decoded

  /** The signed 32-bit range zigzag encoding covers. */
  type i32 = x: int | -0x8000_0000 <= x < 0x8000_0000

  /** One MoveTo/LineTo displacement. */
  datatype Delta = Delta(dx: i32, dy: i32)

  /** What one command header announces: `count` MoveTos or LineTos, or one ClosePath
      (with whatever count its header carries). */
  datatype Segment = MoveSeg(moves: seq<Delta>) | LineSeg(lines: seq<Delta>) | CloseSeg(count: nat)

  const MAX_COUNT := 0x2000_0000

  /** A segment whose header count fits in the 29 bits a header has for it. */
  predicate ValidSegment(s: Segment)
  {
    match s
    case MoveSeg(ds) => |ds| < MAX_COUNT
    case LineSeg(ds) => |ds| < MAX_COUNT
    case CloseSeg(c) => c < MAX_COUNT
  }

  predicate ValidSegments(segs: seq<Segment>)
  {
    forall k :: 0 <= k < |segs| ==> ValidSegment(segs[k])
  }

  /** `(count << 3) | id`. */
  function CommandHeader(id: nat, count: nat): (h: u32)
    requires id < 8 && count < MAX_COUNT
    ensures CommandId(h) == id && CommandCount(h) == count
  {
    id + 8 * count
  }

  function EncodeDeltas(ds: seq<Delta>): seq<u32>
    decreases |ds|
  {
    if ds == [] then []
    else [EncodeZigzag(ds[0].dx), EncodeZigzag(ds[0].dy)] + EncodeDeltas(ds[1..])
  }

  function EncodeSegment(s: Segment): seq<u32>
    requires ValidSegment(s)
  {
    match s
    case MoveSeg(ds) => [CommandHeader(1, |ds|)] + EncodeDeltas(ds)
    case LineSeg(ds) => [CommandHeader(2, |ds|)] + EncodeDeltas(ds)
    case CloseSeg(c) => [CommandHeader(7, c)]
  }

  function EncodeSegments(segs: seq<Segment>): seq<u32>
    requires ValidSegments(segs)
    decreases |segs|
  {
    if segs == [] then [] else EncodeSegment(segs[0]) + EncodeSegments(segs[1..])
  }

  /** The commands a list of deltas stands for, all of kind `id` (1 MoveTo, 2 LineTo). */
  function DeltaCommands(ds: seq<Delta>, id: nat): seq<Command>
    requires id == 1 || id == 2
    decreases |ds|
  {
    if ds == [] then []
    else [if id == 1 then MoveTo(ds[0].dx, ds[0].dy) else LineTo(ds[0].dx, ds[0].dy)] + DeltaCommands(ds[1..], id)
  }

  function SegmentCommands(s: Segment): seq<Command>
    requires ValidSegment(s)
  {
    match s
    case MoveSeg(ds) => DeltaCommands(ds, 1)
    case LineSeg(ds) => DeltaCommands(ds, 2)
    case CloseSeg(_) => [ClosePath]
  }

  function SegmentsCommands(segs: seq<Segment>): seq<Command>
    requires ValidSegments(segs)
    decreases |segs|
  {
    if segs == [] then [] else SegmentCommands(segs[0]) + SegmentsCommands(segs[1..])
  }

  /** How many commands a segment list stands for: one per delta, one per ClosePath. */
  function CommandTotal(segs: seq<Segment>): nat
    decreases |segs|
  {
    if segs == [] then 0
    else
      (match segs[0] case MoveSeg(ds) => |ds| case LineSeg(ds) => |ds| case CloseSeg(_) => 1)
      + CommandTotal(segs[1..])
  }

  // ---------------------------------------------------------------------------
  // Supporting facts
  // ---------------------------------------------------------------------------

  lemma {:induction false} EncodeDeltasLength(ds: seq<Delta>)
    ensures |EncodeDeltas(ds)| == 2 * |ds|
    decreases |ds|
  {
    if ds != [] {
      EncodeDeltasLength(ds[1..]);
    }
  }

  lemma {:induction false} PairsOfEncodedDeltas(ds: seq<Delta>, id: nat)
    requires id == 1 || id == 2
    ensures Pairs(EncodeDeltas(ds), id) == DeltaCommands(ds, id)
    decreases |ds|
  {
    if ds != [] {
      var e := EncodeDeltas(ds);
      EncodeDeltasLength(ds[1..]);
      assert e[2..] == EncodeDeltas(ds[1..]);
      PairsOfEncodedDeltas(ds[1..], id);
      DecodeEncodeZigzag(ds[0].dx);
      DecodeEncodeZigzag(ds[0].dy);
    }
  }

  /** Decoding from position `|p| + j` of `p + s` only looks at `s`. */
  lemma {:induction false} CommandsFromShift(p: seq<u32>, s: seq<u32>, j: nat)
    ensures CommandsFrom(p + s, |p| + j) == CommandsFrom(s, j)
    decreases |s| - j
  {
    var g := p + s;
    if j < |s| {
      assert g[|p| + j] == s[j];
      var id, count := CommandId(s[j]), CommandCount(s[j]);
      if (id == 1 || id == 2) && j + 1 + 2 * count <= |s| {
        assert g[|p| + j + 1..|p| + j + 1 + 2 * count] == s[j + 1..j + 1 + 2 * count];
        CommandsFromShift(p, s, j + 1 + 2 * count);
      } else if id == 7 {
        CommandsFromShift(p, s, j + 1);
      }
    }
  }

  /** The parts of a header, its parameters and the stream after them. */
  lemma HeaderParamsParts(h: u32, params: seq<u32>, t: seq<u32>)
    ensures ([h] + params + t)[0] == h
    ensures ([h] + params + t)[1..1 + |params|] == params
  {
  }

  /** A MoveTo/LineTo header at `i` with all its parameters before the stream ends. */
  lemma DecodeParamsStep(g: seq<u32>, i: nat, id: nat, next: nat)
    requires i < |g| && id == CommandId(g[i]) && (id == 1 || id == 2)
    requires next == i + 1 + 2 * CommandCount(g[i]) <= |g|
    ensures CommandsFrom(g, i) == Prepend(Pairs(g[i + 1..next], id), CommandsFrom(g, next))
  {
  }

  /** A MoveTo/LineTo header with all its parameters, followed by any stream `t`. */
  lemma DecodeHeaderParamsThen(h: u32, params: seq<u32>, t: seq<u32>)
    requires CommandId(h) == 1 || CommandId(h) == 2
    requires |params| == 2 * CommandCount(h)
    ensures CommandsFrom([h] + params + t, 0) == Prepend(Pairs(params, CommandId(h)), CommandsFrom(t, 0))
  {
    var id := CommandId(h);
    var g := [h] + params + t;
    HeaderParamsParts(h, params, t);
    DecodeParamsStep(g, 0, id, 1 + |params|);
    CommandsFromShift([h] + params, t, 0);
    assert CommandsFrom(g, 1 + |params|) == CommandsFrom(t, 0);
  }

  /** A ClosePath header followed by any stream `t`. */
  lemma DecodeCloseThen(h: u32, t: seq<u32>)
    requires CommandId(h) == 7
    ensures CommandsFrom([h] + t, 0) == Prepend([ClosePath], CommandsFrom(t, 0))
  {
    CommandsFromStep([h] + t, 0);
    CommandsFromShift([h], t, 0);
  }

  lemma DecodeParamSegmentThen(id: nat, ds: seq<Delta>, t: seq<u32>)
    requires (id == 1 || id == 2) && |ds| < MAX_COUNT
    ensures CommandsFrom(EncodeSegment(ParamSegment(id, ds)) + t, 0)
         == Prepend(DeltaCommands(ds, id), CommandsFrom(t, 0))
  {
    var h := CommandHeader(id, |ds|);
    EncodeDeltasLength(ds);
    assert EncodeSegment(ParamSegment(id, ds)) == [h] + EncodeDeltas(ds);
    DecodeHeaderParamsThen(h, EncodeDeltas(ds), t);
    PairsOfEncodedDeltas(ds, id);
  }

  /** Decoding one encoded segment followed by anything. */
  lemma DecodeSegmentThen(seg: Segment, t: seq<u32>)
    requires ValidSegment(seg)
    ensures CommandsFrom(EncodeSegment(seg) + t, 0) == Prepend(SegmentCommands(seg), CommandsFrom(t, 0))
  {
    match seg
    case MoveSeg(ds) =>
      assert seg == ParamSegment(1, ds);
      DecodeParamSegmentThen(1, ds, t);
    case LineSeg(ds) =>
      assert seg == ParamSegment(2, ds);
      DecodeParamSegmentThen(2, ds, t);
    case CloseSeg(c) =>
      DecodeCloseThen(CommandHeader(7, c), t);
  }

  // ---------------------------------------------------------------------------
  // Decoding an encoded stream
  // ---------------------------------------------------------------------------

  /** Decoding the encoding of some segments, followed by any stream `t`, yields the
      segments' commands followed by what `t` decodes to. */
  lemma {:induction false} DecodeSegmentsThen(segs: seq<Segment>, t: seq<u32>)
    requires ValidSegments(segs)
    ensures CommandsFrom(EncodeSegments(segs) + t, 0) == Prepend(SegmentsCommands(segs), CommandsFrom(t, 0))
    decreases |segs|
  {
    if segs == [] {
      assert EncodeSegments(segs) + t == t;
      PrependEmpty(CommandsFrom(t, 0));
    } else {
      var rest := EncodeSegments(segs[1..]) + t;
      assert EncodeSegments(segs) + t == EncodeSegment(segs[0]) + rest;
      DecodeSegmentThen(segs[0], rest);
      DecodeSegmentsThen(segs[1..], t);
      PrependAssoc(SegmentCommands(segs[0]), SegmentsCommands(segs[1..]), CommandsFrom(t, 0));
    }
  }

  /** Round trip: a MoveTo/LineTo header with count c followed by its 2c parameters
      decodes to exactly c commands of that kind with the encoded deltas, and a
      ClosePath header decodes to one ClosePath whatever its count. */
  lemma DecodeEncodeCommands(segs: seq<Segment>)
    requires ValidSegments(segs)
    ensures CommandsFrom(EncodeSegments(segs), 0) == Ok(SegmentsCommands(segs))
  {
    DecodeSegmentsThen(segs, []);
    assert EncodeSegments(segs) + [] == EncodeSegments(segs);
    assert SegmentsCommands(segs) + [] == SegmentsCommands(segs);
  }

  /** A header whose command id is not 1, 2 or 7, reached after any well-formed
      prefix, makes the whole stream fail. */
  lemma UnknownCommandFails(segs: seq<Segment>, h: u32, rest: seq<u32>)
    requires ValidSegments(segs)
    requires CommandId(h) != 1 && CommandId(h) != 2 && CommandId(h) != 7
    ensures CommandsFrom(EncodeSegments(segs) + ([h] + rest), 0) == Err(MalformedCommandStream)
  {
    DecodeSegmentsThen(segs, [h] + rest);
  }

  /** A MoveTo/LineTo header, reached after any well-formed prefix, with fewer than 2c
      integers after it makes the whole stream fail. */
  lemma TruncatedParametersFail(segs: seq<Segment>, h: u32, params: seq<u32>)
    requires ValidSegments(segs)
    requires CommandId(h) == 1 || CommandId(h) == 2
    requires |params| < 2 * CommandCount(h)
    ensures CommandsFrom(EncodeSegments(segs) + ([h] + params), 0) == Err(MalformedCommandStream)
  {
    DecodeSegmentsThen(segs, [h] + params);
  }

  // ---------------------------------------------------------------------------
  // Every accepted stream is an encoding
  // ---------------------------------------------------------------------------

  /** Reads parameter integers back as deltas. */
  function DecodeDeltas(params: seq<u32>): (ds: seq<Delta>)
    ensures |ds| == |params| / 2
    decreases |params|
  {
    if |params| < 2 then []
    else [Delta(DecodeZigzag(params[0]), DecodeZigzag(params[1]))] + DecodeDeltas(params[2..])
  }

  lemma {:induction false} DeltasRoundTrip(params: seq<u32>, id: nat)
    requires id == 1 || id == 2
    requires |params| % 2 == 0
    ensures EncodeDeltas(DecodeDeltas(params)) == params
    ensures DeltaCommands(DecodeDeltas(params), id) == Pairs(params, id)
    decreases |params|
  {
    if |params| >= 2 {
      var ds := DecodeDeltas(params);
      assert ds[1..] == DecodeDeltas(params[2..]);
      DeltasRoundTrip(params[2..], id);
      assert params == [params[0], params[1]] + params[2..];
    }
  }

  /** The MoveTo (id 1) or LineTo (id 2) segment carrying `ds`. */
  function ParamSegment(id: nat, ds: seq<Delta>): Segment
  {
    if id == 1 then MoveSeg(ds) else LineSeg(ds)
  }

  /** The segments of a stream read from position `i` on, up to the first header the
      decoder would reject. */
  function SegmentsFrom(g: seq<u32>, i: nat): (segs: seq<Segment>)
    ensures ValidSegments(segs)
    decreases |g| - i
  {
    if i >= |g| then []
    else
      var id, count := CommandId(g[i]), CommandCount(g[i]);
      if (id == 1 || id == 2) && i + 1 + 2 * count <= |g| then
        [ParamSegment(id, DecodeDeltas(g[i + 1..i + 1 + 2 * count]))] + SegmentsFrom(g, i + 1 + 2 * count)
      else if id == 7 then [CloseSeg(count)] + SegmentsFrom(g, i + 1)
      else []
  }

  /** An accepted MoveTo/LineTo header at `i` has all its parameters, and the rest of
      the stream is accepted too. */
  lemma AcceptedParamsStep(g: seq<u32>, i: nat, id: nat, next: nat)
    requires i < |g| && id == CommandId(g[i]) && (id == 1 || id == 2)
    requires next == i + 1 + 2 * CommandCount(g[i])
    requires CommandsFrom(g, i).Ok?
    ensures next <= |g|
    ensures CommandsFrom(g, i) == Prepend(Pairs(g[i + 1..next], id), CommandsFrom(g, next))
  {
  }

  lemma SegmentsFromParamsStep(g: seq<u32>, i: nat, id: nat, next: nat)
    requires i < |g| && id == CommandId(g[i]) && (id == 1 || id == 2)
    requires next == i + 1 + 2 * CommandCount(g[i]) <= |g|
    ensures SegmentsFrom(g, i) == [ParamSegment(id, DecodeDeltas(g[i + 1..next]))] + SegmentsFrom(g, next)
  {
  }

  /** Re-encoding the segment read from a header and its parameters gives them back, and
      its commands are what the decoder reads from them. */
  lemma ParamSegmentRoundTrip(h: u32, params: seq<u32>, id: nat)
    requires id == CommandId(h) && (id == 1 || id == 2)
    requires |params| == 2 * CommandCount(h)
    ensures ValidSegment(ParamSegment(id, DecodeDeltas(params)))
    ensures EncodeSegment(ParamSegment(id, DecodeDeltas(params))) == [h] + params
    ensures SegmentCommands(ParamSegment(id, DecodeDeltas(params))) == Pairs(params, id)
  {
    DeltasRoundTrip(params, id);
    assert h == CommandHeader(id, CommandCount(h));
  }

  /** An accepted ClosePath header at `i`. */
  lemma AcceptedCloseStep(g: seq<u32>, i: nat)
    requires i < |g| && CommandId(g[i]) == 7
    ensures CommandsFrom(g, i) == Prepend([ClosePath], CommandsFrom(g, i + 1))
    ensures SegmentsFrom(g, i) == [CloseSeg(CommandCount(g[i]))] + SegmentsFrom(g, i + 1)
    ensures EncodeSegment(CloseSeg(CommandCount(g[i]))) == [g[i]]
  {
    assert g[i] == CommandHeader(7, CommandCount(g[i]));
  }

  lemma SegmentsCons(seg: Segment, rest: seq<Segment>)
    requires ValidSegment(seg) && ValidSegments(rest)
    ensures ValidSegments([seg] + rest)
    ensures EncodeSegments([seg] + rest) == EncodeSegment(seg) + EncodeSegments(rest)
    ensures SegmentsCommands([seg] + rest) == SegmentCommands(seg) + SegmentsCommands(rest)
  {
    assert ([seg] + rest)[1..] == rest;
  }

  lemma SliceHead(g: seq<u32>, i: nat, next: nat)
    requires i < next <= |g|
    ensures g[i..next] == [g[i]] + g[i + 1..next]
  {
  }

  /** Prepending one segment whose encoding is `g[i..next]` to segments whose encoding
      is `g[next..]`. */
  lemma SoundStep(g: seq<u32>, i: nat, next: nat, seg: Segment, rest: seq<Segment>)
    requires i < next <= |g| && ValidSegment(seg) && ValidSegments(rest)
    requires EncodeSegment(seg) == g[i..next]
    requires EncodeSegments(rest) == g[next..]
    ensures ValidSegments([seg] + rest)
    ensures EncodeSegments([seg] + rest) == g[i..]
    ensures SegmentsCommands([seg] + rest) == SegmentCommands(seg) + SegmentsCommands(rest)
  {
    SegmentsCons(seg, rest);
    assert g[i..] == g[i..next] + g[next..];
  }

  /** The soundness step at an accepted MoveTo/LineTo header, given the claim at the
      position after its parameters. */
  lemma SoundParamsStep(g: seq<u32>, i: nat, id: nat, next: nat)
    requires i < |g| && id == CommandId(g[i]) && (id == 1 || id == 2)
    requires next == i + 1 + 2 * CommandCount(g[i]) <= |g|
    requires CommandsFrom(g, i).Ok?
    requires CommandsFrom(g, next).Ok?
    requires EncodeSegments(SegmentsFrom(g, next)) == g[next..]
    requires SegmentsCommands(SegmentsFrom(g, next)) == CommandsFrom(g, next).value
    ensures EncodeSegments(SegmentsFrom(g, i)) == g[i..]
    ensures SegmentsCommands(SegmentsFrom(g, i)) == CommandsFrom(g, i).value
  {
    var params := g[i + 1..next];
    var seg := ParamSegment(id, DecodeDeltas(params));
    var rest := SegmentsFrom(g, next);
    var restCmds := CommandsFrom(g, next).value;
    AcceptedParamsStep(g, i, id, next);
    assert CommandsFrom(g, i) == Ok(Pairs(params, id) + restCmds);
    SegmentsFromParamsStep(g, i, id, next);
    assert SegmentsFrom(g, i) == [seg] + rest;
    ParamSegmentRoundTrip(g[i], params, id);
    SliceHead(g, i, next);
    SoundStep(g, i, next, seg, rest);
  }

  /** The soundness step at a ClosePath header, given the claim at the next position. */
  lemma SoundCloseStep(g: seq<u32>, i: nat)
    requires i < |g| && CommandId(g[i]) == 7
    requires CommandsFrom(g, i).Ok?
    requires CommandsFrom(g, i + 1).Ok?
    requires EncodeSegments(SegmentsFrom(g, i + 1)) == g[i + 1..]
    requires SegmentsCommands(SegmentsFrom(g, i + 1)) == CommandsFrom(g, i + 1).value
    ensures EncodeSegments(SegmentsFrom(g, i)) == g[i..]
    ensures SegmentsCommands(SegmentsFrom(g, i)) == CommandsFrom(g, i).value
  {
    AcceptedCloseStep(g, i);
    assert g[i..i + 1] == [g[i]];
    SoundStep(g, i, i + 1, CloseSeg(CommandCount(g[i])), SegmentsFrom(g, i + 1));
  }

  /** Reading the segments of an accepted stream and encoding them again gives the
      stream back, and their commands are what the decoder returns. */
  lemma {:induction false} SegmentsFromSound(g: seq<u32>, i: nat)
    requires i <= |g|
    requires CommandsFrom(g, i).Ok?
    ensures EncodeSegments(SegmentsFrom(g, i)) == g[i..]
    ensures SegmentsCommands(SegmentsFrom(g, i)) == CommandsFrom(g, i).value
    decreases |g| - i
  {
    if i < |g| {
      var id := CommandId(g[i]);
      CommandsFromStep(g, i);
      if id == 7 {
        SegmentsFromSound(g, i + 1);
        SoundCloseStep(g, i);
      } else {
        var next := i + 1 + 2 * CommandCount(g[i]);
        SegmentsFromSound(g, next);
        SoundParamsStep(g, i, id, next);
      }
    }
  }

  /** Completeness: the decoder accepts a stream exactly when it is the encoding of
      some segments, and then returns those segments' commands; in particular their
      number is the sum of the MoveTo/LineTo counts plus the number of ClosePath
      headers. */
  lemma DecodeAcceptsOnlyEncodings(g: seq<u32>)
    ensures CommandsFrom(g, 0).Ok? <==> exists segs :: ValidSegments(segs) && EncodeSegments(segs) == g
    ensures CommandsFrom(g, 0).Ok? ==>
              var segs := SegmentsFrom(g, 0);
              && ValidSegments(segs) && EncodeSegments(segs) == g
              && CommandsFrom(g, 0).value == SegmentsCommands(segs)
              && |CommandsFrom(g, 0).value| == CommandTotal(segs)
  {
    if CommandsFrom(g, 0).Ok? {
      SegmentsFromSound(g, 0);
      assert g[0..] == g;
      SegmentsCommandsLength(SegmentsFrom(g, 0));
    }
    if exists segs :: ValidSegments(segs) && EncodeSegments(segs) == g {
      var segs :| ValidSegments(segs) && EncodeSegments(segs) == g;
      DecodeEncodeCommands(segs);
    }
  }

  lemma {:induction false} DeltaCommandsLength(ds: seq<Delta>, id: nat)
    requires id == 1 || id == 2
    ensures |DeltaCommands(ds, id)| == |ds|
    decreases |ds|
  {
    if ds != [] {
      DeltaCommandsLength(ds[1..], id);
    }
  }

  lemma {:induction false} SegmentsCommandsLength(segs: seq<Segment>)
    requires ValidSegments(segs)
    ensures |SegmentsCommands(segs)| == CommandTotal(segs)
    decreases |segs|
  {
    if segs != [] {
      SegmentsCommandsLength(segs[1..]);
      match segs[0]
      case MoveSeg(ds) => DeltaCommandsLength(ds, 1);
      case LineSeg(ds) => DeltaCommandsLength(ds, 2);
      case CloseSeg(_) =>
    }
  }

  /** A triangle: one MoveTo, a LineTo header with count 2, and a ClosePath. */
  lemma DecodeCommandsExample()
    ensures CommandsFrom([9, 4, 4, 18, 0, 16, 16, 0, 15], 0)
         == Ok([MoveTo(2, 2), LineTo(0, 8), LineTo(8, 0), ClosePath])
  {
    var t2: seq<u32> := [15];
    var close := [ClosePath];
    DecodeCloseThen(15, []);
    assert [15] + [] == t2;
    assert CommandsFrom([], 0) == Ok([]);
    assert close + [] == close;
    assert CommandsFrom(t2, 0) == Ok(close);
    var t1: seq<u32> := [18, 0, 16, 16, 0, 15];
    var lines: seq<u32> := [0, 16, 16, 0];
    assert [18] + lines + t2 == t1;
    DecodeHeaderParamsThen(18, lines, t2);
    assert lines[2..] == [16, 0];
    var lineCmds := [LineTo(0, 8), LineTo(8, 0)];
    assert Pairs(lines, 2) == lineCmds;
    assert CommandsFrom(t1, 0) == Ok(lineCmds + close);
    var moves: seq<u32> := [4, 4];
    assert [9] + moves + t1 == [9, 4, 4, 18, 0, 16, 16, 0, 15];
    DecodeHeaderParamsThen(9, moves, t1);
    assert Pairs(moves, 1) == [MoveTo(2, 2)];
    assert [MoveTo(2, 2)] + (lineCmds + close) == [MoveTo(2, 2), LineTo(0, 8), LineTo(8, 0), ClosePath];
  }
}
