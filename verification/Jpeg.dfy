/**
 The JPEG size inspection: a walker over markers, and the marker syntax of ITU-T T.81
 (sections B.1.1.2, B.1.1.4 and B.2.2) that it reads.
 */
module Jpeg {
  import opened Bytes

  datatype Fault = TruncatedSegment | InvalidSegment | TruncatedFrame | InvalidDimensions | MissingFrame

  datatype Inspection = Size(width: nat, height: nat) | Failed(fault: Fault)

  const FILL: byte := 0xFF

  /** Start and end of image: markers without a length that the walker steps over. */
  predicate IsImageMarker(m: byte) { m == 0xD8 || m == 0xD9 }

  predicate IsScanMarker(m: byte) { m == 0xDA }

  /** The start-of-frame markers: 0xC0 to 0xCF without DHT (0xC4), JPG (0xC8) and DAC (0xCC). */
  predicate IsFrameMarker(m: byte) {
    m in {0xC0, 0xC1, 0xC2, 0xC3, 0xC5, 0xC6, 0xC7, 0xC9, 0xCA, 0xCB, 0xCD, 0xCE, 0xCF}
  }

  // ---- The walker ----

  function SkipFill(data: seq<byte>, index: nat): (end: nat)
    ensures end >= index
    decreases |data| - index
  {
    if index < |data| && data[index] == FILL then SkipFill(data, index + 1) else index
  }

  datatype Move = Answer(answer: Inspection) | GoOn(index: nat)

  function ReadFrame(data: seq<byte>, index: nat, length: nat): Inspection
    requires index + 2 <= |data| && index + length <= |data|
  {
    if length < 7 then Failed(TruncatedFrame)
    else
      var height, width := U16(data, index + 3), U16(data, index + 5);
      if width < 1 || height < 1 then Failed(InvalidDimensions) else Size(width, height)
  }

  /** What follows the marker at `index`. */
  function AfterMarker(data: seq<byte>, index: nat): (m: Move)
    requires index < |data|
    ensures m.GoOn? ==> index < m.index <= |data|
  {
    var marker, next := data[index], index + 1;
    if IsImageMarker(marker) then GoOn(next)
    else if IsScanMarker(marker) then Answer(Failed(MissingFrame))
    else if next + 2 > |data| then Answer(Failed(TruncatedSegment))
    else
      var length := U16(data, next);
      if length < 2 || next + length > |data| then Answer(Failed(InvalidSegment))
      else if IsFrameMarker(marker) then Answer(ReadFrame(data, next, length))
      else GoOn(next + length)
  }

  function ScanOne(data: seq<byte>, index: nat): (m: Move)
    ensures m.GoOn? ==> index < m.index <= |data|
  {
    var i := SkipFill(data, index);
    if i >= |data| then Answer(Failed(MissingFrame)) else AfterMarker(data, i)
  }

  function Scan(data: seq<byte>, index: nat): Inspection
    decreases |data| - index
  {
    match ScanOne(data, index)
    case Answer(answer) => answer
    case GoOn(next) => Scan(data, next)
  }

  /** Terminates and reads in bounds on arbitrary bytes; an answer is a positive size or a declared fault. */
  method InspectJpeg(data: seq<byte>) returns (r: Inspection)
    ensures r == Scan(data, 2)
    ensures r.Size? ==> r.width >= 1 && r.height >= 1
  {
    var index := 2;
    while index < |data|
      invariant Scan(data, index) == Scan(data, 2)
      decreases |data| - index
    {
      ghost var before := index;
      while index < |data| && data[index] == FILL
        invariant before <= index
        invariant SkipFill(data, index) == SkipFill(data, before)
      {
        index := index + 1;
      }
      if index >= |data| { break; }
      var marker := data[index];
      index := index + 1;
      if IsImageMarker(marker) { continue; }
      if IsScanMarker(marker) { break; }
      if index + 2 > |data| { return Failed(TruncatedSegment); }
      var length := U16(data, index);
      if length < 2 || index + length > |data| { return Failed(InvalidSegment); }
      if IsFrameMarker(marker) {
        if length < 7 { return Failed(TruncatedFrame); }
        var height := U16(data, index + 3);
        var width := U16(data, index + 5);
        if width < 1 || height < 1 { return Failed(InvalidDimensions); }
        return Size(width, height);
      }
      index := index + length;
    }
    return Failed(MissingFrame);
  }

  // ---- The syntax ----

  function Fill(n: nat): (r: seq<byte>)
    ensures |r| == n
  {
    if n == 0 then [] else [0xFF] + Fill(n - 1)
  }

  /** A segment's parameters: at most 65533 bytes, so that its length field fits. */
  type Payload = p: seq<byte> | |p| + 2 < 0x1_0000 witness []

  type U16Value = n: nat | n < 0x1_0000

  /**
   `fill` 0xFF bytes before the marker (at least one in a conforming file; the walker asks for none), then
   its parameters.
   */
  datatype Segment =
    | Sized(fill: nat, marker: byte, payload: Payload)
    | Bare(fill: nat, marker: byte)

  datatype Frame = Frame(fill: nat, marker: byte, precision: byte, height: U16Value, width: U16Value, rest: seq<byte>)

  /** SOFn: 0xC0 to 0xCF, of which three values mean something else. */
  predicate StartsFrame(m: byte) {
    0xC0 <= m <= 0xCF && m != 0xC4 && m != 0xC8 && m != 0xCC
  }

  /** Everything but a fill byte, SOI, EOI and SOS. */
  predicate CarriesLength(m: byte) {
    m < 0xD8 || 0xDB <= m < 0xFF
  }

  predicate WellFormedSegment(s: Segment) {
    if s.Bare? then 0xD8 <= s.marker <= 0xD9 else CarriesLength(s.marker) && !StartsFrame(s.marker)
  }

  predicate WellFormedSegments(ss: seq<Segment>) {
    forall i :: 0 <= i < |ss| ==> WellFormedSegment(ss[i])
  }

  predicate WellFormedFrame(f: Frame) {
    StartsFrame(f.marker) && |f.rest| + 7 < 0x1_0000
  }

  function EncodeSized(fill: nat, marker: byte, payload: Payload): seq<byte> {
    Fill(fill) + [marker] + PutU16(|payload| + 2) + payload
  }

  function EncodeSegment(s: Segment): seq<byte> {
    if s.Bare? then Fill(s.fill) + [s.marker] else EncodeSized(s.fill, s.marker, s.payload)
  }

  function Codes(ss: seq<Segment>): (r: seq<seq<byte>>)
    ensures |r| == |ss| && forall i :: 0 <= i < |ss| ==> r[i] == EncodeSegment(ss[i])
  {
    seq(|ss|, i requires 0 <= i < |ss| => EncodeSegment(ss[i]))
  }

  function EncodeSegments(ss: seq<Segment>): seq<byte> {
    Flat(Codes(ss))
  }

  function FramePayload(f: Frame): Payload
    requires WellFormedFrame(f)
  {
    [f.precision] + PutU16(f.height) + PutU16(f.width) + f.rest
  }

  function EncodeFrame(f: Frame): seq<byte>
    requires WellFormedFrame(f)
  {
    EncodeSized(f.fill, f.marker, FramePayload(f))
  }

  function FrameSize(f: Frame): Inspection {
    if f.width < 1 || f.height < 1 then Failed(InvalidDimensions) else Size(f.width, f.height)
  }

  const SOI: seq<byte> := [0xFF, 0xD8]

  // ---- The walker reads the syntax ----

  lemma {:induction false} FillSkipped(data: seq<byte>, pos: nat, n: nat)
    requires At(data, pos, Fill(n)) && pos + n < |data| && data[pos + n] != FILL
    ensures SkipFill(data, pos) == pos + n
    decreases n
  {
    if n > 0 {
      assert Fill(n)[1..] == Fill(n - 1);
      FillSkipped(data, pos + 1, n - 1);
    }
  }

  lemma MarkerRead(data: seq<byte>, pos: nat, n: nat, m: byte)
    requires At(data, pos, Fill(n) + [m]) && m != FILL
    ensures SkipFill(data, pos) == pos + n < |data| && data[pos + n] == m
  {
    AtConcat(data, pos, Fill(n), [m]);
    FillSkipped(data, pos, n);
  }

  /** The parts of a length-carrying segment, in place. */
  lemma SizedParts(data: seq<byte>, pos: nat, n: nat, m: byte, payload: Payload)
    requires At(data, pos, EncodeSized(n, m, payload)) && m != FILL
    ensures |EncodeSized(n, m, payload)| == n + 3 + |payload|
    ensures pos + n + 3 + |payload| <= |data|
    ensures SkipFill(data, pos) == pos + n && data[pos + n] == m
    ensures U16(data, pos + n + 1) == |payload| + 2
    ensures At(data, pos + n + 3, payload)
  {
    var mark, size := Fill(n) + [m], PutU16(|payload| + 2);
    AtConcat(data, pos, mark + size, payload);
    AtConcat(data, pos, mark, size);
    AtConcat(data, pos + n + 3, payload, []);
    assert payload + [] == payload;
    MarkerRead(data, pos, n, m);
  }

  lemma SegmentSkipped(data: seq<byte>, pos: nat, s: Segment)
    requires WellFormedSegment(s) && At(data, pos, EncodeSegment(s))
    ensures ScanOne(data, pos) == GoOn(pos + |EncodeSegment(s)|)
  {
    if s.Bare? { MarkerRead(data, pos, s.fill, s.marker); } else { SizedParts(data, pos, s.fill, s.marker, s.payload); }
  }

  /** The positions the walker goes through. */
  ghost predicate Route(data: seq<byte>, pos: nat, stops: seq<nat>)
    decreases |stops|
  {
    stops != [] ==> ScanOne(data, pos) == GoOn(stops[0]) && Route(data, stops[0], stops[1..])
  }

  function RouteEnd(pos: nat, stops: seq<nat>): nat {
    if stops == [] then pos else stops[|stops| - 1]
  }

  lemma {:induction false} ScanRoute(data: seq<byte>, pos: nat, stops: seq<nat>)
    requires Route(data, pos, stops)
    ensures Scan(data, pos) == Scan(data, RouteEnd(pos, stops))
    decreases |stops|
  {
    if stops != [] { ScanRoute(data, stops[0], stops[1..]); }
  }

  /** Wherever one of the parts stands, the walker steps over it. */
  ghost predicate Skippable(data: seq<byte>, parts: seq<seq<byte>>) {
    forall i, pos: nat :: 0 <= i < |parts| && At(data, pos, parts[i]) ==> ScanOne(data, pos) == GoOn(pos + |parts[i]|)
  }

  ghost predicate RouteTo(data: seq<byte>, pos: nat, stops: seq<nat>, end: nat) {
    Route(data, pos, stops) && RouteEnd(pos, stops) == end
  }

  lemma {:induction false} RouteOfParts(data: seq<byte>, pos: nat, parts: seq<seq<byte>>, end: nat)
    requires Skippable(data, parts) && At(data, pos, Flat(parts)) && end == pos + |Flat(parts)|
    ensures exists stops :: RouteTo(data, pos, stops, end)
    decreases |parts|
  {
    if parts == [] {
      assert RouteTo(data, pos, [], end);
    } else {
      var next := pos + |parts[0]|;
      AtConcat(data, pos, parts[0], Flat(parts[1..]));
      RouteOfParts(data, next, parts[1..], end);
      var rest :| RouteTo(data, next, rest, end);
      assert ([next] + rest)[1..] == rest;
      assert RouteTo(data, pos, [next] + rest, end);
    }
  }

  lemma SegmentsSkippable(data: seq<byte>, ss: seq<Segment>)
    requires WellFormedSegments(ss)
    ensures Skippable(data, Codes(ss))
  {
    forall i, pos: nat | 0 <= i < |ss| && At(data, pos, Codes(ss)[i])
      ensures ScanOne(data, pos) == GoOn(pos + |Codes(ss)[i]|)
    {
      SegmentSkipped(data, pos, ss[i]);
    }
  }

  lemma PartsPassed(data: seq<byte>, pos: nat, parts: seq<seq<byte>>, end: nat)
    requires Skippable(data, parts) && At(data, pos, Flat(parts)) && end == pos + |Flat(parts)|
    ensures Scan(data, pos) == Scan(data, end)
  {
    RouteOfParts(data, pos, parts, end);
    var stops :| RouteTo(data, pos, stops, end);
    ScanRoute(data, pos, stops);
  }

  lemma SegmentsPassed(data: seq<byte>, pos: nat, ss: seq<Segment>)
    requires WellFormedSegments(ss) && At(data, pos, EncodeSegments(ss))
    ensures Scan(data, pos) == Scan(data, pos + |EncodeSegments(ss)|)
  {
    SegmentsSkippable(data, ss);
    PartsPassed(data, pos, Codes(ss), pos + |EncodeSegments(ss)|);
  }

  lemma FrameRead(data: seq<byte>, pos: nat, f: Frame)
    requires WellFormedFrame(f) && At(data, pos, EncodeFrame(f))
    ensures ScanOne(data, pos) == Answer(FrameSize(f))
  {
    var p, start := FramePayload(f), pos + f.fill + 3;
    SizedParts(data, pos, f.fill, f.marker, p);
    AtConcat(data, start, [f.precision] + PutU16(f.height) + PutU16(f.width), f.rest);
    AtConcat(data, start, [f.precision] + PutU16(f.height), PutU16(f.width));
    AtConcat(data, start, [f.precision], PutU16(f.height));
  }

  /**
   Main result: after any segments, with any number of fill bytes and any parameters, the walker reports
   exactly the size in the frame header, whatever follows.
   */
  lemma FrameFound(ss: seq<Segment>, f: Frame, tail: seq<byte>)
    requires WellFormedSegments(ss) && WellFormedFrame(f)
    ensures Scan(SOI + EncodeSegments(ss) + EncodeFrame(f) + tail, 2) == FrameSize(f)
  {
    var data := SOI + EncodeSegments(ss) + EncodeFrame(f) + tail;
    AtIsSlice(data, 0, data);
    AtConcat(data, 0, SOI + EncodeSegments(ss) + EncodeFrame(f), tail);
    FrameFoundAt(data, ss, f);
  }

  lemma FrameFoundAt(data: seq<byte>, ss: seq<Segment>, f: Frame)
    requires WellFormedSegments(ss) && WellFormedFrame(f)
    requires At(data, 0, SOI + EncodeSegments(ss) + EncodeFrame(f))
    ensures Scan(data, 2) == FrameSize(f)
  {
    AtConcat(data, 0, SOI + EncodeSegments(ss), EncodeFrame(f));
    AtConcat(data, 0, SOI, EncodeSegments(ss));
    SegmentsPassed(data, 2, ss);
    FrameRead(data, 2 + |EncodeSegments(ss)|, f);
  }

  // ---- Which fault is reported ----

  /** What may stand after the segments instead of a frame header that can be read. */
  datatype Ending =
    | Exhausted(fill: nat)
    | ScanStarts(fill: nat, tail: seq<byte>)
    | CutOff(fill: nat, marker: byte, tail: seq<byte>)
    | BadLength(fill: nat, marker: byte, length: U16Value, tail: seq<byte>)
    | ShortFrame(fill: nat, marker: byte, payload: Payload, tail: seq<byte>)

  predicate WellFormedEnding(e: Ending) {
    match e
    case Exhausted(_) => true
    case ScanStarts(_, _) => true
    case CutOff(_, m, tail) => CarriesLength(m) && |tail| < 2
    case BadLength(_, m, length, tail) => CarriesLength(m) && (length < 2 || length > 2 + |tail|)
    case ShortFrame(_, m, payload, _) => StartsFrame(m) && |payload| < 5
  }

  function EndingBytes(e: Ending): seq<byte> {
    match e
    case Exhausted(n) => Fill(n)
    case ScanStarts(n, tail) => Fill(n) + [0xDA] + tail
    case CutOff(n, m, tail) => Fill(n) + [m] + tail
    case BadLength(n, m, length, tail) => Fill(n) + [m] + (PutU16(length) + tail)
    case ShortFrame(n, m, payload, tail) => EncodeSized(n, m, payload) + tail
  }

  function EndingFault(e: Ending): Fault {
    match e
    case Exhausted(_) => MissingFrame
    case ScanStarts(_, _) => MissingFrame
    case CutOff(_, _, _) => TruncatedSegment
    case BadLength(_, _, _, _) => InvalidSegment
    case ShortFrame(_, _, _, _) => TruncatedFrame
  }

  lemma {:induction false} OnlyFill(data: seq<byte>, pos: nat, n: nat)
    requires At(data, pos, Fill(n)) && pos + n == |data|
    ensures SkipFill(data, pos) == |data|
    decreases n
  {
    if n > 0 { OnlyFill(data, pos + 1, n - 1); }
  }

  lemma EndingRead(data: seq<byte>, pos: nat, e: Ending)
    requires WellFormedEnding(e) && At(data, pos, EndingBytes(e)) && pos + |EndingBytes(e)| == |data|
    ensures ScanOne(data, pos) == Answer(Failed(EndingFault(e)))
  {
    match e
    case Exhausted(n) => OnlyFill(data, pos, n);
    case ScanStarts(n, tail) =>
      AtConcat(data, pos, Fill(n) + [0xDA], tail);
      MarkerRead(data, pos, n, 0xDA);
    case CutOff(n, m, tail) =>
      AtConcat(data, pos, Fill(n) + [m], tail);
      MarkerRead(data, pos, n, m);
    case BadLength(n, m, length, tail) =>
      AtConcat(data, pos, Fill(n) + [m], PutU16(length) + tail);
      AtConcat(data, pos + n + 1, PutU16(length), tail);
      MarkerRead(data, pos, n, m);
    case ShortFrame(n, m, payload, tail) =>
      AtConcat(data, pos, EncodeSized(n, m, payload), tail);
      SizedParts(data, pos, n, m, payload);
  }

  /** Main result: after any segments, what stands there instead of a readable frame header decides the fault. */
  lemma FaultFound(ss: seq<Segment>, e: Ending)
    requires WellFormedSegments(ss) && WellFormedEnding(e)
    ensures Scan(SOI + EncodeSegments(ss) + EndingBytes(e), 2) == Failed(EndingFault(e))
  {
    var body, last := EncodeSegments(ss), EndingBytes(e);
    var data := SOI + body + last;
    PartsAt(data, SOI, body, last, 2, 2 + |body|);
    FaultFoundAt(data, ss, e, 2 + |body|);
  }

  lemma PartsAt(data: seq<byte>, head: seq<byte>, body: seq<byte>, last: seq<byte>, start: nat, end: nat)
    requires head + body + last <= data && start == |head| && end == start + |body|
    ensures At(data, start, body) && At(data, end, last)
  {
    AtIsSlice(data, 0, head + body + last);
    AtConcat(data, 0, head + body, last);
    AtConcat(data, 0, head, body);
  }

  lemma FaultFoundAt(data: seq<byte>, ss: seq<Segment>, e: Ending, end: nat)
    requires WellFormedSegments(ss) && WellFormedEnding(e) && At(data, 2, EncodeSegments(ss))
    requires end == 2 + |EncodeSegments(ss)| && At(data, end, EndingBytes(e)) && end + |EndingBytes(e)| == |data|
    ensures Scan(data, 2) == Failed(EndingFault(e))
  {
    SegmentsPassed(data, 2, ss);
    EndingRead(data, end, e);
  }

  // ---- The walker finds no size elsewhere ----

  lemma {:induction false} FillParses(data: seq<byte>, pos: nat)
    requires SkipFill(data, pos) < |data|
    ensures At(data, pos, Fill(SkipFill(data, pos) - pos)) && data[SkipFill(data, pos)] != FILL
    decreases |data| - pos
  {
    if data[pos] == FILL {
      FillParses(data, pos + 1);
      var n := SkipFill(data, pos) - pos;
      assert Fill(n)[1..] == Fill(n - 1);
    }
  }

  lemma U16Parses(data: seq<byte>, pos: nat)
    requires pos + 2 <= |data|
    ensures U16(data, pos) < 0x1_0000 && At(data, pos, PutU16(U16(data, pos)))
  {
    assert PutU16(U16(data, pos)) == [data[pos], data[pos + 1]];
    AtIsSlice(data, pos, [data[pos], data[pos + 1]]);
  }

  /** The bytes the walker takes for a length-carrying segment. */
  lemma SizedParses(data: seq<byte>, pos: nat, i: nat, length: nat)
    requires SkipFill(data, pos) == i && i + 3 <= |data|
    requires length == U16(data, i + 1) && length >= 2 && i + 1 + length <= |data|
    ensures length < 0x1_0000 && At(data, pos, EncodeSized(i - pos, data[i], data[i + 3..i + 1 + length]))
  {
    U16Parses(data, i + 1);
    var payload: Payload := data[i + 3..i + 1 + length];
    var fill := Fill(i - pos);
    FillParses(data, pos);
    AtConcat(data, pos, fill, [data[i]]);
    AtConcat(data, pos, fill + [data[i]], PutU16(length));
    AtIsSlice(data, i + 3, payload);
    AtConcat(data, pos, fill + [data[i]] + PutU16(length), payload);
  }

  /** From `pos` to `next` stands a segment. */
  ghost predicate SegmentAt(data: seq<byte>, pos: nat, next: nat, s: Segment) {
    WellFormedSegment(s) && At(data, pos, EncodeSegment(s)) && next == pos + |EncodeSegment(s)|
  }

  lemma SegmentParses(data: seq<byte>, pos: nat, next: nat)
    requires ScanOne(data, pos) == GoOn(next)
    ensures exists s :: SegmentAt(data, pos, next, s)
  {
    var i := SkipFill(data, pos);
    FillParses(data, pos);
    if IsImageMarker(data[i]) {
      AtConcat(data, pos, Fill(i - pos), [data[i]]);
      assert SegmentAt(data, pos, next, Bare(i - pos, data[i]));
    } else {
      var length := U16(data, i + 1);
      SizedParses(data, pos, i, length);
      SizedSegment(data, pos, i, data[i + 3..i + 1 + length], next);
    }
  }

  lemma SizedSegment(data: seq<byte>, pos: nat, i: nat, payload: Payload, next: nat)
    requires pos <= i < |data| && CarriesLength(data[i]) && !StartsFrame(data[i])
    requires At(data, pos, EncodeSized(i - pos, data[i], payload)) && next == i + 3 + |payload|
    ensures exists s :: SegmentAt(data, pos, next, s)
  {
    assert SegmentAt(data, pos, next, Sized(i - pos, data[i], payload));
  }

  lemma FrameParses(data: seq<byte>, pos: nat, size: Inspection)
    requires size.Size? && ScanOne(data, pos) == Answer(size)
    ensures exists f :: FrameAt(data, pos, size, f)
  {
    var i := SkipFill(data, pos);
    SizedParses(data, pos, i, U16(data, i + 1));
    var n, p := i - pos, data[i + 3..i + 1 + U16(data, i + 1)];
    U16Parses(data, i + 4);
    U16Parses(data, i + 6);
    var f := Frame(n, data[i], p[0], U16(data, i + 4), U16(data, i + 6), p[5..]);
    assert PutU16(f.height) == [p[1], p[2]] && PutU16(f.width) == [p[3], p[4]];
    assert FramePayload(f) == p;
    assert FrameAt(data, pos, size, f);
  }

  ghost predicate FrameAt(data: seq<byte>, pos: nat, size: Inspection, f: Frame) {
    WellFormedFrame(f) && At(data, pos, EncodeFrame(f)) && FrameSize(f) == size
  }

  /** The stops before the walker answers. */
  lemma {:induction false} RouteTaken(data: seq<byte>, pos: nat, answer: Inspection)
    requires answer == Scan(data, pos)
    ensures exists stops :: AnswersAfter(data, pos, stops, answer)
    decreases |data| - pos
  {
    if ScanOne(data, pos).GoOn? {
      var next := ScanOne(data, pos).index;
      RouteTaken(data, next, answer);
      var rest :| AnswersAfter(data, next, rest, answer);
      assert ([next] + rest)[1..] == rest;
      assert AnswersAfter(data, pos, [next] + rest, answer);
    } else {
      assert AnswersAfter(data, pos, [], answer);
    }
  }

  ghost predicate AnswersAfter(data: seq<byte>, pos: nat, stops: seq<nat>, answer: Inspection) {
    Route(data, pos, stops) && ScanOne(data, RouteEnd(pos, stops)) == Answer(answer)
  }

  /** From `pos` to `next` stand segments. */
  ghost predicate SegmentsAt(data: seq<byte>, pos: nat, next: nat, ss: seq<Segment>) {
    WellFormedSegments(ss) && At(data, pos, EncodeSegments(ss)) && next == pos + |EncodeSegments(ss)|
  }

  lemma {:induction false} RouteParses(data: seq<byte>, pos: nat, stops: seq<nat>, end: nat)
    requires Route(data, pos, stops) && pos <= |data| && end == RouteEnd(pos, stops)
    ensures exists ss :: SegmentsAt(data, pos, end, ss)
    decreases |stops|
  {
    if stops == [] {
      assert SegmentsAt(data, pos, end, []);
    } else {
      RouteParses(data, stops[0], stops[1..], end);
      var rest :| SegmentsAt(data, stops[0], end, rest);
      SegmentParses(data, pos, stops[0]);
      var s :| SegmentAt(data, pos, stops[0], s);
      PrependSegment(data, pos, s, stops[0], rest);
      assert SegmentsAt(data, pos, end, [s] + rest);
    }
  }

  lemma PrependSegment(data: seq<byte>, pos: nat, s: Segment, next: nat, rest: seq<Segment>)
    requires WellFormedSegment(s) && At(data, pos, EncodeSegment(s)) && next == pos + |EncodeSegment(s)|
    requires WellFormedSegments(rest) && At(data, next, EncodeSegments(rest))
    ensures SegmentsAt(data, pos, next + |EncodeSegments(rest)|, [s] + rest)
  {
    CodesCons(s, rest);
    AddPart(data, pos, EncodeSegment(s), Codes(rest));
  }

  lemma CodesCons(s: Segment, rest: seq<Segment>)
    ensures Codes([s] + rest) == [EncodeSegment(s)] + Codes(rest)
  {
    var all := [s] + rest;
    forall i | 0 <= i < |all| ensures Codes(all)[i] == ([EncodeSegment(s)] + Codes(rest))[i] {
      if i > 0 { assert all[i] == rest[i - 1]; }
    }
  }

  lemma ScanParses(data: seq<byte>, pos: nat)
    requires Scan(data, pos).Size? && pos <= |data|
    ensures exists ss, end, f :: SegmentsAt(data, pos, end, ss) && FrameAt(data, end, Scan(data, pos), f)
  {
    RouteTaken(data, pos, Scan(data, pos));
    var stops :| AnswersAfter(data, pos, stops, Scan(data, pos));
    var end := RouteEnd(pos, stops);
    RouteParses(data, pos, stops, end);
    var ss :| SegmentsAt(data, pos, end, ss);
    FrameParses(data, end, Scan(data, pos));
    var f :| FrameAt(data, end, Scan(data, pos), f);
    assert SegmentsAt(data, pos, end, ss) && FrameAt(data, end, Scan(data, pos), f);
  }

  /**
   Main result, on arbitrary bytes after the start-of-image marker: a size is reported exactly when
   segments and a frame header with that size stand there.
   */
  lemma SizeIffFrame(data: seq<byte>, width: nat, height: nat)
    requires SOI <= data && width >= 1 && height >= 1
    ensures Scan(data, 2) == Size(width, height) <==>
              exists ss, f :: StartsWithFrame(data, ss, f) && f.width == width && f.height == height
  {
    if exists ss, f :: StartsWithFrame(data, ss, f) && f.width == width && f.height == height {
      var ss, f :| StartsWithFrame(data, ss, f) && f.width == width && f.height == height;
      FrameFoundAt(data, ss, f);
    } else if Scan(data, 2) == Size(width, height) {
      ScanParses(data, 2);
      var ss, end, f :| SegmentsAt(data, 2, end, ss) && FrameAt(data, end, Size(width, height), f);
      AtIsSlice(data, 0, SOI);
      AtConcat(data, 0, SOI, EncodeSegments(ss));
      AtConcat(data, 0, SOI + EncodeSegments(ss), EncodeFrame(f));
      assert StartsWithFrame(data, ss, f);
    }
  }

  ghost predicate StartsWithFrame(data: seq<byte>, ss: seq<Segment>, f: Frame) {
    WellFormedSegments(ss) && WellFormedFrame(f) && At(data, 0, SOI + EncodeSegments(ss) + EncodeFrame(f))
  }
}
