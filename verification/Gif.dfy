/**
 The animation test on GIF files: the walker over raw bytes, and the block grammar of the GIF89a
 specification (sections 15 and 18 to 27) that it is meant to recognise.
 */
module Gif {
  import opened Bytes

  const IMAGE: byte := 0x2C
  const EXTENSION: byte := 0x21
  const TRAILER: byte := 0x3B

  /** Bytes of the colour table a packed field announces: bit 7 says there is one, bits 0 to 2 give its size. */
  function TableBytes(packed: byte): nat {
    if packed >= 0x80 then 3 * Pow2(packed % 8 + 1) else 0
  }

  // ---- The walker ----

  function SkipSubBlocks(data: seq<byte>, pos: nat): (end: nat)
    ensures end >= pos
    decreases |data| - pos
  {
    if pos >= |data| then pos
    else if data[pos] == 0 then pos + 1
    else SkipSubBlocks(data, pos + 1 + data[pos])
  }

  datatype Move = Answer(animated: bool) | GoOn(pos: nat, frames: nat)

  /** One round of the main loop, at a position inside the data. */
  function WalkOne(data: seq<byte>, pos: nat, frames: nat): (m: Move)
    requires pos < |data|
    ensures m.GoOn? ==> m.pos > pos
  {
    if data[pos] == IMAGE then
      if frames + 1 > 1 then Answer(true)
      else if pos + 10 > |data| then Answer(false)
      else
        var next := pos + 10 + TableBytes(data[pos + 9]);
        if next >= |data| then Answer(false) else GoOn(SkipSubBlocks(data, next + 1), frames + 1)
    else if data[pos] == EXTENSION then GoOn(SkipSubBlocks(data, pos + 2), frames)
    else Answer(false)
  }

  function Walk(data: seq<byte>, pos: nat, frames: nat): bool
    decreases |data| - pos
  {
    if pos >= |data| then false
    else
      match WalkOne(data, pos, frames)
      case Answer(animated) => animated
      case GoOn(next, frames') => Walk(data, next, frames')
  }

  const GIF87A: seq<byte> := [0x47, 0x49, 0x46, 0x38, 0x37, 0x61]
  const GIF89A: seq<byte> := [0x47, 0x49, 0x46, 0x38, 0x39, 0x61]

  predicate Animated(data: seq<byte>) {
    && |data| >= 13 && (GIF87A <= data || GIF89A <= data)
    && Walk(data, 13 + TableBytes(data[10]), 0)
  }

  method SkipGifSubBlocks(data: seq<byte>, start: nat) returns (pos: nat)
    ensures pos == SkipSubBlocks(data, start)
  {
    pos := start;
    while pos < |data|
      invariant SkipSubBlocks(data, pos) == SkipSubBlocks(data, start)
      decreases |data| - pos
    {
      var size := data[pos];
      pos := pos + 1;
      if size == 0 { return; }
      pos := pos + size;
    }
  }

  /** Terminates and reads in bounds on arbitrary bytes; what it answers is `Animated`. */
  method IsAnimatedGif(data: seq<byte>) returns (animated: bool)
    ensures animated == Animated(data)
  {
    if |data| < 13 || !(GIF87A <= data || GIF89A <= data) { return false; }
    var pos := 13;
    var packed := data[10];
    if packed >= 0x80 { pos := pos + 3 * Pow2(packed % 8 + 1); }
    animated := WalkBlocks(data, pos);
  }

  /** The main loop, from the first block on. */
  method WalkBlocks(data: seq<byte>, start: nat) returns (animated: bool)
    ensures animated == Walk(data, start, 0)
  {
    var pos, frames := start, 0;
    while pos < |data|
      invariant Walk(data, start, 0) == Walk(data, pos, frames)
      decreases |data| - pos
    {
      var marker := data[pos];
      ghost var pos0, frames0 := pos, frames;
      if marker == IMAGE {
        frames := frames + 1;
        if frames > 1 { return true; }
        pos := pos + 1;
        if pos + 9 > |data| { return false; }
        var imagePacked := data[pos + 8];
        pos := pos + 9;
        if imagePacked >= 0x80 { pos := pos + 3 * Pow2(imagePacked % 8 + 1); }
        if pos >= |data| { return false; }
        pos := pos + 1;
        pos := SkipGifSubBlocks(data, pos);
        assert WalkOne(data, pos0, frames0) == GoOn(pos, frames);
      } else if marker == EXTENSION {
        pos := pos + 2;
        pos := SkipGifSubBlocks(data, pos);
        assert WalkOne(data, pos0, frames0) == GoOn(pos, frames);
      } else {
        return false;
      }
    }
    return false;
  }

  // ---- The grammar ----

  /** The data of one sub-block: its size byte is not 0. */
  type Chunk = c: seq<byte> | 1 <= |c| <= 255 witness [0]

  datatype Rgb = Rgb(red: byte, green: byte, blue: byte)

  /** How many entries a colour table of the announced size has: 2 to the power of `size + 1`. */
  function Entries(size: nat): nat
    requires size < 8
  {
    [2, 4, 8, 16, 32, 64, 128, 256][size]
  }

  /**
   A packed field and the colour table it announces: a flag for the table, four bits of other use, the
   size of the table.
   */
  datatype ColourField = ColourField(flag: bool, other: nat, size: nat, table: seq<Rgb>)

  type Colours = c: ColourField |
    c.other < 16 && c.size < 8 && |c.table| == (if c.flag then Entries(c.size) else 0)
    witness ColourField(false, 0, 0, [])

  function Packed(c: Colours): byte {
    (if c.flag then 0x80 else 0) + 8 * c.other + c.size
  }

  function EncodeTable(table: seq<Rgb>): (r: seq<byte>)
    ensures |r| == 3 * |table|
  {
    if table == [] then [] else [table[0].red, table[0].green, table[0].blue] + EncodeTable(table[1..])
  }

  datatype Block =
    | Image(position: seq<byte>, colours: Colours, minCode: byte, chunks: seq<Chunk>)
    | Extension(extLabel: byte, chunks: seq<Chunk>)

  datatype Header = Header(signature: seq<byte>, screen: seq<byte>, colours: Colours, rest: seq<byte>)

  function Ascii(s: string): seq<byte> {
    seq(|s|, i requires 0 <= i < |s| => s[i] as int % 0x80)
  }

  predicate WellFormedBlock(b: Block) {
    b.Image? ==> |b.position| == 8
  }

  predicate WellFormedBlocks(bs: seq<Block>) {
    forall i :: 0 <= i < |bs| ==> WellFormedBlock(bs[i])
  }

  predicate WellFormedHeader(h: Header) {
    h.signature in {Ascii("GIF87a"), Ascii("GIF89a")} && |h.screen| == 4 && |h.rest| == 2
  }

  function EncodeChunks(chunks: seq<Chunk>): (r: seq<byte>)
    ensures |r| > 0
  {
    if chunks == [] then [0] else [|chunks[0]|] + chunks[0] + EncodeChunks(chunks[1..])
  }

  function EncodeImageHead(b: Block): seq<byte>
    requires b.Image?
  {
    [0x2C] + b.position + [Packed(b.colours)] + EncodeTable(b.colours.table) + [b.minCode]
  }

  function EncodeBlock(b: Block): seq<byte> {
    if b.Image? then EncodeImageHead(b) + EncodeChunks(b.chunks)
    else [0x21, b.extLabel] + EncodeChunks(b.chunks)
  }

  function Codes(bs: seq<Block>): (r: seq<seq<byte>>)
    ensures |r| == |bs| && forall i :: 0 <= i < |bs| ==> r[i] == EncodeBlock(bs[i])
  {
    seq(|bs|, i requires 0 <= i < |bs| => EncodeBlock(bs[i]))
  }

  function EncodeBlocks(bs: seq<Block>): seq<byte> {
    Flat(Codes(bs))
  }

  function EncodeHeader(h: Header): (r: seq<byte>)
    requires WellFormedHeader(h)
    ensures |r| == 13 + 3 * |h.colours.table| && r[10] == Packed(h.colours) && h.signature <= r
  {
    h.signature + h.screen + [Packed(h.colours)] + h.rest + EncodeTable(h.colours.table)
  }

  function Encode(h: Header, bs: seq<Block>, tail: seq<byte>): seq<byte>
    requires WellFormedHeader(h)
  {
    EncodeHeader(h) + EncodeBlocks(bs) + [0x3B] + tail
  }

  function Images(bs: seq<Block>): nat {
    if bs == [] then 0 else (if bs[0].Image? then 1 else 0) + Images(bs[1..])
  }

  // ---- The walker follows the grammar ----

  /** The walker takes a colour table to be as long as it is. */
  lemma TableLength(c: Colours)
    ensures TableBytes(Packed(c)) == |EncodeTable(c.table)|
  {
    assert Packed(c) >= 0x80 <==> c.flag;
    assert Packed(c) % 8 == c.size;
    PowersOfTwo();
  }

  lemma PowersOfTwo()
    ensures forall n :: 0 <= n < 8 ==> Pow2(n + 1) == Entries(n)
  {
    assert Pow2(1) == 2 && Pow2(2) == 4 && Pow2(3) == 8 && Pow2(4) == 16;
    assert Pow2(5) == 32 && Pow2(6) == 64 && Pow2(7) == 128 && Pow2(8) == 256;
  }

  lemma {:induction false} SkipEncoded(data: seq<byte>, pos: nat, chunks: seq<Chunk>)
    requires At(data, pos, EncodeChunks(chunks))
    ensures SkipSubBlocks(data, pos) == pos + |EncodeChunks(chunks)|
    decreases |chunks|
  {
    AtIndex(data, pos, EncodeChunks(chunks), 0);
    if chunks != [] {
      var size: seq<byte> := [|chunks[0]|];
      AtConcat(data, pos, size + chunks[0], EncodeChunks(chunks[1..]));
      SkipEncoded(data, pos + 1 + |chunks[0]|, chunks[1..]);
    }
  }

  lemma ImageHeadFields(data: seq<byte>, pos: nat, b: Block)
    requires WellFormedBlock(b) && b.Image? && At(data, pos, EncodeImageHead(b))
    ensures |EncodeImageHead(b)| == 11 + TableBytes(Packed(b.colours))
    ensures pos + 9 < |data| && data[pos] == IMAGE && data[pos + 9] == Packed(b.colours)
  {
    var head := EncodeImageHead(b);
    TableLength(b.colours);
    assert head[0] == IMAGE && head[9] == Packed(b.colours);
    AtIndex(data, pos, head, 0);
    AtIndex(data, pos, head, 9);
  }

  /** Where the parts of an encoded image stand. */
  lemma ImageParts(data: seq<byte>, pos: nat, b: Block)
    requires WellFormedBlock(b) && b.Image? && At(data, pos, EncodeBlock(b))
    ensures var body := pos + 10 + TableBytes(Packed(b.colours));
            && body < |data| && data[pos] == IMAGE && data[pos + 9] == Packed(b.colours)
            && SkipSubBlocks(data, body + 1) == pos + |EncodeBlock(b)|
  {
    var head := EncodeImageHead(b);
    AtConcat(data, pos, head, EncodeChunks(b.chunks));
    ImageHeadFields(data, pos, b);
    SkipEncoded(data, pos + |head|, b.chunks);
  }

  /** The walker moves from `pos` to `next`, counting an image if `image`. */
  ghost predicate Advances(data: seq<byte>, pos: nat, next: nat, image: bool) {
    && pos < |data|
    && WalkOne(data, pos, 0) == GoOn(next, if image then 1 else 0)
    && WalkOne(data, pos, 1) == (if image then Answer(true) else GoOn(next, 1))
  }

  datatype Hop = Hop(next: nat, image: bool)

  ghost predicate Route(data: seq<byte>, pos: nat, hops: seq<Hop>)
    decreases |hops|
  {
    hops != [] ==> Advances(data, pos, hops[0].next, hops[0].image) && Route(data, hops[0].next, hops[1..])
  }

  function RouteEnd(pos: nat, hops: seq<Hop>): nat
    decreases |hops|
  {
    if hops == [] then pos else RouteEnd(hops[0].next, hops[1..])
  }

  function RouteImages(hops: seq<Hop>): nat {
    if hops == [] then 0 else (if hops[0].image then 1 else 0) + RouteImages(hops[1..])
  }

  lemma {:induction false} WalkRoute(data: seq<byte>, pos: nat, hops: seq<Hop>, frames: nat)
    requires Route(data, pos, hops) && frames <= 1
    ensures Walk(data, pos, frames) ==
              (frames + RouteImages(hops) >= 2 || Walk(data, RouteEnd(pos, hops), frames + RouteImages(hops)))
    decreases |hops|
  {
    if hops != [] && !(hops[0].image && frames == 1) {
      WalkRoute(data, hops[0].next, hops[1..], frames + if hops[0].image then 1 else 0);
    }
  }

  lemma OneBlock(data: seq<byte>, pos: nat, b: Block)
    requires WellFormedBlock(b) && At(data, pos, EncodeBlock(b))
    ensures Advances(data, pos, pos + |EncodeBlock(b)|, b.Image?)
  {
    if b.Image? {
      ImageParts(data, pos, b);
    } else {
      var head: seq<byte> := [EXTENSION, b.extLabel];
      AtConcat(data, pos, head, EncodeChunks(b.chunks));
      AtIndex(data, pos, head, 0);
      SkipEncoded(data, pos + |head|, b.chunks);
    }
  }

  /** Wherever one of the parts stands, the walker moves over it, counting an image if so marked. */
  ghost predicate Walkable(data: seq<byte>, parts: seq<seq<byte>>, images: seq<bool>) {
    && |parts| == |images|
    && forall i, pos: nat :: 0 <= i < |parts| && At(data, pos, parts[i]) ==>
         Advances(data, pos, pos + |parts[i]|, images[i])
  }

  function Count(images: seq<bool>): nat {
    if images == [] then 0 else (if images[0] then 1 else 0) + Count(images[1..])
  }

  /** A route to `end` that passes so many images. */
  ghost predicate RouteOver(data: seq<byte>, pos: nat, hops: seq<Hop>, end: nat, images: nat) {
    Route(data, pos, hops) && RouteEnd(pos, hops) == end && RouteImages(hops) == images
  }

  /** The walker's route over the parts. */
  lemma {:induction false} RouteOfParts(data: seq<byte>, pos: nat, parts: seq<seq<byte>>, images: seq<bool>,
      end: nat, count: nat)
    requires Walkable(data, parts, images) && At(data, pos, Flat(parts))
    requires end == pos + |Flat(parts)| && count == Count(images)
    ensures exists hops :: RouteOver(data, pos, hops, end, count)
    decreases |parts|
  {
    if parts == [] {
      assert RouteOver(data, pos, [], end, count);
    } else {
      var next, more := pos + |parts[0]|, Count(images[1..]);
      AtConcat(data, pos, parts[0], Flat(parts[1..]));
      RouteOfParts(data, next, parts[1..], images[1..], end, more);
      var rest :| RouteOver(data, next, rest, end, more);
      var hops := [Hop(next, images[0])] + rest;
      assert hops[1..] == rest;
      assert RouteOver(data, pos, hops, end, count);
    }
  }

  lemma WalkParts(data: seq<byte>, pos: nat, parts: seq<seq<byte>>, images: seq<bool>)
    requires Walkable(data, parts, images) && At(data, pos, Flat(parts))
    ensures Walk(data, pos, 0) == (Count(images) >= 2 || Walk(data, pos + |Flat(parts)|, Count(images)))
  {
    var end, count := pos + |Flat(parts)|, Count(images);
    RouteOfParts(data, pos, parts, images, end, count);
    var hops :| RouteOver(data, pos, hops, end, count);
    WalkAlong(data, pos, hops, end, count);
  }

  lemma WalkAlong(data: seq<byte>, pos: nat, hops: seq<Hop>, end: nat, count: nat)
    requires Route(data, pos, hops) && RouteEnd(pos, hops) == end && RouteImages(hops) == count
    ensures Walk(data, pos, 0) == (count >= 2 || Walk(data, end, count))
  {
    WalkRoute(data, pos, hops, 0);
  }

  /** Parts and a marker decide the answer, or leave it to what follows. */
  lemma PartsDecide(data: seq<byte>, pos: nat, parts: seq<seq<byte>>, images: seq<bool>, marker: byte)
    requires Walkable(data, parts, images) && At(data, pos, Flat(parts)) && At(data, pos + |Flat(parts)|, [marker])
    ensures marker == TRAILER ==> (Walk(data, pos, 0) <==> Count(images) >= 2)
    ensures marker == IMAGE && Count(images) == 1 ==> Walk(data, pos, 0)
  {
    WalkParts(data, pos, parts, images);
  }

  function ImageFlags(bs: seq<Block>): (r: seq<bool>)
    ensures |r| == |bs| && forall i :: 0 <= i < |bs| ==> r[i] == bs[i].Image?
  {
    seq(|bs|, i requires 0 <= i < |bs| => bs[i].Image?)
  }

  lemma {:induction false} CountFlags(bs: seq<Block>)
    ensures Count(ImageFlags(bs)) == Images(bs)
  {
    if bs != [] {
      assert ImageFlags(bs)[1..] == ImageFlags(bs[1..]);
      CountFlags(bs[1..]);
    }
  }

  lemma BlocksWalkable(data: seq<byte>, bs: seq<Block>)
    requires WellFormedBlocks(bs)
    ensures Walkable(data, Codes(bs), ImageFlags(bs))
  {
    forall i, pos: nat | 0 <= i < |bs| && At(data, pos, Codes(bs)[i])
      ensures Advances(data, pos, pos + |Codes(bs)[i]|, ImageFlags(bs)[i])
    {
      OneBlock(data, pos, bs[i]);
    }
  }

  lemma Signatures()
    ensures Ascii("GIF87a") == GIF87A && Ascii("GIF89a") == GIF89A
  {
  }

  lemma HeaderRead(data: seq<byte>, h: Header)
    requires WellFormedHeader(h) && At(data, 0, EncodeHeader(h))
    ensures Animated(data) == Walk(data, |EncodeHeader(h)|, 0)
  {
    HeaderStarts(data, h);
    TableLength(h.colours);
  }

  lemma HeaderStarts(data: seq<byte>, h: Header)
    requires WellFormedHeader(h) && At(data, 0, EncodeHeader(h))
    ensures |data| >= 13 && (GIF87A <= data || GIF89A <= data) && data[10] == Packed(h.colours)
  {
    AtIsSlice(data, 0, EncodeHeader(h));
    Signatures();
    assert h.signature <= data;
    AtIndex(data, 0, EncodeHeader(h), 10);
  }

  /** Blocks and a marker byte decide the answer, or leave it to what follows. */
  lemma BlocksDecide(data: seq<byte>, pos: nat, bs: seq<Block>, marker: byte)
    requires WellFormedBlocks(bs) && At(data, pos, EncodeBlocks(bs)) && At(data, pos + |EncodeBlocks(bs)|, [marker])
    ensures marker == TRAILER ==> (Walk(data, pos, 0) <==> Images(bs) >= 2)
    ensures marker == IMAGE && Images(bs) == 1 ==> Walk(data, pos, 0)
  {
    BlocksWalkable(data, bs);
    CountFlags(bs);
    PartsDecide(data, pos, Codes(bs), ImageFlags(bs), marker);
  }

  /** Main result: for every well-formed stream and any bytes after its trailer, "animated" means two or more images. */
  lemma AnimatedIffTwoImages(h: Header, bs: seq<Block>, tail: seq<byte>)
    requires WellFormedHeader(h) && WellFormedBlocks(bs)
    ensures Animated(Encode(h, bs, tail)) <==> Images(bs) >= 2
  {
    var data := Encode(h, bs, tail);
    var head, body := EncodeHeader(h), EncodeBlocks(bs);
    AtIsSlice(data, 0, data);
    AtConcat(data, 0, head + body + [TRAILER], tail);
    AtConcat(data, 0, head + body, [TRAILER]);
    AtConcat(data, 0, head, body);
    HeaderRead(data, h);
    BlocksDecide(data, |head|, bs, TRAILER);
  }

  // ---- The walker accepts nothing else ----

  /** Where skipping stops before the end of the data, it skipped an encoded run of sub-blocks. */
  lemma {:induction false} SkipParses(data: seq<byte>, pos: nat) returns (chunks: seq<Chunk>)
    requires SkipSubBlocks(data, pos) < |data|
    ensures At(data, pos, EncodeChunks(chunks))
    ensures SkipSubBlocks(data, pos) == pos + |EncodeChunks(chunks)|
    decreases |data| - pos
  {
    if data[pos] == 0 {
      chunks := [];
    } else {
      var next := pos + 1 + data[pos];
      var rest := SkipParses(data, next);
      var chunk: Chunk := data[pos + 1..next];
      chunks := [chunk] + rest;
      assert chunks[1..] == rest;
      var size: seq<byte> := [|chunk|];
      AtIsSlice(data, pos + 1, chunk);
      AtConcat(data, pos, size, chunk);
      AtConcat(data, pos, size + chunk, EncodeChunks(rest));
    }
  }

  /** Any packed byte, with as many bytes as the walker skips for it, is a packed field with its colour table. */
  lemma ColoursParse(packed: byte, bytes: seq<byte>) returns (c: Colours)
    requires |bytes| == TableBytes(packed)
    ensures Packed(c) == packed && EncodeTable(c.table) == bytes
  {
    PowersOfTwo();
    var size, other := packed % 8, packed / 8 % 16;
    var table := TableParses(bytes, if packed >= 0x80 then Entries(size) else 0);
    c := ColourField(packed >= 0x80, other, size, table);
  }

  lemma {:induction false} TableParses(bytes: seq<byte>, n: nat) returns (table: seq<Rgb>)
    requires |bytes| == 3 * n
    ensures |table| == n && EncodeTable(table) == bytes
  {
    table := [];
    if n > 0 {
      var rest := TableParses(bytes[3..], n - 1);
      table := [Rgb(bytes[0], bytes[1], bytes[2])] + rest;
      assert table[1..] == rest;
      assert bytes == bytes[..3] + bytes[3..];
    }
  }

  lemma Adjoin(data: seq<byte>, i: nat, j: nat, k: nat)
    requires i <= j <= k <= |data|
    ensures data[i..j] + data[j..k] == data[i..k]
  {
  }

  lemma HeadIsSlice(data: seq<byte>, pos: nat, body: nat, b: Block)
    requires b.Image? && pos + 10 <= body < |data| && data[pos] == IMAGE
    requires b.position == data[pos + 1..pos + 9] && Packed(b.colours) == data[pos + 9]
    requires EncodeTable(b.colours.table) == data[pos + 10..body] && b.minCode == data[body]
    ensures EncodeImageHead(b) == data[pos..body + 1]
  {
    Adjoin(data, pos, pos + 1, pos + 9);
    Adjoin(data, pos, pos + 9, pos + 10);
    Adjoin(data, pos, pos + 10, body);
    Adjoin(data, pos, body, body + 1);
    assert [0x2C] == data[pos..pos + 1] && [Packed(b.colours)] == data[pos + 9..pos + 10]
        && [b.minCode] == data[body..body + 1];
  }

  /** From `pos` to `next` stands a block. */
  ghost predicate BlockAt(data: seq<byte>, pos: nat, next: nat, b: Block) {
    WellFormedBlock(b) && At(data, pos, EncodeBlock(b)) && next == pos + |EncodeBlock(b)|
  }

  lemma ImageParses(data: seq<byte>, pos: nat, next: nat)
    requires Advances(data, pos, next, true) && next < |data|
    ensures exists b: Block :: BlockAt(data, pos, next, b) && b.Image?
  {
    var body := pos + 10 + TableBytes(data[pos + 9]);
    var chunks := SkipParses(data, body + 1);
    var colours := ColoursParse(data[pos + 9], data[pos + 10..body]);
    var b := Image(data[pos + 1..pos + 9], colours, data[body], chunks);
    HeadIsSlice(data, pos, body, b);
    AtIsSlice(data, pos, EncodeImageHead(b));
    AtConcat(data, pos, EncodeImageHead(b), EncodeChunks(chunks));
    assert BlockAt(data, pos, next, b) && b.Image?;
  }

  lemma BlockParses(data: seq<byte>, pos: nat, next: nat, image: bool)
    requires Advances(data, pos, next, image) && next < |data|
    ensures exists b: Block :: BlockAt(data, pos, next, b) && b.Image? == image
  {
    if image {
      ImageParses(data, pos, next);
    } else {
      var chunks := SkipParses(data, pos + 2);
      var b := Extension(data[pos + 1], chunks);
      AtIsSlice(data, pos, [EXTENSION, b.extLabel]);
      AtConcat(data, pos, [EXTENSION, b.extLabel], EncodeChunks(chunks));
      assert BlockAt(data, pos, next, b);
    }
  }

  /** A route that passes the first image unless `frames` has counted it, and ends at the marker of a second. */
  ghost predicate RouteToImage(data: seq<byte>, pos: nat, hops: seq<Hop>, frames: nat) {
    Route(data, pos, hops) && frames + RouteImages(hops) == 1
    && RouteEnd(pos, hops) < |data| && data[RouteEnd(pos, hops)] == IMAGE
  }

  /** What makes the walker answer true: a route over one image in all, to the marker of a second. */
  lemma {:induction false} RouteTaken(data: seq<byte>, pos: nat, frames: nat)
    requires frames <= 1 && Walk(data, pos, frames)
    ensures exists hops :: RouteToImage(data, pos, hops, frames)
    decreases |data| - pos
  {
    if !(data[pos] == IMAGE && frames == 1) {
      var m := WalkOne(data, pos, frames);
      RouteTaken(data, m.pos, m.frames);
      var rest :| RouteToImage(data, m.pos, rest, m.frames);
      var hops := [Hop(m.pos, data[pos] == IMAGE)] + rest;
      assert hops[1..] == rest;
      assert RouteToImage(data, pos, hops, frames);
    } else {
      assert RouteToImage(data, pos, [], frames);
    }
  }

  lemma {:induction false} RouteForward(data: seq<byte>, pos: nat, hops: seq<Hop>)
    requires Route(data, pos, hops)
    ensures pos <= RouteEnd(pos, hops)
    decreases |hops|
  {
    if hops != [] { RouteForward(data, hops[0].next, hops[1..]); }
  }

  /** From `pos` to `next` stand blocks with so many images among them. */
  ghost predicate BlocksAt(data: seq<byte>, pos: nat, next: nat, bs: seq<Block>, images: nat) {
    && WellFormedBlocks(bs) && Images(bs) == images
    && At(data, pos, EncodeBlocks(bs)) && next == pos + |EncodeBlocks(bs)|
  }

  /** A route that ends inside the data leads over encoded blocks. */
  lemma {:induction false} RouteParses(data: seq<byte>, pos: nat, hops: seq<Hop>, end: nat, images: nat)
    requires Route(data, pos, hops) && RouteEnd(pos, hops) == end < |data| && RouteImages(hops) == images
    ensures exists bs :: BlocksAt(data, pos, end, bs, images)
    decreases |hops|
  {
    if hops == [] {
      assert BlocksAt(data, pos, end, [], images);
    } else {
      var next, more := hops[0].next, RouteImages(hops[1..]);
      RouteForward(data, next, hops[1..]);
      RouteParses(data, next, hops[1..], end, more);
      var rest :| BlocksAt(data, next, end, rest, more);
      BlockParses(data, pos, next, hops[0].image);
      var b: Block :| BlockAt(data, pos, next, b) && b.Image? == hops[0].image;
      ConsBlock(data, pos, b, next, rest);
      assert BlocksAt(data, pos, end, [b] + rest, images);
    }
  }

  lemma ConsBlock(data: seq<byte>, pos: nat, b: Block, next: nat, rest: seq<Block>)
    requires WellFormedBlock(b) && At(data, pos, EncodeBlock(b)) && next == pos + |EncodeBlock(b)|
    requires WellFormedBlocks(rest) && At(data, next, EncodeBlocks(rest))
    ensures BlocksAt(data, pos, next + |EncodeBlocks(rest)|, [b] + rest, (if b.Image? then 1 else 0) + Images(rest))
  {
    CodesCons(b, rest);
    AddPart(data, pos, EncodeBlock(b), Codes(rest));
  }

  lemma CodesCons(b: Block, rest: seq<Block>)
    ensures Codes([b] + rest) == [EncodeBlock(b)] + Codes(rest)
  {
    var all := [b] + rest;
    forall i | 0 <= i < |all| ensures Codes(all)[i] == ([EncodeBlock(b)] + Codes(rest))[i] {
      if i > 0 { assert all[i] == rest[i - 1]; }
    }
  }

  lemma WalkParses(data: seq<byte>, pos: nat)
    requires Walk(data, pos, 0)
    ensures exists bs, end :: BlocksAt(data, pos, end, bs, 1) && At(data, end, [IMAGE])
  {
    RouteTaken(data, pos, 0);
    var hops :| RouteToImage(data, pos, hops, 0);
    MarkerAt(data, RouteEnd(pos, hops));
    RouteParses(data, pos, hops, RouteEnd(pos, hops), 1);
  }

  lemma MarkerAt(data: seq<byte>, pos: nat)
    requires pos < |data|
    ensures At(data, pos, [data[pos]])
  {
  }

  ghost predicate StartsAnimated(data: seq<byte>, h: Header, bs: seq<Block>) {
    && WellFormedHeader(h) && WellFormedBlocks(bs) && Images(bs) == 1
    && EncodeHeader(h) + EncodeBlocks(bs) + [0x2C] <= data
  }

  lemma PrefixAt(data: seq<byte>, head: seq<byte>, body: seq<byte>, last: seq<byte>, start: nat, end: nat)
    requires start == |head| && end == start + |body|
    ensures head + body + last <= data <==> At(data, 0, head) && At(data, start, body) && At(data, end, last)
  {
    AtIsSlice(data, 0, head + body + last);
    AtConcat(data, 0, head + body, last);
    AtConcat(data, 0, head, body);
  }

  lemma HeaderParses(data: seq<byte>)
    requires |data| >= 13 && (GIF87A <= data || GIF89A <= data) && 13 + TableBytes(data[10]) <= |data|
    ensures exists h :: HeaderAt(data, h)
  {
    var start := 13 + TableBytes(data[10]);
    var packed, table := data[10], data[13..start];
    var colours := ColoursParse(packed, table);
    var h := Header(data[..6], data[6..10], colours, data[11..13]);
    Signatures();
    assert GIF87A <= data ==> data[..6] == GIF87A;
    assert GIF89A <= data ==> data[..6] == GIF89A;
    assert h.signature + h.screen == data[..10];
    assert h.signature + h.screen + [packed] == data[..11];
    assert h.signature + h.screen + [packed] + h.rest == data[..13];
    assert h.signature + h.screen + [packed] + h.rest + table == data[..start];
    assert EncodeHeader(h) == data[..start];
    AtIsSlice(data, 0, EncodeHeader(h));
    assert HeaderAt(data, h);
  }

  ghost predicate HeaderAt(data: seq<byte>, h: Header)
    requires |data| > 10
  {
    WellFormedHeader(h) && At(data, 0, EncodeHeader(h)) && |EncodeHeader(h)| == 13 + TableBytes(data[10])
  }

  lemma AnimatedParses(data: seq<byte>)
    requires Animated(data)
    ensures exists h, bs :: StartsAnimated(data, h, bs)
  {
    var start := 13 + TableBytes(data[10]);
    HeaderParses(data);
    var h :| HeaderAt(data, h);
    WalkParses(data, start);
    var bs, end :| BlocksAt(data, start, end, bs, 1) && At(data, end, [IMAGE]);
    PrefixAt(data, EncodeHeader(h), EncodeBlocks(bs), [IMAGE], start, end);
    assert StartsAnimated(data, h, bs);
  }

  lemma StartsSoAnimates(data: seq<byte>, h: Header, bs: seq<Block>)
    requires StartsAnimated(data, h, bs)
    ensures Animated(data)
  {
    var start := |EncodeHeader(h)|;
    PrefixAt(data, EncodeHeader(h), EncodeBlocks(bs), [IMAGE], start, start + |EncodeBlocks(bs)|);
    HeaderRead(data, h);
    BlocksDecide(data, |EncodeHeader(h)|, bs, IMAGE);
  }

  /**
   Main result, on arbitrary bytes: "animated" is answered exactly for data that begins like a stream with
   two images.
   */
  lemma AnimatedIffStartsSo(data: seq<byte>)
    ensures Animated(data) <==> exists h, bs :: StartsAnimated(data, h, bs)
  {
    if exists h, bs :: StartsAnimated(data, h, bs) {
      var h, bs :| StartsAnimated(data, h, bs);
      StartsSoAnimates(data, h, bs);
    } else if Animated(data) {
      AnimatedParses(data);
    }
  }
}
