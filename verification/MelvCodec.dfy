/** The MELV2 container: a header and length-prefixed run-length coded frames. */
module MelvCodec {
  import Ppm
  import RunLength
  import opened Bytes
  import opened Options

  const MAGIC: seq<Byte> := [77, 69, 76, 86, 50]
  const VERSION := 1
  const FPS_DEN := 1000
  const HEADER_SIZE: nat := 29
  const FRAME_LEN: nat := 4

  /** 32-bit words one after the other. */
  function Words(ws: seq<int>): (b: seq<Byte>)
    requires forall i :: 0 <= i < |ws| ==> FitsU32(ws[i])
    ensures |b| == 4 * |ws|
  {
    if ws == [] then [] else U32(ws[0]) + Words(ws[1..])
  }

  function Unwords(b: seq<Byte>): (ws: seq<int>)
    requires |b| % 4 == 0
    ensures |ws| == |b| / 4 && forall i :: 0 <= i < |ws| ==> FitsU32(ws[i])
  {
    if b == [] then [] else [FromU32(b[..4])] + Unwords(b[4..])
  }

  lemma {:induction false} UnwordsOfWords(ws: seq<int>)
    requires forall i :: 0 <= i < |ws| ==> FitsU32(ws[i])
    ensures Unwords(Words(ws)) == ws
  {
    if ws != [] {
      U32RoundTrip(ws[0]);
      UnwordsOfWords(ws[1..]);
      assert Words(ws)[..4] == U32(ws[0]) && Words(ws)[4..] == Words(ws[1..]);
    }
  }

  // ----- packing -----

  type Image = Ppm.Image

  predicate Sized(image: Image, width: int, height: int) {
    image.width == width && image.height == height && |image.pixels| == width * height * 3
  }

  function PayloadOf(image: Image): seq<Byte> {
    if |image.pixels| % 3 == 0 then RunLength.Encoded(image.pixels) else []
  }

  predicate AllSized(images: seq<Image>, width: int, height: int) {
    forall i :: 0 <= i < |images| ==> Sized(images[i], width, height)
  }

  function Payloads(images: seq<Image>): (r: seq<seq<Byte>>)
    ensures |r| == |images| && forall i :: 0 <= i < |r| ==> r[i] == PayloadOf(images[i])
  {
    if images == [] then [] else Payloads(images[..|images| - 1]) + [PayloadOf(images[|images| - 1])]
  }

  predicate AllFit(payloads: seq<seq<Byte>>) {
    forall i :: 0 <= i < |payloads| ==> FitsU32(|payloads[i]|)
  }

  /** What can be packed: at least one frame, all of one size, and every number within 32 bits. */
  predicate Packable(images: seq<Image>, fpsNum: int) {
    && images != []
    && AllSized(images, images[0].width, images[0].height)
    && FitsU32(images[0].width) && FitsU32(images[0].height) && FitsU32(fpsNum) && FitsU32(|images|)
    && AllFit(Payloads(images))
  }

  function Chunk(payload: seq<Byte>): (b: seq<Byte>)
    requires FitsU32(|payload|)
    ensures |b| == FRAME_LEN + |payload|
  {
    U32(|payload|) + payload
  }

  function Chunks(payloads: seq<seq<Byte>>): seq<Byte>
    requires AllFit(payloads)
  {
    if payloads == [] then [] else Chunk(payloads[0]) + Chunks(payloads[1..])
  }

  function Header(width: int, height: int, fpsNum: int, frames: int): (b: seq<Byte>)
    requires FitsU32(width) && FitsU32(height) && FitsU32(fpsNum) && FitsU32(frames)
    ensures |b| == HEADER_SIZE
  {
    MAGIC + Words([VERSION, width, height, fpsNum, FPS_DEN, frames])
  }

  function PackedImages(images: seq<Image>, fpsNum: int): seq<Byte>
    requires Packable(images, fpsNum)
  {
    Header(images[0].width, images[0].height, fpsNum, |images|) + Chunks(Payloads(images))
  }

  type Reader = seq<Byte> -> Option<Image>

  /** The images in the files, unless one of them cannot be read. */
  function ImagesOf(read: Reader, files: seq<seq<Byte>>): (r: Option<seq<Image>>)
    ensures r.Some? ==> |r.value| == |files|
    decreases |files|
  {
    if files == [] then Some([])
    else
      match ImagesOf(read, files[..|files| - 1])
      case None => None
      case Some(before) =>
        var last := read(files[|files| - 1]);
        if last.None? then None else Some(before + [last.value])
  }

  function Packed(files: seq<seq<Byte>>, fpsNum: int): Option<seq<Byte>> {
    match ImagesOf(Ppm.Parse, files)
    case None => None
    case Some(images) => if Packable(images, fpsNum) then Some(PackedImages(images, fpsNum)) else None
  }

  lemma {:induction false} ImageOf(read: Reader, files: seq<seq<Byte>>, i: nat)
    requires i < |files| && ImagesOf(read, files).Some?
    ensures read(files[i]) == Some(ImagesOf(read, files).value[i])
    decreases |files|
  {
    if i < |files| - 1 {
      ImageOf(read, files[..|files| - 1], i);
    }
  }

  lemma {:induction false} AllRead(read: Reader, files: seq<seq<Byte>>, images: seq<Image>)
    requires |files| == |images| && forall i :: 0 <= i < |files| ==> read(files[i]) == Some(images[i])
    ensures ImagesOf(read, files) == Some(images)
    decreases |files|
  {
    if files != [] {
      var n := |files| - 1;
      AllRead(read, files[..n], images[..n]);
      assert images == images[..n] + [images[n]];
    }
  }

  lemma ImagesOfSnoc(read: Reader, files: seq<seq<Byte>>, i: nat, images: seq<Image>)
    requires i < |files| && ImagesOf(read, files[..i]) == Some(images)
    ensures ImagesOf(read, files[..i + 1]) ==
            if read(files[i]).None? then None else Some(images + [read(files[i]).value])
  {
    assert files[..i + 1][..i] == files[..i];
  }

  /** The reading loop, then the writing loop. */
  method Pack(files: seq<seq<Byte>>, fpsNum: int) returns (data: Option<seq<Byte>>)
    ensures data == Packed(files, fpsNum)
  {
    if files == [] {
      return None;
    }
    var encoded, width, height, ok := EncodeAll(files, fpsNum);
    if !ok {
      return None;
    }
    ghost var images :| ReadSoFar(Ppm.Parse, files, images, encoded, width, height);
    assert Sized(images[0], width, height);
    if !FitsU32(width) || !FitsU32(height) || !FitsU32(fpsNum) || !FitsU32(|encoded|) {
      return None;
    }
    var body := WriteChunks(encoded);
    match body
    case None => data := None;
    case Some(chunks) => data := Some(Header(width, height, fpsNum, |encoded|) + chunks);
  }

  method EncodeAll(files: seq<seq<Byte>>, ghost fpsNum: int)
    returns (encoded: seq<seq<Byte>>, width: int, height: int, ok: bool)
    requires files != []
    ensures !ok ==> Packed(files, fpsNum) == None
    ensures ok ==> exists images :: ReadSoFar(Ppm.Parse, files, images, encoded, width, height)
  {
    encoded, width, height := [], 0, 0;
    ghost var images: seq<Image> := [];
    for i := 0 to |files|
      invariant ReadSoFar(Ppm.Parse, files[..i], images, encoded, width, height)
    {
      var image := Ppm.Read(files[i]);
      if image.None? {
        NotAllRead(Ppm.Parse, files, i);
        return encoded, width, height, false;
      }
      if i == 0 {
        width, height := image.value.width, image.value.height;
      } else if image.value.width != width || image.value.height != height {
        NotOneSize(Ppm.Parse, files, i, images, image.value, width, height);
        return encoded, width, height, false;
      }
      Thirds(|image.value.pixels|, width * height);
      var payload := RunLength.Encode(image.value.pixels);
      ImageRead(Ppm.Parse, files, i, images, encoded, width, height, image.value);
      encoded := encoded + [payload.value];
      images := images + [image.value];
    }
    assert files[..|files|] == files;
    ok := true;
  }

  ghost predicate ReadSoFar(read: Reader, files: seq<seq<Byte>>, images: seq<Image>, encoded: seq<seq<Byte>>,
                            width: int, height: int)
  {
    ImagesOf(read, files) == Some(images) && encoded == Payloads(images) && AllSized(images, width, height)
  }

  lemma ImageRead(read: Reader, files: seq<seq<Byte>>, i: nat, images: seq<Image>, encoded: seq<seq<Byte>>,
                  width: int, height: int, image: Image)
    requires i < |files| && ImagesOf(read, files[..i]) == Some(images) && encoded == Payloads(images)
    requires AllSized(images, width, height) && Sized(image, width, height) && read(files[i]) == Some(image)
    ensures ReadSoFar(read, files[..i + 1], images + [image], encoded + [PayloadOf(image)], width, height)
  {
    ImagesOfSnoc(read, files, i, images);
    assert (images + [image])[..|images|] == images;
  }

  lemma NotAllRead(read: Reader, files: seq<seq<Byte>>, i: nat)
    requires i < |files| && read(files[i]).None?
    ensures ImagesOf(read, files) == None
  {
    if ImagesOf(read, files).Some? {
      ImageOf(read, files, i);
    }
  }

  lemma NotOneSize(read: Reader, files: seq<seq<Byte>>, i: nat, before: seq<Image>, image: Image, width: int,
                   height: int)
    requires 0 < i < |files| && ImagesOf(read, files[..i]) == Some(before) && AllSized(before, width, height)
    requires read(files[i]) == Some(image) && (image.width != width || image.height != height)
    ensures var images := ImagesOf(read, files);
            images.Some? ==> !AllSized(images.value, images.value[0].width, images.value[0].height)
  {
    if ImagesOf(read, files).Some? {
      var images := ImagesOf(read, files).value;
      ImageOf(read, files, i);
      ImageOf(read, files, 0);
      ImageOf(read, files[..i], 0);
      assert Sized(before[0], width, height);
      assert !Sized(images[i], images[0].width, images[0].height);
    }
  }

  method WriteChunks(encoded: seq<seq<Byte>>) returns (out: Option<seq<Byte>>)
    ensures out == if AllFit(encoded) then Some(Chunks(encoded)) else None
  {
    var body: seq<Byte> := [];
    for i := 0 to |encoded|
      invariant AllFit(encoded[..i]) && body == Chunks(encoded[..i])
    {
      if !FitsU32(|encoded[i]|) {
        return None;
      }
      assert encoded[..i + 1] == encoded[..i] + [encoded[i]];
      ChunksSnoc(encoded[..i], encoded[i]);
      body := body + Chunk(encoded[i]);
    }
    assert encoded[..|encoded|] == encoded;
    out := Some(body);
  }

  lemma {:induction false} ChunksSnoc(payloads: seq<seq<Byte>>, payload: seq<Byte>)
    requires AllFit(payloads) && FitsU32(|payload|)
    ensures Chunks(payloads + [payload]) == Chunks(payloads) + Chunk(payload)
  {
    if payloads != [] {
      assert (payloads + [payload])[1..] == payloads[1..] + [payload];
      ChunksSnoc(payloads[1..], payload);
    }
  }

  // ----- extracting -----

  /** The next `n` frames as PPM files; None when one is cut short or refused by the decoder. */
  function Frames(rest: seq<Byte>, n: nat, width: nat, height: nat): (out: Option<seq<seq<Byte>>>)
    ensures out.Some? ==> |out.value| == n
    decreases n
  {
    if n == 0 then Some([])
    else if NextImage(rest, width, height).None? then None
    else Cons(NextImage(rest, width, height).value, Frames(Skip(rest), n - 1, width, height))
  }

  /** The first frame of `rest` as a PPM file. */
  function NextImage(rest: seq<Byte>, width: nat, height: nat): Option<seq<Byte>> {
    match NextChunk(rest)
    case None => None
    case Some(payload) =>
      var frame := RunLength.Decoded(payload, width * height);
      if frame.None? then None else Some(Ppm.Write(width, height, frame.value))
  }

  function Skip(rest: seq<Byte>): seq<Byte>
    requires NextChunk(rest).Some?
  {
    rest[FRAME_LEN + |NextChunk(rest).value|..]
  }

  function NextChunk(rest: seq<Byte>): (payload: Option<seq<Byte>>)
    ensures payload.Some? ==> FRAME_LEN + |payload.value| <= |rest| && FitsU32(|payload.value|)
  {
    if |rest| < FRAME_LEN then None
    else
      var length := FromU32(rest[..FRAME_LEN]);
      if |rest| - FRAME_LEN < length then None else Some(rest[FRAME_LEN..FRAME_LEN + length])
  }

  function Cons(file: seq<Byte>, rest: Option<seq<seq<Byte>>>): Option<seq<seq<Byte>>> {
    if rest.None? then None else Some([file] + rest.value)
  }

  function Append(files: seq<seq<Byte>>, rest: Option<seq<seq<Byte>>>): Option<seq<seq<Byte>>> {
    if rest.None? then None else Some(files + rest.value)
  }

  function Fields(header: seq<Byte>): (ws: seq<int>)
    requires |header| == HEADER_SIZE
    ensures |ws| == 6 && forall i :: 0 <= i < 6 ==> FitsU32(ws[i])
  {
    Unwords(header[|MAGIC|..])
  }

  function Extracted(data: seq<Byte>): Option<seq<seq<Byte>>> {
    if |data| < HEADER_SIZE || data[..|MAGIC|] != MAGIC then None
    else
      var f := Fields(data[..HEADER_SIZE]);
      if f[0] != VERSION then None else Frames(data[HEADER_SIZE..], f[5], f[1], f[2])
  }

  /** An open file with its position. */
  class File {
    const data: seq<Byte>
    var pos: nat

    ghost predicate Valid() reads this { pos <= |data| }

    ghost function Rest(): seq<Byte>
      reads this
      requires Valid()
    {
      data[pos..]
    }

    constructor (data: seq<Byte>)
      ensures Valid() && Rest() == data
    {
      this.data := data;
      pos := 0;
      new;
      assert data[0..] == data;
    }

    /** Up to `n` bytes, fewer only at the end of the file. */
    method Read(n: nat) returns (chunk: seq<Byte>)
      requires Valid()
      modifies this
      ensures Valid() && |chunk| == if n <= |old(Rest())| then n else |old(Rest())|
      ensures chunk == old(Rest())[..|chunk|] && Rest() == old(Rest())[|chunk|..]
    {
      var end := if n <= |data| - pos then pos + n else |data|;
      chunk := data[pos..end];
      assert data[end..] == data[pos..][end - pos..] && chunk == data[pos..][..end - pos];
      pos := end;
    }
  }

  method Extract(file: File) returns (out: Option<seq<seq<Byte>>>)
    requires file.Valid()
    modifies file
    ensures out == Extracted(old(file.Rest()))
  {
    ghost var data := file.Rest();
    var header := file.Read(HEADER_SIZE);
    if |header| != HEADER_SIZE {
      return None;
    }
    assert header[..|MAGIC|] == data[..|MAGIC|];
    var f := Fields(header);
    if header[..|MAGIC|] != MAGIC || f[0] != VERSION {
      return None;
    }
    out := ExtractFrames(file, f[5], f[1], f[2]);
  }

  /** A length and as many bytes; None when the file ends before them. */
  method ReadChunk(file: File) returns (payload: Option<seq<Byte>>)
    requires file.Valid()
    modifies file
    ensures file.Valid()
    ensures payload == NextChunk(old(file.Rest()))
    ensures payload.Some? ==> file.Rest() == old(file.Rest())[FRAME_LEN + |payload.value|..]
  {
    ghost var rest := file.Rest();
    var prefix := file.Read(FRAME_LEN);
    if |prefix| != FRAME_LEN {
      return None;
    }
    var length := FromU32(prefix);
    var chunk := file.Read(length);
    if |chunk| != length {
      return None;
    }
    ReadTwice(rest, FRAME_LEN, length);
    payload := Some(chunk);
  }

  method ExtractFrame(file: File, width: nat, height: nat, expectedPixels: nat) returns (image: Option<seq<Byte>>)
    requires file.Valid() && expectedPixels == width * height
    modifies file
    ensures file.Valid()
    ensures image == NextImage(old(file.Rest()), width, height)
    ensures image.Some? ==> file.Rest() == Skip(old(file.Rest()))
  {
    var payload := ReadChunk(file);
    if payload.None? {
      return None;
    }
    var pixels := RunLength.Decode(payload.value, expectedPixels);
    if pixels.None? {
      return None;
    }
    image := Some(Ppm.Write(width, height, pixels.value));
  }

  method ExtractFrames(file: File, frames: nat, width: nat, height: nat) returns (out: Option<seq<seq<Byte>>>)
    requires file.Valid()
    modifies file
    ensures out == Frames(old(file.Rest()), frames, width, height)
  {
    ghost var body := file.Rest();
    var expectedPixels := width * height;
    var files: seq<seq<Byte>> := [];
    FramesBehind([], body, frames, width, height);
    AppendNothing(Frames(body, frames, width, height));
    for idx := 0 to frames
      invariant file.Valid()
      invariant Behind(files, file.Rest(), frames - idx, width, height) == Frames(body, frames, width, height)
    {
      var image := ExtractFrame(file, width, height, expectedPixels);
      if image.None? {
        return None;
      }
      files := files + [image.value];
    }
    out := Some(files);
  }

  /** What the loop makes of the next `n` frames, with `files` extracted already. */
  ghost function Behind(files: seq<seq<Byte>>, rest: seq<Byte>, n: nat, width: nat, height: nat): Option<seq<seq<Byte>>>
    decreases n
  {
    if n == 0 then Some(files)
    else
      match NextImage(rest, width, height)
      case None => None
      case Some(image) => Behind(files + [image], Skip(rest), n - 1, width, height)
  }

  lemma {:induction false} FramesBehind(files: seq<seq<Byte>>, rest: seq<Byte>, n: nat, width: nat, height: nat)
    ensures Behind(files, rest, n, width, height) == Append(files, Frames(rest, n, width, height))
    decreases n
  {
    if n == 0 {
      assert files + [] == files;
    } else if NextImage(rest, width, height).Some? {
      var image := NextImage(rest, width, height).value;
      FramesBehind(files + [image], Skip(rest), n - 1, width, height);
      AppendCons(files, image, Frames(Skip(rest), n - 1, width, height));
    }
  }

  lemma ReadTwice(rest: seq<Byte>, a: nat, b: nat)
    requires a + b <= |rest|
    ensures rest[a..][..b] == rest[a..a + b] && rest[a..][b..] == rest[a + b..]
  {
  }

  lemma AppendNothing(rest: Option<seq<seq<Byte>>>)
    ensures Append([], rest) == rest
  {
    if rest.Some? {
      assert [] + rest.value == rest.value;
    }
  }

  lemma AppendCons(files: seq<seq<Byte>>, image: seq<Byte>, rest: Option<seq<seq<Byte>>>)
    ensures Append(files, Cons(image, rest)) == Append(files + [image], rest)
  {
    if rest.Some? {
      assert files + ([image] + rest.value) == (files + [image]) + rest.value;
    }
  }

  // ----- there and back -----

  /** The PPM files the extractor writes for these frames. */
  function Written(frames: seq<seq<Byte>>, width: nat, height: nat): (out: seq<seq<Byte>>)
    ensures |out| == |frames| && forall i :: 0 <= i < |out| ==> out[i] == Ppm.Write(width, height, frames[i])
  {
    if frames == [] then [] else [Ppm.Write(width, height, frames[0])] + Written(frames[1..], width, height)
  }

  ghost predicate AllDecode(payloads: seq<seq<Byte>>, frames: seq<seq<Byte>>, count: nat) {
    |payloads| == |frames| && forall i :: 0 <= i < |frames| ==> RunLength.Decoded(payloads[i], count) == Some(frames[i])
  }

  lemma {:induction false} ChunksAreFrames(payloads: seq<seq<Byte>>, frames: seq<seq<Byte>>, width: nat, height: nat)
    requires AllFit(payloads) && AllDecode(payloads, frames, width * height)
    ensures Frames(Chunks(payloads), |payloads|, width, height) == Some(Written(frames, width, height))
  {
    if payloads != [] {
      ChunksAreFrames(payloads[1..], frames[1..], width, height);
      OneFrame(payloads[0], frames[0], Chunks(payloads[1..]), |payloads|, width, height);
    }
  }

  /** A written frame is read back, and the reader is left at what follows it. */
  lemma OneFrame(payload: seq<Byte>, frame: seq<Byte>, rest: seq<Byte>, n: nat, width: nat, height: nat)
    requires FitsU32(|payload|) && RunLength.Decoded(payload, width * height) == Some(frame) && n > 0
    ensures Frames(Chunk(payload) + rest, n, width, height) ==
            Cons(Ppm.Write(width, height, frame), Frames(rest, n - 1, width, height))
  {
    var all, end := Chunk(payload) + rest, FRAME_LEN + |payload|;
    U32RoundTrip(|payload|);
    assert all[..FRAME_LEN] == U32(|payload|) && all[FRAME_LEN..end] == payload && all[end..] == rest;
  }

  /** What the header says is read back from any file that begins with it. */
  lemma HeaderRead(width: int, height: int, fpsNum: int, frames: int, body: seq<Byte>)
    requires FitsU32(width) && FitsU32(height) && FitsU32(fpsNum) && FitsU32(frames)
    ensures Extracted(Header(width, height, fpsNum, frames) + body) == Frames(body, frames, width, height)
  {
    var header, fields := Header(width, height, fpsNum, frames), [VERSION, width, height, fpsNum, FPS_DEN, frames];
    var data := header + body;
    assert data[..HEADER_SIZE] == header && data[HEADER_SIZE..] == body && data[..|MAGIC|] == MAGIC;
    assert header[|MAGIC|..] == Words(fields);
    UnwordsOfWords(fields);
  }

  lemma PayloadDecodes(image: Image, width: nat, height: nat)
    requires Sized(image, width, height)
    ensures RunLength.Decoded(PayloadOf(image), width * height) == Some(image.pixels)
  {
    Thirds(|image.pixels|, width * height);
    RunLength.EncodeThenDecode(image.pixels);
  }

  lemma Thirds(n: nat, k: nat)
    requires n == k * 3
    ensures n % 3 == 0 && n / 3 == k
  {
  }

  function PixelsOf(images: seq<Image>): (r: seq<seq<Byte>>)
    ensures |r| == |images| && forall i :: 0 <= i < |r| ==> r[i] == images[i].pixels
  {
    seq(|images|, i requires 0 <= i < |images| => images[i].pixels)
  }

  lemma ImagesComeBack(images: seq<Image>, fpsNum: int)
    requires Packable(images, fpsNum)
    ensures Extracted(PackedImages(images, fpsNum)) ==
            Some(Written(PixelsOf(images), images[0].width, images[0].height))
  {
    var width, height, payloads := images[0].width, images[0].height, Payloads(images);
    forall i | 0 <= i < |images|
      ensures RunLength.Decoded(payloads[i], width * height) == Some(PixelsOf(images)[i])
    {
      PayloadDecodes(images[i], width, height);
    }
    ChunksAreFrames(payloads, PixelsOf(images), width, height);
    HeaderRead(width, height, fpsNum, |images|, Chunks(payloads));
  }

  /** Packing and then extracting gives back every frame, in order. */
  lemma PackThenExtract(files: seq<seq<Byte>>, fpsNum: int)
    requires Packed(files, fpsNum).Some?
    ensures var out := Extracted(Packed(files, fpsNum).value);
            out.Some? && |out.value| == |files| &&
            forall i :: 0 <= i < |files| ==> Ppm.Parse(out.value[i]) == Ppm.Parse(files[i])
  {
    var images := ImagesOf(Ppm.Parse, files).value;
    ImagesComeBack(images, fpsNum);
    var width, height := images[0].width, images[0].height;
    forall i | 0 <= i < |files|
      ensures Ppm.Parse(Written(PixelsOf(images), width, height)[i]) == Ppm.Parse(files[i])
    {
      assert Sized(images[i], width, height);
      ImageOf(Ppm.Parse, files, i);
      Ppm.WriteThenRead(width, height, images[i].pixels);
    }
  }

  /** Frames of one size can be packed whenever four bytes a pixel fit in 32 bits. */
  lemma EqualSizesArePackable(images: seq<Image>, fpsNum: int, width: nat, height: nat)
    requires images != [] && AllSized(images, width, height)
    requires FitsU32(width) && FitsU32(height) && FitsU32(fpsNum) && FitsU32(|images|) && FitsU32(4 * (width * height))
    ensures Packable(images, fpsNum)
  {
    assert Sized(images[0], width, height);
    forall i | 0 <= i < |images|
      ensures FitsU32(|Payloads(images)[i]|)
    {
      var pixels := images[i].pixels;
      assert Sized(images[i], width, height);
      Thirds(|pixels|, width * height);
      RunLength.GreedyBound(RunLength.Pixels(pixels));
    }
  }

  // ----- packing again -----

  /** Taking extracted frames apart: their payloads, their pixels, and the room they took. */
  lemma {:induction false} FramesTaken(rest: seq<Byte>, n: nat, width: nat, height: nat)
    returns (payloads: seq<seq<Byte>>, frames: seq<seq<Byte>>)
    requires Frames(rest, n, width, height).Some?
    ensures |payloads| == n && AllFit(payloads) && AllDecode(payloads, frames, width * height)
    ensures Frames(rest, n, width, height) == Some(Written(frames, width, height))
    ensures |Chunks(payloads)| <= |rest|
    decreases n
  {
    payloads, frames := [], [];
    if n > 0 {
      var payload := NextChunk(rest).value;
      var after := Skip(rest);
      var frame := RunLength.Decoded(payload, width * height).value;
      var ps, fs := FramesTaken(after, n - 1, width, height);
      payloads, frames := [payload] + ps, [frame] + fs;
      DecodeFirst(payload, ps, frame, fs, width * height);
      WrittenFirst(frame, fs, width, height);
    }
  }

  lemma DecodeFirst(payload: seq<Byte>, payloads: seq<seq<Byte>>, frame: seq<Byte>, frames: seq<seq<Byte>>, count: nat)
    requires AllFit(payloads) && AllDecode(payloads, frames, count)
    requires FitsU32(|payload|) && RunLength.Decoded(payload, count) == Some(frame)
    ensures AllFit([payload] + payloads) && AllDecode([payload] + payloads, [frame] + frames, count)
    ensures |Chunks([payload] + payloads)| == FRAME_LEN + |payload| + |Chunks(payloads)|
  {
    assert ([payload] + payloads)[1..] == payloads;
  }

  lemma WrittenFirst(frame: seq<Byte>, frames: seq<seq<Byte>>, width: nat, height: nat)
    ensures Written([frame] + frames, width, height) ==
            [Ppm.Write(width, height, frame)] + Written(frames, width, height)
  {
    assert ([frame] + frames)[1..] == frames;
  }

  lemma {:induction false} ShorterChunks(a: seq<seq<Byte>>, b: seq<seq<Byte>>)
    requires |a| == |b| && AllFit(b) && forall i :: 0 <= i < |a| ==> |a[i]| <= |b[i]|
    ensures AllFit(a) && |Chunks(a)| <= |Chunks(b)|
  {
    if a != [] {
      ShorterChunks(a[1..], b[1..]);
    }
  }

  /** Whatever the extractor accepts can be packed again, and never takes more room than it did. */
  lemma RepackingNeverGrows(data: seq<Byte>, fpsNum: int)
    requires Extracted(data).Some? && Extracted(data).value != [] && FitsU32(fpsNum)
    ensures var again := Packed(Extracted(data).value, fpsNum);
            again.Some? && |again.value| <= |data|
  {
    var f, out := Fields(data[..HEADER_SIZE]), Extracted(data).value;
    var width, height := f[1], f[2];
    var payloads, frames := FramesTaken(data[HEADER_SIZE..], f[5], width, height);
    FramesAgain(payloads, frames, width, height);
    assert Packable(Made(frames, width, height), fpsNum);
  }

  /** Decoded frames, written and read back, have payloads no longer than they had. */
  lemma FramesAgain(payloads: seq<seq<Byte>>, frames: seq<seq<Byte>>, width: nat, height: nat)
    requires AllFit(payloads) && AllDecode(payloads, frames, width * height)
    ensures var images := Made(frames, width, height);
            && ImagesOf(Ppm.Parse, Written(frames, width, height)) == Some(images)
            && AllSized(images, width, height)
            && AllFit(Payloads(images)) && |Chunks(Payloads(images))| <= |Chunks(payloads)|
  {
    var out, images := Written(frames, width, height), Made(frames, width, height);
    forall i | 0 <= i < |frames|
      ensures Ppm.Parse(out[i]) == Some(images[i]) && Sized(images[i], width, height)
      ensures |Payloads(images)[i]| <= |payloads[i]|
    {
      FrameAgain(payloads[i], frames[i], width, height);
    }
    AllRead(Ppm.Parse, out, images);
    ShorterChunks(Payloads(images), payloads);
  }

  lemma FrameAgain(payload: seq<Byte>, frame: seq<Byte>, width: nat, height: nat)
    requires RunLength.Decoded(payload, width * height) == Some(frame)
    ensures Ppm.Parse(Ppm.Write(width, height, frame)) == Some(Ppm.Image(width, height, frame))
    ensures |frame| == width * height * 3
    ensures |PayloadOf(Ppm.Image(width, height, frame))| <= |payload|
  {
    Thirds(|frame|, width * height);
    RunLength.EncodedIsShortest(payload, frame);
    Ppm.WriteThenRead(width, height, frame);
  }

  function Made(frames: seq<seq<Byte>>, width: nat, height: nat): (images: seq<Image>)
    ensures |images| == |frames|
    ensures forall i :: 0 <= i < |images| ==> images[i] == Ppm.Image(width, height, frames[i])
  {
    if frames == [] then [] else [Ppm.Image(width, height, frames[0])] + Made(frames[1..], width, height)
  }

  // ----- the format in other words -----

  /** The header, byte range by byte range: MELV2, then six little-endian numbers of four bytes, the
      version 1, width, height, frames a second in thousandths with their denominator, and the count. */
  lemma HeaderBytes(width: int, height: int, fpsNum: int, frames: int)
    requires FitsU32(width) && FitsU32(height) && FitsU32(fpsNum) && FitsU32(frames)
    ensures var h := Header(width, height, fpsNum, frames);
            && |h| == 29 && h[..5] == [77, 69, 76, 86, 50]
            && FromU32(h[5..9]) == 1
            && FromU32(h[9..13]) == width
            && FromU32(h[13..17]) == height
            && FromU32(h[17..21]) == fpsNum
            && FromU32(h[21..25]) == 1000
            && FromU32(h[25..29]) == frames
  {
    var ws := [VERSION, width, height, fpsNum, FPS_DEN, frames];
    HeaderWord(MAGIC, ws, 0);
    HeaderWord(MAGIC, ws, 1);
    HeaderWord(MAGIC, ws, 2);
    HeaderWord(MAGIC, ws, 3);
    HeaderWord(MAGIC, ws, 4);
    HeaderWord(MAGIC, ws, 5);
  }

  lemma HeaderWord(magic: seq<Byte>, ws: seq<int>, i: nat)
    requires |magic| == 5 && i < |ws| && forall k :: 0 <= k < |ws| ==> FitsU32(ws[k])
    ensures FromU32((magic + Words(ws))[5 + 4 * i..9 + 4 * i]) == ws[i]
  {
    var words := Words(ws);
    WordAt(ws, i);
    SliceBehind(magic, words, 4 * i, 4 * i + 4);
  }

  lemma SliceBehind<T>(a: seq<T>, b: seq<T>, i: nat, j: nat)
    requires i <= j <= |b|
    ensures (a + b)[|a| + i..|a| + j] == b[i..j]
  {
  }

  lemma {:induction false} WordAt(ws: seq<int>, i: nat)
    requires i < |ws| && forall k :: 0 <= k < |ws| ==> FitsU32(ws[k])
    ensures FromU32(Words(ws)[4 * i..4 * i + 4]) == ws[i]
  {
    U32RoundTrip(ws[0]);
    if i > 0 {
      WordAt(ws[1..], i - 1);
      assert Words(ws)[4 * i..4 * i + 4] == Words(ws[1..])[4 * (i - 1)..4 * (i - 1) + 4];
    } else {
      assert Words(ws)[0..4] == U32(ws[0]);
    }
  }

  /** A packed file is its header and, for each frame, the length of its coding in four bytes and the
      coding. */
  lemma PackedBytes(images: seq<Image>, fpsNum: int)
    requires Packable(images, fpsNum)
    ensures var data := PackedImages(images, fpsNum);
            && data[..29] == Header(images[0].width, images[0].height, fpsNum, |images|)
            && FromU32(data[29..33]) == |RunLength.Encoded(images[0].pixels)|
            && RunLength.Encoded(images[0].pixels) <= data[33..]
  {
    var header := Header(images[0].width, images[0].height, fpsNum, |images|);
    assert Sized(images[0], images[0].width, images[0].height);
    Thirds(|images[0].pixels|, images[0].width * images[0].height);
    BehindHeader(header, Payloads(images)[0], Chunks(Payloads(images)[1..]));
  }

  lemma BehindHeader(header: seq<Byte>, payload: seq<Byte>, rest: seq<Byte>)
    requires |header| == 29 && FitsU32(|payload|)
    ensures var data := header + (Chunk(payload) + rest);
            data[..29] == header && FromU32(data[29..33]) == |payload| && payload <= data[33..]
  {
    var data := header + (Chunk(payload) + rest);
    U32RoundTrip(|payload|);
    assert data[29..33] == U32(|payload|);
    assert data[33..] == payload + rest;
  }

  /** What is extracted has the magic and the version in front, and as many files as the header says. */
  lemma ExtractedNeeds(data: seq<Byte>)
    requires Extracted(data).Some?
    ensures |data| >= 29 && data[..5] == [77, 69, 76, 86, 50] && FromU32(data[5..9]) == 1
    ensures |Extracted(data).value| == FromU32(data[25..29])
  {
    var header := data[..HEADER_SIZE];
    FieldAt(header[5..], 0);
    FieldAt(header[5..], 5);
    assert header[5..][4 * 0..4 * 0 + 4] == data[5..9] && header[5..][4 * 5..4 * 5 + 4] == data[25..29];
  }

  lemma {:induction false} FieldAt(b: seq<Byte>, i: nat)
    requires |b| % 4 == 0 && i < |b| / 4
    ensures Unwords(b)[i] == FromU32(b[4 * i..4 * i + 4])
  {
    if i > 0 {
      FieldAt(b[4..], i - 1);
      assert b[4..][4 * (i - 1)..4 * (i - 1) + 4] == b[4 * i..4 * i + 4];
    }
  }
}
