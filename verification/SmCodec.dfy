/** The SM container: magic, header length, header, compressed token stream.

    Compression, the checksum and the JSON text of the header are parameters. The header has no
    `codec` field. */
module SmCodec {
  import SmDictionary
  import SmTokens
  import Utf8
  import opened Bytes
  import opened Options

  const MAGIC_V1: seq<Byte> := [83, 77, 49, 0]
  const MAGIC_V2: seq<Byte> := [83, 77, 50, 0]
  const MAGIC_SIZE: nat := 4
  const PREFIX_SIZE: nat := 8

  datatype Header = Header(
    version: int,
    dictionary: seq<string>,
    originalSize: Option<int>,
    tokenStreamSize: Option<int>,
    payloadSize: Option<int>,
    textCrc32: Option<int>,
    tokenCrc32: Option<int>)

  datatype Library = Library(
    compress: seq<Byte> -> seq<Byte>,
    decompress: seq<Byte> -> Option<seq<Byte>>,
    crc32: seq<Byte> -> int,
    dumps: Header -> seq<Byte>,
    loads: seq<Byte> -> Option<Header>)

  /** What is compressed and what is dumped is read back, and no header is dumped to nothing. */
  ghost predicate Lawful(lib: Library) {
    && (forall b {:trigger lib.compress(b)} :: lib.decompress(lib.compress(b)) == Some(b))
    && (forall h {:trigger lib.dumps(h)} :: lib.loads(lib.dumps(h)) == Some(h) && lib.dumps(h) != [])
  }

  // ----- encoding -----

  function HeaderOf(lib: Library, text: string, d: seq<string>, stream: seq<Byte>): Header {
    var raw := Utf8.Encode(text);
    Header(2, d, Some(|raw|), Some(|stream|), Some(|lib.compress(stream)|), Some(lib.crc32(raw)),
           Some(lib.crc32(stream)))
  }

  function Container(blob: seq<Byte>, payload: seq<Byte>): (data: seq<Byte>)
    requires FitsU32(|blob|)
  {
    MAGIC_V2 + U32(|blob|) + blob + payload
  }

  /** None when an id does not fit a byte or the header does not fit its length. */
  function Encoded(lib: Library, text: string, d: seq<string>): Option<seq<Byte>> {
    match SmTokens.Tokenized(text, d)
    case None => None
    case Some(stream) =>
      var blob := lib.dumps(HeaderOf(lib, text, d, stream));
      if FitsU32(|blob|) then Some(Container(blob, lib.compress(stream))) else None
  }

  method EncodeText(lib: Library, text: string) returns (data: Option<seq<Byte>>, d: seq<string>)
    ensures SmDictionary.IsBest(SmDictionary.Tokens(text, 0), d, SmDictionary.MAX_ENTRIES)
    ensures data == Encoded(lib, text, d)
  {
    d := SmDictionary.BuildDictionary(text);
    var stream := SmTokens.Tokenize(text, d);
    if stream.None? {
      return None, d;
    }
    var payload := lib.compress(stream.value);
    var raw := Utf8.Encode(text);
    var header := Header(2, d, Some(|raw|), Some(|stream.value|), Some(|payload|),
                         Some(lib.crc32(raw)), Some(lib.crc32(stream.value)));
    var blob := lib.dumps(header);
    if !FitsU32(|blob|) {
      return None, d;
    }
    data := Some(MAGIC_V2 + U32(|blob|) + blob + payload);
  }

  // ----- decoding -----

  predicate Agrees(declared: Option<int>, actual: int) {
    declared.None? || declared.value == actual
  }

  /** The header and the payload of a container. */
  function Opened(lib: Library, data: seq<Byte>): Option<(Header, seq<Byte>)> {
    if |data| < PREFIX_SIZE || (data[..MAGIC_SIZE] != MAGIC_V1 && data[..MAGIC_SIZE] != MAGIC_V2) then None
    else
      var end := PREFIX_SIZE + FromU32(data[MAGIC_SIZE..PREFIX_SIZE]);
      if end == PREFIX_SIZE || end > |data| then None
      else
        match lib.loads(data[PREFIX_SIZE..end])
        case None => None
        case Some(header) => if Agrees(header.payloadSize, |data| - end) then Some((header, data[end..])) else None
  }

  /** The text of a payload under its header. */
  function Unpacked(lib: Library, header: Header, payload: seq<Byte>): Option<string> {
    match lib.decompress(payload)
    case None => None
    case Some(stream) =>
      if !Agrees(header.tokenStreamSize, |stream|) || !Agrees(header.tokenCrc32, lib.crc32(stream)) then None
      else
        match SmTokens.Detokenized(stream, header.dictionary)
        case None => None
        case Some(text) =>
          var raw := Utf8.Encode(text);
          if Agrees(header.originalSize, |raw|) && Agrees(header.textCrc32, lib.crc32(raw)) then Some(text) else None
  }

  function Decoded(lib: Library, data: seq<Byte>): Option<string> {
    match Opened(lib, data)
    case None => None
    case Some((header, payload)) => Unpacked(lib, header, payload)
  }

  method ReadContainer(lib: Library, data: seq<Byte>) returns (r: Option<(Header, seq<Byte>)>)
    ensures r == Opened(lib, data)
  {
    var magic := if |data| < MAGIC_SIZE then data else data[..MAGIC_SIZE];
    if magic != MAGIC_V1 && magic != MAGIC_V2 {
      return None;
    }
    if |data| < |magic| + 4 {
      return None;
    }
    var headerLen := FromU32(data[|magic|..|magic| + 4]);
    var start := |magic| + 4;
    var end := start + headerLen;
    if headerLen <= 0 || end > |data| {
      return None;
    }
    var header := lib.loads(data[start..end]);
    if header.None? {
      return None;
    }
    var payload := data[end..];
    if header.value.payloadSize.Some? && header.value.payloadSize.value != |payload| {
      return None;
    }
    r := Some((header.value, payload));
  }

  method DecodeBytes(lib: Library, data: seq<Byte>) returns (text: Option<string>)
    ensures text == Decoded(lib, data)
  {
    var container := ReadContainer(lib, data);
    if container.None? {
      return None;
    }
    var (header, payload) := container.value;
    var stream := lib.decompress(payload);
    if stream.None? {
      return None;
    }
    if header.tokenStreamSize.Some? && header.tokenStreamSize.value != |stream.value| {
      return None;
    }
    if header.tokenCrc32.Some? && header.tokenCrc32.value != lib.crc32(stream.value) {
      return None;
    }
    text := SmTokens.Detokenize(stream.value, header.dictionary);
    if text.None? {
      return;
    }
    var raw := Utf8.Encode(text.value);
    if header.originalSize.Some? && header.originalSize.value != |raw| {
      return None;
    }
    if header.textCrc32.Some? && header.textCrc32.value != lib.crc32(raw) {
      return None;
    }
  }

  // ----- there and back -----

  /** A container is opened to the header and payload it was made of. */
  lemma ContainerOpens(lib: Library, header: Header, payload: seq<Byte>)
    requires Lawful(lib) && FitsU32(|lib.dumps(header)|)
    ensures Opened(lib, Container(lib.dumps(header), payload)) ==
            if Agrees(header.payloadSize, |payload|) then Some((header, payload)) else None
  {
    var blob := lib.dumps(header);
    var data, end := Container(blob, payload), PREFIX_SIZE + |blob|;
    U32RoundTrip(|blob|);
    assert data[..MAGIC_SIZE] == MAGIC_V2 && data[MAGIC_SIZE..PREFIX_SIZE] == U32(|blob|);
    assert data[PREFIX_SIZE..end] == blob && data[end..] == payload;
  }

  /** Decoding gives back every text that was encoded, under any dictionary. */
  lemma EncodeThenDecode(lib: Library, text: string, d: seq<string>)
    requires Lawful(lib) && Encoded(lib, text, d).Some?
    ensures Decoded(lib, Encoded(lib, text, d).value) == Some(text)
  {
    var stream := SmTokens.Tokenized(text, d).value;
    ContainerOpens(lib, HeaderOf(lib, text, d, stream), lib.compress(stream));
    SmTokens.RoundTrip(text, d);
  }

  /** Under the dictionary the encoder builds, only the header's length can be in the way. */
  lemma EveryTextIsEncoded(lib: Library, text: string, d: seq<string>)
    requires SmDictionary.IsBest(SmDictionary.Tokens(text, 0), d, SmDictionary.MAX_ENTRIES)
    ensures var stream := SmTokens.Tokenized(text, d);
            stream.Some? && (Encoded(lib, text, d).Some? <==>
                             FitsU32(|lib.dumps(HeaderOf(lib, text, d, stream.value))|))
  {
    SmTokens.SmallDictionarySuffices(text, d);
  }

  /** Different bytes of one length with one checksum. */
  predicate Collides(lib: Library, a: seq<Byte>, b: seq<Byte>) {
    a != b && |a| == |b| && lib.crc32(a) == lib.crc32(b)
  }

  /** Whatever payload is put behind the header of an encoded text, it is refused or decodes to that
      text, unless both of the header's checksums collide: that of the token stream, and that of the
      text's bytes. */
  lemma HeaderPinsTheText(lib: Library, text: string, d: seq<string>, payload: seq<Byte>)
    requires Lawful(lib) && Encoded(lib, text, d).Some?
    ensures var stream := SmTokens.Tokenized(text, d).value;
            var r := Decoded(lib, Container(lib.dumps(HeaderOf(lib, text, d, stream)), payload));
            r == None || r.value == text ||
            (lib.decompress(payload).Some? && Collides(lib, lib.decompress(payload).value, stream) &&
             Collides(lib, Utf8.Encode(r.value), Utf8.Encode(text)))
  {
    var stream := SmTokens.Tokenized(text, d).value;
    var header := HeaderOf(lib, text, d, stream);
    ContainerOpens(lib, header, payload);
    var r := Decoded(lib, Container(lib.dumps(header), payload));
    if r.Some? && r.value != text {
      SmTokens.RoundTrip(text, d);
      Utf8.RoundTrip(text);
      Utf8.RoundTrip(r.value);
    }
  }

  // ----- the format in other words -----

  /** A container is SM2 with a zero byte, the length of the header in four bytes, the header and the
      payload. */
  lemma ContainerBytes(blob: seq<Byte>, payload: seq<Byte>)
    requires FitsU32(|blob|)
    ensures var data, end := Container(blob, payload), 8 + |blob|;
            && |data| == end + |payload| && data[..4] == [83, 77, 50, 0] && FromU32(data[4..8]) == |blob|
            && data[8..end] == blob && data[end..] == payload
  {
    var data := Container(blob, payload);
    U32RoundTrip(|blob|);
    assert data[4..8] == U32(|blob|);
  }

  /** The header records the sizes and checksums of the text's bytes, of its token stream, and the size
      of the payload. */
  lemma HeaderByField(lib: Library, text: string, d: seq<string>, stream: seq<Byte>)
    ensures var h := HeaderOf(lib, text, d, stream);
            && h.version == 2 && h.dictionary == d
            && h.originalSize == Some(|Utf8.Encode(text)|) && h.textCrc32 == Some(lib.crc32(Utf8.Encode(text)))
            && h.tokenStreamSize == Some(|stream|) && h.tokenCrc32 == Some(lib.crc32(stream))
            && h.payloadSize == Some(|lib.compress(stream)|)
  {
  }

  /** What opens: one of the two magics, a header that is not empty and lies inside the file, can be
      loaded, and has the size of the payload right if it has it at all. */
  lemma OpensExactly(lib: Library, data: seq<Byte>)
    ensures Opened(lib, data).Some? <==>
            && |data| >= 8 && (data[..4] == [83, 77, 49, 0] || data[..4] == [83, 77, 50, 0])
            && var end := 8 + FromU32(data[4..8]);
               && 8 < end <= |data| && lib.loads(data[8..end]).Some?
               && var size := lib.loads(data[8..end]).value.payloadSize;
                  size.None? || size.value == |data| - end
    ensures Opened(lib, data).Some? ==>
              var end := 8 + FromU32(data[4..8]);
              Opened(lib, data).value == (lib.loads(data[8..end]).value, data[end..])
  {
  }

  /** What unpacks under a header: a payload whose stream and whose text have the sizes and checksums the
      header has. */
  lemma UnpacksExactly(lib: Library, h: Header, payload: seq<Byte>, text: string)
    ensures Unpacked(lib, h, payload) == Some(text) <==>
            && lib.decompress(payload).Some?
            && var stream := lib.decompress(payload).value;
               && (h.tokenStreamSize.Some? ==> h.tokenStreamSize.value == |stream|)
               && (h.tokenCrc32.Some? ==> h.tokenCrc32.value == lib.crc32(stream))
               && SmTokens.Detokenized(stream, h.dictionary) == Some(text)
               && (h.originalSize.Some? ==> h.originalSize.value == |Utf8.Encode(text)|)
               && (h.textCrc32.Some? ==> h.textCrc32.value == lib.crc32(Utf8.Encode(text)))
  {
  }
}
