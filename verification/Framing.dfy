/**
 Self-delimiting frames: a four-octet big-endian length, then the encoded envelope, with
 size limits on both sides and optional payload compression.
 */
module Framing {
  import opened Bytes

  const PROTOCOL_VERSION: nat := 1
  const DEFAULT_MAX_FRAME_SIZE: int := 64 * 1024 * 1024
  const MAX_UINT32: int := 0xffff_ffff

  datatype Frame = Frame(
    version: nat, kind: Byte, requestID: nat, function_: string, streamKind: Byte, compression: string,
    deadline: int, payload: Payload, windowItems: nat, windowBytes: nat)

  datatype Error = FrameTooLarge | Protocol | BadEncoding | BadCompression | EOF | UnexpectedEOF

  datatype Result<+T> = Ok(value: T) | Err(error: Error)

  /** A codec, reduced to its two directions. */
  datatype Codec = Codec(marshal: Frame -> Option<seq<Byte>>, unmarshal: seq<Byte> -> Option<Frame>)

  /** A compressor; `limited` is DecompressLimit where it is implemented. */
  datatype Compressor = Compressor(
    name: string, compress: Payload -> Option<Payload>, decompress: Payload -> Option<Payload>,
    limited: Option<(Payload, int) -> Option<Payload>>)

  ghost predicate CodecInverts(c: Codec)
  {
    forall f :: c.marshal(f).Some? ==> c.unmarshal(c.marshal(f).value) == Some(f)
  }

  /** The decompressor a reader uses. */
  function Inflate(c: Compressor, payload: Payload, max: int): (r: Option<Payload>)
  {
    if c.limited.Some? then c.limited.value(payload, max) else c.decompress(payload)
  }

  /** A reader's compressor gives back what a sender's compressed, for payloads and limits that
      a frame can have. */
  ghost predicate Inverts(sender: Compressor, reader: Compressor)
  {
    forall p: Payload, max: int | |p| <= max <= MAX_UINT32 && sender.compress(p).Some? ::
      Inflate(reader, sender.compress(p).value, max) == Some(p)
  }

  ghost predicate CompressorInverts(c: Compressor)
  {
    c.name != "" && Inverts(c, c)
  }

  function NormalizeMaxFrameSize(size: int): (max: int)
    ensures 0 < max <= MAX_UINT32
    ensures 0 < size <= MAX_UINT32 ==> max == size
    ensures size > 4_294_967_295 ==> max == 4_294_967_295
    ensures size <= 0 ==> max == 67_108_864
  {
    if size <= 0 then DEFAULT_MAX_FRAME_SIZE else if size > MAX_UINT32 then MAX_UINT32 else size
  }

  // ------------------------------------------------------- writing and reading

  /** The envelope as it goes on the wire. */
  function Packed(frame: Frame, compressor: Option<Compressor>): (r: Result<Frame>)
  {
    var f := frame.(version := PROTOCOL_VERSION);
    if compressor.Some? && |f.payload| > 0 then
      match compressor.value.compress(f.payload)
      case None => Err(BadCompression)
      case Some(p) => Ok(f.(payload := p, compression := compressor.value.name))
    else Ok(f)
  }

  /** writeFrameWithCompression: the octets handed to the transport. */
  function WriteFrame(maxFrameSize: int, codec: Codec, compressor: Option<Compressor>,
                      frame: Frame): (r: Result<seq<Byte>>)
  {
    var max := NormalizeMaxFrameSize(maxFrameSize);
    if |frame.payload| > max then Err(FrameTooLarge)
    else match Packed(frame, compressor)
      case Err(e) => Err(e)
      case Ok(f) =>
        match codec.marshal(f)
        case None => Err(BadEncoding)
        case Some(data) =>
          if |data| > max || |data| > MAX_UINT32 then Err(FrameTooLarge) else Ok(PutUint(|data|, 4) + data)
  }

  /** io.ReadFull. */
  function ReadFull(data: seq<Byte>, n: nat): (r: Result<(seq<Byte>, seq<Byte>)>)
    ensures r.Ok? <==> n <= |data|
    ensures r.Ok? ==> |r.value.0| == n && r.value.0 + r.value.1 == data
    ensures r.Err? ==> r.error == EOF || r.error == UnexpectedEOF
  {
    if n <= |data| then Ok((data[..n], data[n..])) else if data == [] then Err(EOF) else Err(UnexpectedEOF)
  }

  predicate Supports(name: string, compressor: Option<Compressor>)
  {
    name == "" || (compressor.Some? && compressor.value.name == name)
  }

  function Unpacked(f: Frame, max: int, compressor: Option<Compressor>): (r: Result<Frame>)
  {
    if f.version != PROTOCOL_VERSION then Err(Protocol)
    else if f.compression == "" then Ok(f)
    else if !Supports(f.compression, compressor) then Err(Protocol)
    else
      match Inflate(compressor.value, f.payload, max)
      case None => Err(BadCompression)
      case Some(p) => if |p| > max then Err(FrameTooLarge) else Ok(f.(payload := p, compression := ""))
  }

  /** readFrameWithCompression: the frame and what is left of the stream. */
  function ReadFrame(maxFrameSize: int, codec: Codec, compressor: Option<Compressor>,
                     data: seq<Byte>): (r: Result<(Frame, seq<Byte>)>)
  {
    var max := NormalizeMaxFrameSize(maxFrameSize);
    match ReadFull(data, 4)
    case Err(e) => Err(e)
    case Ok((prefix, rest)) =>
      var size := Uint(prefix);
      if size > max then Err(FrameTooLarge)
      else match ReadFull(rest, size)
        case Err(e) => Err(e)
        case Ok((body, tail)) =>
          match codec.unmarshal(body)
          case None => Err(BadEncoding)
          case Some(f) =>
            match Unpacked(f, max, compressor)
            case Err(e) => Err(e)
            case Ok(frame) => Ok((frame, tail))
  }

  // ------------------------------------------------------- gzip

  /** The bounded read of DecompressLimit. */
  function InflateLimit(inflate: Payload -> Option<Payload>, payload: Payload, max: int): (r: Option<Payload>)
  {
    match inflate(payload)
    case None => None
    case Some(p) => if |p| > NormalizeMaxFrameSize(max) then None else Some(p)
  }

  /** The built-in compressor, over the algorithm's two directions. */
  function Gzip(deflate: Payload -> Payload, inflate: Payload -> Option<Payload>): (c: Compressor)
  {
    Compressor("gzip", p => Some(deflate(p)), q => InflateLimit(inflate, q, DEFAULT_MAX_FRAME_SIZE),
               Some((q, max) => InflateLimit(inflate, q, max)))
  }

  /** Despite its size caps the built-in compressor inverts itself wherever a reader uses it. */
  lemma GzipInverts(deflate: Payload -> Payload, inflate: Payload -> Option<Payload>)
    requires forall p :: inflate(deflate(p)) == Some(p)
    ensures CompressorInverts(Gzip(deflate, inflate))
  {
    var c := Gzip(deflate, inflate);
    forall p: Payload, max: int | |p| <= max <= MAX_UINT32 && c.compress(p).Some?
      ensures Inflate(c, c.compress(p).value, max) == Some(p)
    {
      assert inflate(deflate(p)) == Some(p);
      assert |p| <= NormalizeMaxFrameSize(max);
    }
  }

  // ------------------------------------------------------- round trip

  /** What the other end sees of a frame. */
  function Received(frame: Frame): (f: Frame)
  {
    frame.(version := PROTOCOL_VERSION, compression := "")
  }

  /** The label on the wire is the writer's own: none, or that of the compressor it applied. */
  predicate Labels(compressor: Option<Compressor>, frame: Frame)
  {
    frame.compression == "" || (compressor.Some? && |frame.payload| > 0)
  }

  /** Whether a reader can undo what a writer did to the payload. */
  predicate Understands(sender: Option<Compressor>, reader: Option<Compressor>, frame: Frame)
  {
    sender.None? || frame.payload == [] || (reader.Some? && reader.value.name == sender.value.name)
  }

  /** A written frame, read with any limit at least the writer's and any compressor or none: it
      comes back unchanged, its octets and no more consumed, exactly when the payload went
      uncompressed or the reader has the writer's compressor; otherwise the reader refuses it. */
  lemma ReadBackIsExact(writerMax: int, readerMax: int, codec: Codec, sender: Option<Compressor>,
                        reader: Option<Compressor>, frame: Frame, tail: seq<Byte>)
    requires CodecInverts(codec) && NormalizeMaxFrameSize(writerMax) <= NormalizeMaxFrameSize(readerMax)
    requires sender.Some? ==> sender.value.name != ""
    requires sender.Some? && reader.Some? && sender.value.name == reader.value.name ==>
      Inverts(sender.value, reader.value)
    requires Labels(sender, frame) && WriteFrame(writerMax, codec, sender, frame).Ok?
    ensures ReadFrame(readerMax, codec, reader, WriteFrame(writerMax, codec, sender, frame).value + tail)
            == if Understands(sender, reader, frame) then Ok((Received(frame), tail)) else Err(Protocol)
  {
    var f := Packed(frame, sender).value;
    var data := codec.marshal(f).value;
    var octets := WriteFrame(writerMax, codec, sender, frame).value + tail;
    var max := NormalizeMaxFrameSize(readerMax);
    Widths();
    UintOfPut(|data|, 4);
    assert octets[..4] == PutUint(|data|, 4) && octets[4..] == data + tail;
    assert (data + tail)[..|data|] == data && (data + tail)[|data|..] == tail;
    if sender.Some? && |frame.payload| > 0 && Understands(sender, reader, frame) {
      assert Inflate(reader.value, sender.value.compress(frame.payload).value, max) == Some(frame.payload);
    }
    assert ReadFrame(readerMax, codec, reader, octets)
        == match Unpacked(f, max, reader) case Err(e) => Err(e) case Ok(g) => Ok((g, tail));
  }

  /** Between ends that share a compressor every written frame is read back. */
  lemma RoundTrip(writerMax: int, readerMax: int, codec: Codec, compressor: Option<Compressor>, frame: Frame,
                  tail: seq<Byte>)
    requires CodecInverts(codec) && (compressor.Some? ==> CompressorInverts(compressor.value))
    requires NormalizeMaxFrameSize(writerMax) <= NormalizeMaxFrameSize(readerMax)
    requires Labels(compressor, frame) && WriteFrame(writerMax, codec, compressor, frame).Ok?
    ensures ReadFrame(readerMax, codec, compressor, WriteFrame(writerMax, codec, compressor, frame).value + tail)
            == Ok((Received(frame), tail))
  {
    hide WriteFrame, ReadFrame, CodecInverts, Inverts;
    ReadBackIsExact(writerMax, readerMax, codec, compressor, compressor, frame, tail);
  }

  /** What the writer puts on the wire: version 1, and the payload compressed if there is a
      compressor and something to compress. */
  predicate OnWire(compressor: Option<Compressor>, frame: Frame, wire: Frame)
  {
    if compressor.Some? && frame.payload != [] then
      && compressor.value.compress(frame.payload).Some?
      && wire == frame.(version := 1, payload := compressor.value.compress(frame.payload).value,
                        compression := compressor.value.name)
    else wire == frame.(version := 1)
  }

  /** The frames that a writer must accept: the payload is within the limit, and so is the encoding
      of what goes on the wire. */
  ghost predicate Writable(maxFrameSize: int, codec: Codec, compressor: Option<Compressor>, frame: Frame)
  {
    var max := NormalizeMaxFrameSize(maxFrameSize);
    && |frame.payload| <= max
    && exists wire :: OnWire(compressor, frame, wire) && codec.marshal(wire).Some? && |codec.marshal(wire).value| <= max
  }

  /** A frame is written exactly when it is writable, as the length of its encoding in four octets
      and then the encoding. */
  lemma WriteIsExact(maxFrameSize: int, codec: Codec, compressor: Option<Compressor>, frame: Frame, wire: Frame)
    ensures WriteFrame(maxFrameSize, codec, compressor, frame).Ok? <==> Writable(maxFrameSize, codec, compressor, frame)
    ensures WriteFrame(maxFrameSize, codec, compressor, frame).Ok? && OnWire(compressor, frame, wire) ==>
      && codec.marshal(wire).Some?
      && var body, octets := codec.marshal(wire).value, WriteFrame(maxFrameSize, codec, compressor, frame).value;
         |octets| == 4 + |body| && octets[4..] == body && Uint(octets[..4]) == |body|
    ensures |frame.payload| > NormalizeMaxFrameSize(maxFrameSize) ==>
      WriteFrame(maxFrameSize, codec, compressor, frame) == Err(FrameTooLarge)
    ensures |frame.payload| <= NormalizeMaxFrameSize(maxFrameSize) && OnWire(compressor, frame, wire) ==>
      && (codec.marshal(wire).None? ==> WriteFrame(maxFrameSize, codec, compressor, frame) == Err(BadEncoding))
      && (codec.marshal(wire).Some? && |codec.marshal(wire).value| > NormalizeMaxFrameSize(maxFrameSize) ==>
            WriteFrame(maxFrameSize, codec, compressor, frame) == Err(FrameTooLarge))
  {
    var max := NormalizeMaxFrameSize(maxFrameSize);
    if WriteFrame(maxFrameSize, codec, compressor, frame).Ok? {
      var f := Packed(frame, compressor).value;
      assert OnWire(compressor, frame, f);
      var body := codec.marshal(f).value;
      Widths();
      UintOfPut(|body|, 4);
      var octets := PutUint(|body|, 4) + body;
      assert octets[4..] == body && octets[..4] == PutUint(|body|, 4);
    }
    if Writable(maxFrameSize, codec, compressor, frame) {
      var w :| OnWire(compressor, frame, w) && codec.marshal(w).Some? && |codec.marshal(w).value| <= max;
      assert Packed(frame, compressor) == Ok(w);
    }
  }

  /** Whatever the octets, a reading is settled by the length against the limit, then the codec, the
      version, the label, the decompressor and the limit again, in this order. */
  lemma ReadIsExact(readerMax: int, codec: Codec, reader: Option<Compressor>,
                    prefix: seq<Byte>, body: seq<Byte>, tail: seq<Byte>)
    requires |prefix| == 4 && Uint(prefix) == |body|
    ensures var max, r := NormalizeMaxFrameSize(readerMax), ReadFrame(readerMax, codec, reader, prefix + body + tail);
      && (|body| > max ==> r == Err(FrameTooLarge))
      && (|body| <= max && codec.unmarshal(body).None? ==> r == Err(BadEncoding))
      && (|body| <= max && codec.unmarshal(body).Some? ==>
            var f := codec.unmarshal(body).value;
            && (f.version != 1 ==> r == Err(Protocol))
            && (f.version == 1 && f.compression == "" ==> r == Ok((f, tail)))
            && (f.version == 1 && f.compression != "" && (reader.None? || reader.value.name != f.compression) ==>
                  r == Err(Protocol))
            && (f.version == 1 && f.compression != "" && reader.Some? && reader.value.name == f.compression ==>
                  r == match Inflate(reader.value, f.payload, max)
                       case None => Err(BadCompression)
                       case Some(p) => if |p| <= max then Ok((f.(payload := p, compression := ""), tail))
                                       else Err(FrameTooLarge)))
  {
    var data := prefix + body + tail;
    assert data[..4] == prefix && data[4..] == body + tail;
    assert (body + tail)[..|body|] == body && (body + tail)[|body|..] == tail;
  }

  /** Cutting a written frame anywhere gives a short read, never a frame: plain end of file between
      the prefix and the body or before both, an unexpected one elsewhere. */
  lemma CutFrameIsShort(writerMax: int, readerMax: int, codec: Codec, sender: Option<Compressor>,
                        reader: Option<Compressor>, frame: Frame, cut: nat)
    requires NormalizeMaxFrameSize(writerMax) <= NormalizeMaxFrameSize(readerMax)
    requires WriteFrame(writerMax, codec, sender, frame).Ok?
    requires cut < |WriteFrame(writerMax, codec, sender, frame).value|
    ensures ReadFrame(readerMax, codec, reader, WriteFrame(writerMax, codec, sender, frame).value[..cut])
            == Err(if cut == 0 || cut == 4 then EOF else UnexpectedEOF)
  {
    var octets := WriteFrame(writerMax, codec, sender, frame).value;
    if cut >= 4 {
      var size := |octets| - 4;
      Widths();
      UintOfPut(size, 4);
      assert octets[..cut][..4] == PutUint(size, 4);
    }
  }

  /** Everything written on one connection, one frame after another. */
  function Stream(max: int, codec: Codec, compressor: Option<Compressor>, frames: seq<Frame>): (r: Option<seq<Byte>>)
  {
    if frames == [] then Some([])
    else match WriteFrame(max, codec, compressor, frames[0])
      case Err(_) => None
      case Ok(octets) =>
        match Stream(max, codec, compressor, frames[1..])
        case None => None
        case Some(rest) => Some(octets + rest)
  }

  /** Reading n frames in a row. */
  function ReadMany(max: int, codec: Codec, compressor: Option<Compressor>, n: nat,
                    data: seq<Byte>): (r: Result<(seq<Frame>, seq<Byte>)>)
  {
    if n == 0 then Ok(([], data))
    else match ReadFrame(max, codec, compressor, data)
      case Err(e) => Err(e)
      case Ok((f, rest)) =>
        match ReadMany(max, codec, compressor, n - 1, rest)
        case Err(e) => Err(e)
        case Ok((fs, tail)) => Ok(([f] + fs, tail))
  }

  function AllReceived(frames: seq<Frame>): (r: seq<Frame>)
    ensures |r| == |frames|
  {
    seq(|frames|, i requires 0 <= i < |frames| => Received(frames[i]))
  }

  /** Any concatenation of written frames is read back as the same frames, in order, leaving
      exactly what followed them. */
  lemma {:induction false} StreamRoundTrip(writerMax: int, readerMax: int, codec: Codec, compressor: Option<Compressor>,
                                           frames: seq<Frame>, tail: seq<Byte>)
    requires CodecInverts(codec) && (compressor.Some? ==> CompressorInverts(compressor.value))
    requires NormalizeMaxFrameSize(writerMax) <= NormalizeMaxFrameSize(readerMax)
    requires (forall f | f in frames :: Labels(compressor, f)) && Stream(writerMax, codec, compressor, frames).Some?
    ensures ReadMany(readerMax, codec, compressor, |frames|, Stream(writerMax, codec, compressor, frames).value + tail)
            == Ok((AllReceived(frames), tail))
  {
    hide WriteFrame, ReadFrame, CodecInverts, CompressorInverts;
    if frames == [] {
      assert [] + tail == tail;
    } else {
      var octets := WriteFrame(writerMax, codec, compressor, frames[0]).value;
      var rest := Stream(writerMax, codec, compressor, frames[1..]).value;
      assert octets + rest + tail == octets + (rest + tail);
      RoundTrip(writerMax, readerMax, codec, compressor, frames[0], rest + tail);
      StreamRoundTrip(writerMax, readerMax, codec, compressor, frames[1..], tail);
      assert AllReceived(frames) == [Received(frames[0])] + AllReceived(frames[1..]);
    }
  }

  lemma {:induction false} StreamAppend(max: int, codec: Codec, compressor: Option<Compressor>, frames: seq<Frame>,
                                        frame: Frame)
    requires Stream(max, codec, compressor, frames).Some? && WriteFrame(max, codec, compressor, frame).Ok?
    ensures Stream(max, codec, compressor, frames + [frame])
            == Some(Stream(max, codec, compressor, frames).value + WriteFrame(max, codec, compressor, frame).value)
  {
    hide WriteFrame;
    var octets := WriteFrame(max, codec, compressor, frame).value;
    if frames == [] {
      assert frames + [frame] == [frame] && [frame][1..] == [];
      assert octets + [] == [] + octets;
    } else {
      StreamAppend(max, codec, compressor, frames[1..], frame);
      assert (frames + [frame])[1..] == frames[1..] + [frame];
      var first := WriteFrame(max, codec, compressor, frames[0]).value;
      var rest := Stream(max, codec, compressor, frames[1..]).value;
      assert first + (rest + octets) == first + rest + octets;
    }
  }

  // ------------------------------------------------------- the byte stream

  /** One direction of a connection: octets that a writer appends and a reader consumes. Its
      meaning is the queue of frames written and not yet read. */
  class Pipe {
    const maxFrameSize: int
    const codec: Codec
    const compressor: Option<Compressor>
    var data: seq<Byte>
    ghost var frames: seq<Frame>

    ghost predicate Valid()
      reads this
    {
      && (forall f | f in frames :: Labels(compressor, f))
      && Stream(maxFrameSize, codec, compressor, frames) == Some(data)
    }

    constructor (maxFrameSize: int, codec: Codec, compressor: Option<Compressor>)
      ensures Valid() && frames == []
      ensures this.maxFrameSize == maxFrameSize && this.codec == codec && this.compressor == compressor
    {
      this.maxFrameSize, this.codec, this.compressor := maxFrameSize, codec, compressor;
      data, frames := [], [];
    }

    /** writeFrameWithCompression: an accepted frame joins the queue, a refused one leaves no
        octet behind. It is refused for its size before or after encoding, or by the codec or
        the compressor. */
    method Write(frame: Frame) returns (r: Result<()>)
      requires Valid() && Labels(compressor, frame)
      modifies this
      ensures Valid()
      ensures r.Ok? ==> frames == old(frames) + [frame]
      ensures r.Err? ==> frames == old(frames) && data == old(data)
      ensures |frame.payload| > NormalizeMaxFrameSize(maxFrameSize) ==> r == Err(FrameTooLarge)
      ensures r.Err? ==> r.error in {FrameTooLarge, BadEncoding, BadCompression}
      ensures r.Ok? <==> Writable(maxFrameSize, codec, compressor, frame)
    {
      WriteIsExact(maxFrameSize, codec, compressor, frame, frame);
      hide Writable, OnWire, Stream, PutUint, Uint;
      var f, max := frame.(version := PROTOCOL_VERSION), NormalizeMaxFrameSize(maxFrameSize);
      if |f.payload| > max { return Err(FrameTooLarge); }
      if compressor.Some? && |f.payload| > 0 {
        var payload := compressor.value.compress(f.payload);
        if payload.None? { return Err(BadCompression); }
        f := f.(payload := payload.value, compression := compressor.value.name);
      }
      var body := codec.marshal(f);
      if body.None? { return Err(BadEncoding); }
      if |body.value| > max || |body.value| > MAX_UINT32 { return Err(FrameTooLarge); }
      ghost var octets := PutUint(|body.value|, 4) + body.value;
      assert WriteFrame(maxFrameSize, codec, compressor, frame) == Ok(octets);
      StreamAppend(maxFrameSize, codec, compressor, frames, frame);
      hide WriteFrame;
      data := data + PutUint(|body.value|, 4);
      data := data + body.value;
      assert data == old(data) + octets;
      frames := frames + [frame];
      return Ok(());
    }

    /** readFrameWithCompression on whatever octets there are; a failed read keeps what it has
        consumed. */
    method ReadNext(readerMax: int) returns (r: Result<Frame>)
      modifies this`data
      ensures match ReadFrame(readerMax, codec, compressor, old(data))
              case Ok((frame, rest)) => r == Ok(frame) && data == rest
              case Err(e) => r == Err(e)
      ensures |old(data)| >= 4 && Uint(old(data)[..4]) > NormalizeMaxFrameSize(readerMax) ==>
        r == Err(FrameTooLarge) && data == old(data)[4..]
      ensures r.Ok? ==>
        && |old(data)| - |data| <= 4 + NormalizeMaxFrameSize(readerMax)
        && r.value.version == PROTOCOL_VERSION && r.value.compression == ""
        && |data| + 4 <= |old(data)|
        && (|| codec.unmarshal(old(data)[4..|old(data)| - |data|]) == Some(r.value)
            || |r.value.payload| <= NormalizeMaxFrameSize(readerMax))
      ensures |data| <= |old(data)| && data == old(data)[|old(data)| - |data|..]
      ensures r == Err(EOF) || r == Err(UnexpectedEOF) ==> data == []
    {
      var max := NormalizeMaxFrameSize(readerMax);
      var prefix := ReadFull(data, 4);
      if prefix.Err? { data := []; return Err(prefix.error); }
      var size := Uint(prefix.value.0);
      data := data[4..];
      if size > max { return Err(FrameTooLarge); }
      var body := ReadFull(data, size);
      if body.Err? { data := []; return Err(body.error); }
      data := data[size..];
      assert data == old(data)[4 + size..] && body.value.0 == old(data)[4..4 + size];
      var decoded := codec.unmarshal(body.value.0);
      if decoded.None? { return Err(BadEncoding); }
      var frame := decoded.value;
      if frame.version != PROTOCOL_VERSION { return Err(Protocol); }
      if frame.compression != "" {
        if !Supports(frame.compression, compressor) { return Err(Protocol); }
        var payload := Inflate(compressor.value, frame.payload, max);
        if payload.None? { return Err(BadCompression); }
        if |payload.value| > max { return Err(FrameTooLarge); }
        frame := frame.(payload := payload.value, compression := "");
      }
      return Ok(frame);
    }

    /** Reading what Write has written: the oldest frame leaves the queue and is handed out, and
        an empty queue is the end of the stream. */
    method Read(readerMax: int) returns (r: Result<Frame>)
      requires Valid() && NormalizeMaxFrameSize(maxFrameSize) <= NormalizeMaxFrameSize(readerMax)
      requires CodecInverts(codec) && (compressor.Some? ==> CompressorInverts(compressor.value))
      modifies this
      ensures Valid()
      ensures old(frames) == [] ==> r == Err(EOF) && frames == []
      ensures old(frames) != [] ==> r == Ok(Received(old(frames)[0])) && frames == old(frames)[1..]
    {
      if frames != [] {
        hide WriteFrame, ReadFrame, CodecInverts, CompressorInverts;
        var rest := Stream(maxFrameSize, codec, compressor, frames[1..]).value;
        RoundTrip(maxFrameSize, readerMax, codec, compressor, frames[0], rest);
      }
      r := ReadNext(readerMax);
      frames := if frames == [] then [] else frames[1..];
    }
  }
}
