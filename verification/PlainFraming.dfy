// Plaintext framing of internal/wire/plain.go: a zero byte, the payload length and the
// message type as base-128 varints, and the payload.
module PlainFraming {
  import opened Common
  import opened ByteStreams

  const DEFAULT_MAX_FRAME := 65536
  const MAX_VARINT_64 := 10
  const MAX_VARINT_32 := 5

  datatype Frame = Frame(messageType: nat, payload: seq<Byte>)

  datatype FrameError =
    | EndOfStream
    | MalformedFrame
    | FrameTooLarge
    | SendFailed

  // ---------- Varints ----------

  function Uvarint(v: nat): (r: seq<Byte>)
    ensures |r| > 0
  {
    if v < 128 then [v] else [128 + v % 128] + Uvarint(v / 128)
  }

  // Seven bits fit in a byte, so n bytes suffice below 128 to the n.
  function Pow128(n: nat): nat {
    if n == 0 then 1 else 128 * Pow128(n - 1)
  }

  lemma {:induction false} UvarintLength(v: nat, n: nat)
    requires n > 0 && v < Pow128(n)
    ensures |Uvarint(v)| <= n
  {
    if v < 128 {
    } else {
      UvarintLength(v / 128, n - 1);
    }
  }

  // The header buffer of WriteFrame has exactly the room it needs.
  lemma HeaderFits(length: nat, messageType: nat)
    requires length < 0x1_0000_0000_0000_0000 && messageType < 0x1_0000_0000
    ensures |Uvarint(length)| <= MAX_VARINT_64 && |Uvarint(messageType)| <= MAX_VARINT_32
  {
    assert Pow128(5) == 0x8_0000_0000;
    assert Pow128(10) == Pow128(5) * 0x8_0000_0000;
    UvarintLength(length, 10);
    UvarintLength(messageType, 5);
  }

  datatype ReadVarint = Varint(value: nat, rest: seq<Byte>) | Truncated | Overflow

  // ReadUvarint: at most ten bytes, the tenth at most one.
  function ReadUvarint(stream: seq<Byte>, index: nat, place: nat, value: nat): ReadVarint
    decreases MAX_VARINT_64 - index, |stream|
  {
    if index >= MAX_VARINT_64 then Overflow
    else if stream == [] then Truncated
    else if stream[0] < 128 then
      if index == MAX_VARINT_64 - 1 && stream[0] > 1 then Overflow
      else Varint(value + stream[0] as int * place, stream[1..])
    else ReadUvarint(stream[1..], index + 1, place * 128, value + (stream[0] as int - 128) * place)
  }

  lemma QuotientFits(v: nat, room: nat)
    requires v < 128 * room * 2
    ensures v / 128 < room * 2
  {
  }

  // Reading back a written varint, from any place in the number.
  lemma {:induction false} ReadBackVarint(v: nat, rest: seq<Byte>, index: nat, place: nat, value: nat)
    requires index < MAX_VARINT_64 && v < Pow128(MAX_VARINT_64 - 1 - index) * 2
    ensures ReadUvarint(Uvarint(v) + rest, index, place, value) == Varint(value + v * place, rest)
    decreases v
  {
    assert Pow128(0) == 1;
    if v < 128 {
      LastByteRead(v, rest, index, place, value);
    } else {
      assert index < MAX_VARINT_64 - 1;
      QuotientFits(v, Pow128(MAX_VARINT_64 - 2 - index));
      ReadBackVarint(v / 128, rest, index + 1, place * 128, value + (v % 128) * place);
      DigitSum(v, place);
      FirstByteRead(v, rest, index, place, value, (v / 128) * (place * 128), v * place);
    }
  }

  lemma LastByteRead(v: nat, rest: seq<Byte>, index: nat, place: nat, value: nat)
    requires index < MAX_VARINT_64 && v < 128 && (index == MAX_VARINT_64 - 1 ==> v <= 1)
    ensures ReadUvarint(Uvarint(v) + rest, index, place, value) == Varint(value + v * place, rest)
  {
    assert (Uvarint(v) + rest)[0] == v && (Uvarint(v) + rest)[1..] == rest;
  }

  // The first byte of a written varint is its lowest digit.
  lemma FirstByteRead(v: nat, rest: seq<Byte>, index: nat, place: nat, value: nat, high: nat, all: nat)
    requires index < MAX_VARINT_64 && v >= 128 && (v % 128) * place + high == all
    requires ReadUvarint(Uvarint(v / 128) + rest, index + 1, place * 128, value + (v % 128) * place)
          == Varint(value + (v % 128) * place + high, rest)
    ensures ReadUvarint(Uvarint(v) + rest, index, place, value) == Varint(value + all, rest)
  {
    var stream := Uvarint(v) + rest;
    assert stream[1..] == Uvarint(v / 128) + rest;
    ReadOneByte(stream, index, place, value, v % 128);
  }

  lemma ReadOneByte(stream: seq<Byte>, index: nat, place: nat, value: nat, low: nat)
    requires index < MAX_VARINT_64 && low < 128 && stream != [] && stream[0] == 128 + low
    ensures ReadUvarint(stream, index, place, value)
            == ReadUvarint(stream[1..], index + 1, place * 128, value + low * place)
  {
  }

  lemma DigitSum(v: nat, place: nat)
    ensures (v % 128) * place + (v / 128) * (place * 128) == v * place
  {
    var low, high := v % 128, v / 128;
    assert v == high * 128 + low;
    assert (high * 128 + low) * place == high * (place * 128) + low * place;
  }

  // ---------- Frames ----------

  function EncodeFrame(frame: Frame): (r: seq<Byte>) {
    [0] + Uvarint(|frame.payload|) + Uvarint(frame.messageType) + frame.payload
  }

  datatype Read = Got(frame: Frame, rest: seq<Byte>) | Failed(error: FrameError)

  function ParseFrame(stream: seq<Byte>, maxFrame: nat): Read {
    if stream == [] then Failed(EndOfStream)
    else if stream[0] != 0 then Failed(MalformedFrame)
    else
      var size := ReadUvarint(stream[1..], 0, 1, 0);
      if !size.Varint? then Failed(MalformedFrame)
      else if size.value > maxFrame then Failed(FrameTooLarge)
      else
        var kind := ReadUvarint(size.rest, 0, 1, 0);
        if !kind.Varint? || kind.value >= 0x1_0000_0000 then Failed(MalformedFrame)
        else if |kind.rest| < size.value then Failed(MalformedFrame)
        else Got(Frame(kind.value, kind.rest[..size.value]), kind.rest[size.value..])
  }

  // NewPlainFramer's limit.
  function ClampMaxFrame(maxFrame: int): (r: nat)
    ensures 0 < r <= DEFAULT_MAX_FRAME
    ensures r == maxFrame <==> 0 < maxFrame <= DEFAULT_MAX_FRAME
    ensures r != maxFrame ==> r == DEFAULT_MAX_FRAME
  {
    if maxFrame <= 0 || maxFrame > DEFAULT_MAX_FRAME then DEFAULT_MAX_FRAME else maxFrame
  }

  // binary.ReadUvarint: one byte at a time.
  method ReadVarintValue(reader: Source) returns (v: Option<nat>)
    modifies reader
    ensures match ReadUvarint(old(reader.stream), 0, 1, 0)
            case Varint(value, rest) => v == Some(value) && reader.stream == rest
            case _ => v == None
  {
    var value: nat, place: nat, i: nat := 0, 1, 0;
    while i < MAX_VARINT_64
      invariant 0 <= i <= MAX_VARINT_64
      invariant ReadUvarint(old(reader.stream), 0, 1, 0) == ReadUvarint(reader.stream, i, place, value)
    {
      ghost var before := reader.stream;
      var b := reader.ReadByte();
      if b.None? { return None; }
      if b.value < 128 {
        if i == MAX_VARINT_64 - 1 && b.value > 1 { return None; }
        return Some(value + b.value as int * place);
      }
      var sum: nat := value + (b.value as int - 128) * place;
      assert ReadUvarint(before, i, place, value) == ReadUvarint(reader.stream, i + 1, place * 128, sum);
      value, place, i := sum, place * 128, i + 1;
    }
    return None;
  }

  // PutUvarint into a buffer with room.
  method PutUvarint(buffer: array<Byte>, at: nat, v: nat) returns (written: nat)
    requires at + |Uvarint(v)| <= buffer.Length
    modifies buffer
    ensures written == |Uvarint(v)|
    ensures buffer[at..at + written] == Uvarint(v)
    ensures buffer[..at] == old(buffer[..at])
  {
    var rest, i := v, at;
    while rest >= 128
      invariant at <= i && i + |Uvarint(rest)| <= buffer.Length
      invariant buffer[at..i] + Uvarint(rest) == Uvarint(v)
      invariant buffer[..at] == old(buffer[..at])
      decreases rest
    {
      ghost var before := buffer[at..i];
      assert before + Uvarint(rest) == (before + [128 + rest % 128]) + Uvarint(rest / 128);
      buffer[i] := 128 + rest % 128;
      assert buffer[at..i + 1] == before + [128 + rest % 128];
      rest := rest / 128;
      i := i + 1;
    }
    ghost var before := buffer[at..i];
    buffer[i] := rest;
    assert buffer[at..i + 1] == before + [rest as Byte];
    written := i + 1 - at;
  }

  class PlainFramer {
    const sink: Sink
    const reader: Source
    const maxFrame: nat

    constructor (sink: Sink, reader: Source, maxFrame: int)
      ensures this.sink == sink && this.reader == reader && this.maxFrame == ClampMaxFrame(maxFrame)
    {
      this.sink := sink;
      this.reader := reader;
      this.maxFrame := ClampMaxFrame(maxFrame);
    }

    // A frame within the limit goes out whole, or with an error as a prefix of itself;
    // one beyond it is refused before anything is sent.
    method WriteFrame(messageType: nat, payload: seq<Byte>) returns (error: Option<FrameError>)
      requires messageType < 0x1_0000_0000 && |payload| < 0x1_0000_0000_0000_0000
      modifies sink
      ensures |payload| > maxFrame ==> error == Some(FrameTooLarge) && sink.out == old(sink.out)
      ensures |payload| <= maxFrame ==> error == None || error == Some(SendFailed)
      ensures sink.GoodUpTo(error == Some(SendFailed))
      ensures error.None? ==> sink.out == old(sink.out) + EncodeFrame(Frame(messageType, payload))
      ensures old(sink.out) <= sink.out <= old(sink.out) + EncodeFrame(Frame(messageType, payload))
    {
      if |payload| > maxFrame { return Some(FrameTooLarge); }
      HeaderFits(|payload|, messageType);
      var buffer := new Byte[1 + MAX_VARINT_64 + MAX_VARINT_32 + |payload|](_ => 0);
      buffer[0] := 0;
      var offset := 1;
      var sizeBytes := PutUvarint(buffer, offset, |payload|);
      offset := offset + sizeBytes;
      ghost var sized := buffer[..offset];
      assert sized == [0] + Uvarint(|payload|);
      var kindBytes := PutUvarint(buffer, offset, messageType);
      offset := offset + kindBytes;
      ghost var headed := buffer[..offset];
      assert headed == sized + Uvarint(messageType);
      forall k | 0 <= k < |payload| {
        buffer[offset + k] := payload[k];
      }
      var data := buffer[..offset + |payload|];
      assert data == headed + payload;
      var failed := WriteFull(sink, data);
      if failed.Some? { return Some(SendFailed); }
      return None;
    }

    // ReadFrame: the next frame of the stream, leaving the bytes behind it untouched.
    method ReadFrame() returns (frame: Option<Frame>, error: FrameError)
      modifies reader
      ensures match ParseFrame(old(reader.stream), maxFrame)
              case Got(f, rest) => frame == Some(f) && reader.stream == rest
              case Failed(e) => frame == None && error == e
    {
      error := MalformedFrame;
      var preamble := reader.ReadByte();
      if preamble.None? { return None, EndOfStream; }
      if preamble.value != 0 { return None, MalformedFrame; }
      var size := ReadVarintValue(reader);
      if size.None? { return None, MalformedFrame; }
      if size.value > maxFrame { return None, FrameTooLarge; }
      var kind := ReadVarintValue(reader);
      if kind.None? { return None, MalformedFrame; }
      if kind.value >= 0x1_0000_0000 { return None, MalformedFrame; }
      var payload := reader.ReadFull(size.value);
      if payload.None? { return None, MalformedFrame; }
      frame := Some(Frame(kind.value, payload.value));
    }
  }

  // ---------- Round trip ----------

  predicate Sendable(frame: Frame, maxFrame: nat) {
    |frame.payload| <= maxFrame <= DEFAULT_MAX_FRAME && frame.messageType < 0x1_0000_0000
  }

  // The reader takes a written frame exactly when it is within the reader's own limit,
  // and then leaves what follows alone.
  lemma FrameRoundTrip(frame: Frame, maxFrame: nat, rest: seq<Byte>)
    requires |frame.payload| < 0x1_0000_0000_0000_0000 && frame.messageType < 0x1_0000_0000
    ensures ParseFrame(EncodeFrame(frame) + rest, maxFrame) ==
            if |frame.payload| <= maxFrame then Got(frame, rest) else Failed(FrameTooLarge)
  {
    var afterKind := frame.payload + rest;
    var afterSize := Uvarint(frame.messageType) + afterKind;
    var stream := EncodeFrame(frame) + rest;
    assert stream[1..] == Uvarint(|frame.payload|) + afterSize;
    NinePlaces();
    ReadBackVarint(|frame.payload|, afterSize, 0, 1, 0);
    ReadBackVarint(frame.messageType, afterKind, 0, 1, 0);
  }

  lemma {:induction false} VarintIgnoresWhatFollows(stream: seq<Byte>, behind: seq<Byte>, index: nat, place: nat,
                                                    value: nat)
    ensures var r := ReadUvarint(stream, index, place, value);
            var s := ReadUvarint(stream + behind, index, place, value);
            match r
            case Varint(v, rest) => s == Varint(v, rest + behind)
            case Overflow => s == Overflow
            case Truncated => true
    decreases |stream|
  {
    if index >= MAX_VARINT_64 || stream == [] {
    } else {
      assert (stream + behind)[1..] == stream[1..] + behind;
      if stream[0] >= 128 {
        VarintIgnoresWhatFollows(stream[1..], behind, index + 1, place * 128, value + (stream[0] as int - 128) * place);
      }
    }
  }

  // Reading a frame never depends on the bytes behind it.
  lemma FrameIgnoresWhatFollows(stream: seq<Byte>, behind: seq<Byte>, maxFrame: nat)
    requires ParseFrame(stream, maxFrame).Got?
    ensures var read := ParseFrame(stream, maxFrame);
            ParseFrame(stream + behind, maxFrame) == Got(read.frame, read.rest + behind)
  {
    var size := ReadUvarint(stream[1..], 0, 1, 0);
    var kind := ReadUvarint(size.rest, 0, 1, 0);
    assert (stream + behind)[1..] == stream[1..] + behind;
    VarintIgnoresWhatFollows(stream[1..], behind, 0, 1, 0);
    VarintIgnoresWhatFollows(size.rest, behind, 0, 1, 0);
    assert (kind.rest + behind)[..size.value] == kind.rest[..size.value];
    assert (kind.rest + behind)[size.value..] == kind.rest[size.value..] + behind;
  }

  // A frame cut short is refused wherever the cut is, and never taken for another one; unless
  // nothing of it has come, it is malformed.
  lemma TruncatedFrameIsRefused(frame: Frame, maxFrame: nat, cut: nat)
    requires Sendable(frame, maxFrame) && cut < |EncodeFrame(frame)|
    ensures ParseFrame(EncodeFrame(frame)[..cut], maxFrame) == Failed(if cut == 0 then EndOfStream else MalformedFrame)
  {
    var whole := EncodeFrame(frame);
    assert whole[..cut] + whole[cut..] == whole == whole + [];
    FrameRoundTrip(frame, maxFrame, []);
    if ParseFrame(whole[..cut], maxFrame).Got? {
      FrameIgnoresWhatFollows(whole[..cut], whole[cut..], maxFrame);
      assert false;
    }
    if cut > 0 {
      assert whole[..cut][1..] + whole[cut..] == whole[1..];
      VarintIgnoresWhatFollows(whole[..cut][1..], whole[cut..], 0, 1, 0);
      RefusedFor(whole[..cut], maxFrame);
    }
  }

  // The encoding read back is not unique: a length or type padded with empty groups of
  // seven bits is accepted too, so only writing then reading is an identity.
  lemma PaddedLengthIsAccepted(rest: seq<Byte>)
    ensures ParseFrame([0, 128, 0, 0] + rest, 0) == Got(Frame(0, []), rest)
    ensures [0, 128, 0, 0] != EncodeFrame(Frame(0, []))
  {
    var stream: seq<Byte> := [0, 128, 0, 0] + rest;
    assert stream[1..] == [128, 0, 0] + rest;
    assert stream[1..][1..] == [0, 0] + rest;
    assert ReadUvarint(stream[1..][1..], 1, 128, 0) == Varint(0, [0] + rest) by {
      assert ([0, 0] + rest)[1..] == [0] + rest;
    }
    assert ReadUvarint(stream[1..], 0, 1, 0) == Varint(0, [0] + rest);
    assert ([0] + rest)[1..] == rest;
    assert |EncodeFrame(Frame(0, []))| == 3;
  }

  // The bytes of the varint in front of a stream: up to the first below 128.
  function VarintLength(stream: seq<Byte>): (r: nat)
    ensures r <= |stream|
  {
    if stream == [] then 0
    else if stream[0] < 128 then 1
    else 1 + VarintLength(stream[1..])
  }

  // It does not end in a group of seven zero bits that could have been left out.
  predicate Unpadded(stream: seq<Byte>) {
    var n := VarintLength(stream);
    n == 1 || (n > 1 && stream[n - 1] != 0)
  }

  // A varint that is read is a written one exactly if it is not padded. Its own value is
  // what the digits at this place in the number add.
  lemma {:induction false} ReadVarintIsWritten(stream: seq<Byte>, index: nat, place: nat, value: nat) returns (own: nat)
    requires ReadUvarint(stream, index, place, value).Varint?
    ensures ReadUvarint(stream, index, place, value) == Varint(value + own * place, stream[VarintLength(stream)..])
    ensures 0 < VarintLength(stream)
    ensures own == 0 ==> stream[VarintLength(stream) - 1] == 0
    ensures stream == Uvarint(own) + stream[VarintLength(stream)..] <==> Unpadded(stream)
    decreases |stream|
  {
    if stream[0] < 128 {
      own := stream[0];
      assert stream == [stream[0]] + stream[1..];
    } else {
      var low: nat := stream[0] as int - 128;
      ReadOneByte(stream, index, place, value, low);
      var high := ReadVarintIsWritten(stream[1..], index + 1, place * 128, value + low * place);
      own := low + 128 * high;
      Recombined(low, high, place);
      OneByteMore(stream, low, high, stream[1..]);
    }
  }

  lemma Recombined(low: nat, high: nat, place: nat)
    ensures low * place + high * (place * 128) == (low + 128 * high) * place
  {
  }

  // A byte with its top bit set in front of a varint.
  lemma OneByteMore(stream: seq<Byte>, low: nat, high: nat, rest: seq<Byte>)
    requires low < 128 && stream != [] && stream[0] == 128 + low && rest == stream[1..]
    requires 0 < VarintLength(rest) && (high == 0 ==> rest[VarintLength(rest) - 1] == 0)
    requires rest == Uvarint(high) + rest[VarintLength(rest)..] <==> Unpadded(rest)
    ensures VarintLength(stream) == VarintLength(rest) + 1
    ensures stream[VarintLength(stream)..] == rest[VarintLength(rest)..]
    ensures low + 128 * high == 0 ==> stream[VarintLength(stream) - 1] == 0
    ensures stream == Uvarint(low + 128 * high) + stream[VarintLength(stream)..] <==> Unpadded(stream)
  {
    var own, behind := low + 128 * high, rest[VarintLength(rest)..];
    assert stream[VarintLength(stream)..] == behind;
    assert stream[VarintLength(stream) - 1] == rest[VarintLength(rest) - 1];
    assert own % 128 == low && own / 128 == high;
    if high == 0 {
      assert Uvarint(own)[0] == low != stream[0];
    } else {
      assert Uvarint(own) + behind == [stream[0]] + (Uvarint(high) + behind);
      assert stream == [stream[0]] + rest;
      assert ([stream[0]] + (Uvarint(high) + behind))[1..] == Uvarint(high) + behind;
    }
  }

  lemma {:induction false} WrittenIsUnpadded(v: nat, behind: seq<Byte>)
    ensures Unpadded(Uvarint(v) + behind)
    ensures VarintLength(Uvarint(v) + behind) == |Uvarint(v)|
    ensures (Uvarint(v) + behind)[|Uvarint(v)|..] == behind
    ensures v > 0 ==> (Uvarint(v) + behind)[|Uvarint(v)| - 1] != 0
  {
    if v < 128 {
    } else {
      WrittenIsUnpadded(v / 128, behind);
      assert (Uvarint(v) + behind)[1..] == Uvarint(v / 128) + behind;
    }
  }

  // Both varints of the header in front of a stream.
  predicate HeaderUnpadded(stream: seq<Byte>)
    requires stream != []
  {
    Unpadded(stream[1..]) && Unpadded(stream[1..][VarintLength(stream[1..])..])
  }

  // A varint on its own, with what stands behind it.
  lemma WholeVarint(stream: seq<Byte>, read: ReadVarint)
    requires read == ReadUvarint(stream, 0, 1, 0) && read.Varint?
    ensures read.rest == stream[VarintLength(stream)..]
    ensures stream == Uvarint(read.value) + read.rest <==> Unpadded(stream)
  {
    var own := ReadVarintIsWritten(stream, 0, 1, 0);
    assert own == read.value;
  }

  // The two varints of the header in front of a frame that is read.
  lemma HeaderOf(stream: seq<Byte>, maxFrame: nat, size: ReadVarint, kind: ReadVarint)
    requires ParseFrame(stream, maxFrame).Got? && size == ReadUvarint(stream[1..], 0, 1, 0)
    requires size.Varint? ==> kind == ReadUvarint(size.rest, 0, 1, 0)
    ensures size.Varint? && kind.Varint? && stream[0] == 0
    ensures var read := ParseFrame(stream, maxFrame);
            && read.frame.messageType == kind.value && |read.frame.payload| == size.value
            && kind.rest == read.frame.payload + read.rest
  {
  }

  lemma HeaderDigits(stream: seq<Byte>, size: ReadVarint, kind: ReadVarint)
    requires stream != [] && size == ReadUvarint(stream[1..], 0, 1, 0) && size.Varint?
    requires kind == ReadUvarint(size.rest, 0, 1, 0) && kind.Varint?
    ensures stream[1..] == Uvarint(size.value) + (Uvarint(kind.value) + kind.rest) <==> HeaderUnpadded(stream)
  {
    WholeVarint(stream[1..], size);
    WholeVarint(size.rest, kind);
    HeaderIsWritten(stream[1..], size.value, kind.value);
  }

  // Reading then writing is an identity exactly for the frames without padding in the
  // header: of what is read, only they are what a writer sends.
  lemma FrameReadIsWrittenExactlyIfUnpadded(stream: seq<Byte>, maxFrame: nat)
    requires ParseFrame(stream, maxFrame).Got?
    ensures var read := ParseFrame(stream, maxFrame);
            stream == EncodeFrame(read.frame) + read.rest <==> HeaderUnpadded(stream)
  {
    var read := ParseFrame(stream, maxFrame);
    var size := ReadUvarint(stream[1..], 0, 1, 0);
    var kind := if size.Varint? then ReadUvarint(size.rest, 0, 1, 0) else Truncated;
    HeaderOf(stream, maxFrame, size, kind);
    HeaderDigits(stream, size, kind);
    FrameLayout(read.frame, read.rest, stream);
  }

  // What is read is in range: a varint stands for 64 bits at most, a type for 32, and a
  // payload is within the reader's limit.
  lemma {:induction false} ReadVarintFits(stream: seq<Byte>, index: nat, place: nat, value: nat)
    requires index < MAX_VARINT_64 && value < place && place == Pow128(index)
    requires ReadUvarint(stream, index, place, value).Varint?
    ensures ReadUvarint(stream, index, place, value).value < 0x1_0000_0000_0000_0000
    decreases |stream|
  {
    NinePlaces();
    if stream[0] < 128 {
      DigitFits(stream[0], place, value);
      if index < MAX_VARINT_64 - 1 { PowGrows(index + 1, MAX_VARINT_64 - 1); }
    } else {
      var low: nat := stream[0] as int - 128;
      DigitFits(low, place, value);
      ReadOneByte(stream, index, place, value, low);
      ReadVarintFits(stream[1..], index + 1, place * 128, value + low * place);
    }
  }

  lemma DigitFits(digit: nat, place: nat, value: nat)
    requires value < place && digit < 128
    ensures value + digit * place < place * 128
    ensures digit <= 1 ==> value + digit * place < place * 2
  {
    assert (127 - digit) * place >= 0;
    assert digit <= 1 ==> digit * place <= place;
  }

  lemma {:induction false} PowGrows(m: nat, n: nat)
    requires m <= n
    ensures 0 < Pow128(m) <= Pow128(n)
    decreases n
  {
    if m < n {
      PowGrows(m, n - 1);
    } else if m > 0 {
      PowGrows(m - 1, n - 1);
    }
  }

  lemma FramesReadAreInRange(stream: seq<Byte>, maxFrame: nat)
    requires ParseFrame(stream, maxFrame).Got?
    ensures var frame := ParseFrame(stream, maxFrame).frame;
            && |frame.payload| <= maxFrame && |frame.payload| < 0x1_0000_0000_0000_0000
            && frame.messageType < 0x1_0000_0000
  {
    ReadVarintFits(stream[1..], 0, 1, 0);
  }

  // Which error a stream is refused with: the end of the stream exactly if there is nothing,
  // a frame too large exactly if a length beyond the limit follows the zero byte, and
  // otherwise a malformed frame.
  lemma RefusedFor(stream: seq<Byte>, maxFrame: nat)
    requires ParseFrame(stream, maxFrame).Failed?
    ensures var error := ParseFrame(stream, maxFrame).error;
            && (error == EndOfStream <==> stream == [])
            && (error == FrameTooLarge <==>
                  stream != [] && stream[0] == 0
                  && ReadUvarint(stream[1..], 0, 1, 0).Varint? && ReadUvarint(stream[1..], 0, 1, 0).value > maxFrame)
            && (error == EndOfStream || error == FrameTooLarge || error == MalformedFrame)
    ensures stream != [] && stream[0] != 0 ==> ParseFrame(stream, maxFrame) == Failed(MalformedFrame)
  {
  }

  lemma HeaderIsWritten(header: seq<Byte>, length: nat, kind: nat)
    requires header == Uvarint(length) + header[VarintLength(header)..] <==> Unpadded(header)
    requires var afterSize := header[VarintLength(header)..];
             afterSize == Uvarint(kind) + afterSize[VarintLength(afterSize)..] <==> Unpadded(afterSize)
    ensures var afterSize := header[VarintLength(header)..];
            var afterKind := afterSize[VarintLength(afterSize)..];
            header == Uvarint(length) + (Uvarint(kind) + afterKind) <==> Unpadded(header) && Unpadded(afterSize)
  {
    var afterSize := header[VarintLength(header)..];
    var afterKind := afterSize[VarintLength(afterSize)..];
    if header == Uvarint(length) + (Uvarint(kind) + afterKind) {
      WrittenIsUnpadded(length, Uvarint(kind) + afterKind);
      WrittenIsUnpadded(kind, afterKind);
    }
  }

  lemma FrameLayout(frame: Frame, rest: seq<Byte>, stream: seq<Byte>)
    requires stream != [] && stream[0] == 0
    ensures stream == EncodeFrame(frame) + rest
       <==> stream[1..] == Uvarint(|frame.payload|) + (Uvarint(frame.messageType) + (frame.payload + rest))
  {
    var tail := Uvarint(|frame.payload|) + (Uvarint(frame.messageType) + (frame.payload + rest));
    assert EncodeFrame(frame) + rest == [0] + tail;
    assert ([0] + tail)[1..] == tail;
    assert stream == [0] + stream[1..];
  }

  lemma NinePlaces()
    ensures Pow128(MAX_VARINT_64 - 1) == 0x8000_0000_0000_0000
  {
    assert Pow128(4) == 0x1000_0000;
    assert Pow128(9) == 128 * (128 * (128 * (128 * (128 * Pow128(4)))));
  }

  function EncodeFrames(frames: seq<Frame>): seq<Byte> {
    if frames == [] then [] else EncodeFrame(frames[0]) + EncodeFrames(frames[1..])
  }

  // As many frames as asked for, from the front of a stream.
  function ParseFrames(stream: seq<Byte>, maxFrame: nat, count: nat): Option<(seq<Frame>, seq<Byte>)>
    decreases count
  {
    if count == 0 then Some(([], stream))
    else
      match ParseFrame(stream, maxFrame)
      case Failed(_) => None
      case Got(frame, rest) =>
        match ParseFrames(rest, maxFrame, count - 1)
        case None => None
        case Some((frames, left)) => Some(([frame] + frames, left))
  }

  // Any frames within the reader's limit, written one after the other, are read back as
  // the same frames, and what follows them is left alone.
  lemma {:induction false} FramesRoundTrip(frames: seq<Frame>, maxFrame: nat, rest: seq<Byte>)
    requires forall i | 0 <= i < |frames| :: Sendable(frames[i], maxFrame)
    ensures ParseFrames(EncodeFrames(frames) + rest, maxFrame, |frames|) == Some((frames, rest))
  {
    if frames == [] {
      assert EncodeFrames(frames) + rest == rest;
    } else {
      var behind := EncodeFrames(frames[1..]) + rest;
      assert EncodeFrames(frames) + rest == EncodeFrame(frames[0]) + behind;
      FrameRoundTrip(frames[0], maxFrame, behind);
      FramesRoundTrip(frames[1..], maxFrame, rest);
      assert [frames[0]] + frames[1..] == frames;
    }
  }

  // ---------- A whole exchange ----------

  lemma {:induction false} EncodeFramesAppend(frames: seq<Frame>, frame: Frame)
    ensures EncodeFrames(frames + [frame]) == EncodeFrames(frames) + EncodeFrame(frame)
  {
    if frames == [] {
      assert [frame][1..] == [] && frames + [frame] == [frame];
      assert EncodeFrame(frame) + [] == EncodeFrame(frame) == [] + EncodeFrame(frame);
    } else {
      EncodeFramesAppend(frames[1..], frame);
      assert (frames + [frame])[1..] == frames[1..] + [frame];
      assert EncodeFrame(frames[0]) + (EncodeFrames(frames[1..]) + EncodeFrame(frame))
          == (EncodeFrame(frames[0]) + EncodeFrames(frames[1..])) + EncodeFrame(frame);
    }
  }

  // Frames written one after the other, up to the first error.
  method SendFrames(framer: PlainFramer, frames: seq<Frame>) returns (error: Option<FrameError>)
    requires forall i | 0 <= i < |frames| ::
               frames[i].messageType < 0x1_0000_0000 && |frames[i].payload| < 0x1_0000_0000_0000_0000
    modifies framer.sink
    ensures error.None? ==> framer.sink.out == old(framer.sink.out) + EncodeFrames(frames)
    ensures framer.sink.GoodUpTo(error == Some(SendFailed))
    ensures error == None || error == Some(SendFailed)
            || (error == Some(FrameTooLarge) && exists i :: 0 <= i < |frames| && |frames[i].payload| > framer.maxFrame)
  {
    var i := 0;
    assert EncodeFrames(frames[..0]) == [];
    while i < |frames|
      invariant 0 <= i <= |frames|
      invariant framer.sink.out == old(framer.sink.out) + EncodeFrames(frames[..i])
      invariant framer.sink.GoodUpTo(false)
    {
      EncodeFramesAppend(frames[..i], frames[i]);
      assert frames[..i] + [frames[i]] == frames[..i + 1];
      var failed := framer.WriteFrame(frames[i].messageType, frames[i].payload);
      if failed.Some? { return failed; }
      i := i + 1;
    }
    assert frames[..i] == frames;
    return None;
  }

  lemma {:induction false} ParseFramesOneMore(stream: seq<Byte>, maxFrame: nat, count: nat)
    ensures ParseFrames(stream, maxFrame, count + 1) ==
            match ParseFrames(stream, maxFrame, count)
            case None => None
            case Some((frames, rest)) =>
              match ParseFrame(rest, maxFrame)
              case Failed(_) => None
              case Got(frame, left) => Some((frames + [frame], left))
    decreases count
  {
    if count == 0 {
      match ParseFrame(stream, maxFrame)
      case Failed(_) =>
      case Got(frame, rest) =>
        assert ParseFrames(rest, maxFrame, 0) == Some(([], rest));
        assert [frame] + [] == [] + [frame];
    } else {
      match ParseFrame(stream, maxFrame)
      case Failed(_) =>
      case Got(frame, rest) =>
        ParseFramesOneMore(rest, maxFrame, count - 1);
        match ParseFrames(rest, maxFrame, count - 1)
        case None =>
        case Some((frames, left)) =>
          match ParseFrame(left, maxFrame)
          case Failed(_) =>
          case Got(last, _) => assert [frame] + (frames + [last]) == ([frame] + frames) + [last];
    }
  }

  method ReceiveFrames(framer: PlainFramer, count: nat) returns (frames: Option<seq<Frame>>)
    modifies framer.reader
    ensures match ParseFrames(old(framer.reader.stream), framer.maxFrame, count)
            case None => frames == None
            case Some((expected, rest)) => frames == Some(expected) && framer.reader.stream == rest
  {
    var received: seq<Frame> := [];
    ghost var start := framer.reader.stream;
    var i := 0;
    while i < count
      invariant 0 <= i <= count
      invariant ParseFrames(start, framer.maxFrame, i) == Some((received, framer.reader.stream))
    {
      ParseFramesOneMore(start, framer.maxFrame, i);
      var frame, _ := framer.ReadFrame();
      if frame.None? {
        NoFramesBehind(start, framer.maxFrame, i + 1, count);
        return None;
      }
      received := received + [frame.value];
      i := i + 1;
    }
    return Some(received);
  }

  lemma {:induction false} NoFramesBehind(stream: seq<Byte>, maxFrame: nat, count: nat, more: nat)
    requires ParseFrames(stream, maxFrame, count) == None && count <= more
    ensures ParseFrames(stream, maxFrame, more) == None
    decreases more
  {
    if count == more {
    } else {
      NoFramesBehind(stream, maxFrame, count, more - 1);
      ParseFramesOneMore(stream, maxFrame, more - 1);
    }
  }

  // One framer writes, through a connection that takes as little as it likes, and another
  // reads what has come through, with more behind it: the same frames arrive. That fails only
  // if a write does or takes nothing, or a frame is beyond the sender's limit.
  method Exchange(frames: seq<Frame>, sendMax: int, receiveMax: int, takes: nat -> nat, fails: nat -> bool,
                  behind: seq<Byte>)
      returns (error: Option<FrameError>, received: Option<seq<Frame>>, left: seq<Byte>)
    requires forall i | 0 <= i < |frames| :: frames[i].messageType < 0x1_0000_0000
               && |frames[i].payload| <= ClampMaxFrame(receiveMax)
    ensures error.None? ==> received == Some(frames) && left == behind
    ensures error == Some(SendFailed) ==> exists k :: fails(k) || takes(k) == 0
    ensures error == None || error == Some(SendFailed)
            || (error == Some(FrameTooLarge)
                && exists i :: 0 <= i < |frames| && |frames[i].payload| > ClampMaxFrame(sendMax))
  {
    var sink := new Sink(takes, fails);
    var nothing := new Source([]);
    var sender := new PlainFramer(sink, nothing, sendMax);
    received, left := None, [];
    error := SendFrames(sender, frames);
    if error.Some? {
      assert error == Some(SendFailed) ==> fails(sink.writes - 1) || takes(sink.writes - 1) == 0;
      return;
    }
    assert sink.out == [] + EncodeFrames(frames) == EncodeFrames(frames);
    var reader := new Source(sink.out + behind);
    var receiver := new PlainFramer(sink, reader, receiveMax);
    FramesRoundTrip(frames, receiver.maxFrame, behind);
    received := ReceiveFrames(receiver, |frames|);
    left := reader.stream;
  }
}
