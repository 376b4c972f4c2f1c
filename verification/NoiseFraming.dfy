// Encrypted framing of internal/wire/noise.go after the handshake: 16-bit length packets
// holding one sealed frame each. The cipher is any authenticated encryption that adds
// sixteen bytes; its nonces count up from zero on either side (section 5.1 of the Noise
// Protocol Framework).
module NoiseFraming {
  import opened Common
  import opened ByteStreams

  const MAX_PACKET := 65535
  const MAX_NONCE := 0x1_0000_0000_0000_0000 - 2
  const TAG_BYTES := 16
  const INNER_HEADER := 4

  datatype Frame = Frame(messageType: nat, payload: seq<Byte>)

  datatype NoiseError =
    | BadMessageType
    | FrameTooLarge
    | CipherExhausted
    | SendFailed
    | EndOfStream
    | MalformedFrame

  // ---------- The cipher ----------

  datatype Aead = Aead(seal: (nat, seq<Byte>) -> seq<Byte>, unseal: (nat, seq<Byte>) -> Option<seq<Byte>>)

  // Sealing adds a tag, unsealing inverts it, and nothing else is ever unsealed.
  ghost predicate Sound(aead: Aead) {
    && (forall n: nat, plain: seq<Byte> :: |aead.seal(n, plain)| == |plain| + TAG_BYTES)
    && (forall n: nat, plain: seq<Byte> :: aead.unseal(n, aead.seal(n, plain)) == Some(plain))
    && (forall n: nat, sealed: seq<Byte> ::
          aead.unseal(n, sealed).Some? ==> aead.seal(n, aead.unseal(n, sealed).value) == sealed)
  }

  // A concrete cipher, to show that the assumptions can be met: a tag naming the nonce.
  function ToyTag(n: nat): (r: seq<Byte>)
    ensures |r| == TAG_BYTES
  {
    seq(TAG_BYTES, _ => n % 256)
  }

  function ToyUnseal(n: nat, sealed: seq<Byte>): Option<seq<Byte>> {
    if |sealed| >= TAG_BYTES && sealed[|sealed| - TAG_BYTES..] == ToyTag(n)
    then Some(sealed[..|sealed| - TAG_BYTES]) else None
  }

  function Toy(): Aead {
    Aead((n: nat, plain: seq<Byte>) => plain + ToyTag(n), (n: nat, sealed: seq<Byte>) => ToyUnseal(n, sealed))
  }

  lemma ToyIsSound()
    ensures Sound(Toy())
  {
    forall n: nat, plain: seq<Byte>
      ensures Toy().unseal(n, Toy().seal(n, plain)) == Some(plain)
    {
      var sealed := plain + ToyTag(n);
      assert sealed[|plain|..] == ToyTag(n) && sealed[..|plain|] == plain;
    }
    forall n: nat, sealed: seq<Byte> | Toy().unseal(n, sealed).Some?
      ensures Toy().seal(n, Toy().unseal(n, sealed).value) == sealed
    {
      var cut := |sealed| - TAG_BYTES;
      assert sealed == sealed[..cut] + sealed[cut..];
    }
  }

  // One direction of a session: the key and the next nonce. A failed operation does not
  // use the nonce up.
  class CipherState {
    const aead: Aead
    var nonce: nat

    constructor (aead: Aead)
      ensures this.aead == aead && nonce == 0
    {
      this.aead := aead;
      nonce := 0;
    }

    method Encrypt(plain: seq<Byte>) returns (sealed: Option<seq<Byte>>)
      modifies this
      ensures old(nonce) > MAX_NONCE ==> sealed == None && nonce == old(nonce)
      ensures old(nonce) <= MAX_NONCE ==> sealed == Some(aead.seal(old(nonce), plain)) && nonce == old(nonce) + 1
    {
      if nonce > MAX_NONCE { return None; }
      sealed := Some(aead.seal(nonce, plain));
      nonce := nonce + 1;
    }

    method Decrypt(sealed: seq<Byte>) returns (plain: Option<seq<Byte>>)
      modifies this
      ensures plain == if old(nonce) > MAX_NONCE then None else aead.unseal(old(nonce), sealed)
      ensures nonce == if plain.Some? then old(nonce) + 1 else old(nonce)
    {
      if nonce > MAX_NONCE { return None; }
      plain := aead.unseal(nonce, sealed);
      if plain.Some? { nonce := nonce + 1; }
    }
  }

  // ---------- Packets ----------

  function Packet(payload: seq<Byte>): (r: seq<Byte>)
    requires |payload| <= MAX_PACKET
  {
    [1] + PutUint16(|payload|) + payload
  }

  datatype PacketRead = Received(payload: seq<Byte>, rest: seq<Byte>) | Rejected(error: NoiseError)

  function ParsePacket(stream: seq<Byte>): PacketRead {
    if |stream| < 3 then Rejected(EndOfStream)
    else if stream[0] != 1 then Rejected(MalformedFrame)
    else
      var length := Uint16(stream, 1);
      if length == 0 || |stream| - 3 < length then Rejected(MalformedFrame)
      else Received(stream[3..3 + length], stream[3 + length..])
  }

  // What is written is read back, except that the reader refuses the empty packet the
  // writer would send.
  lemma PacketRoundTrip(payload: seq<Byte>, rest: seq<Byte>)
    requires |payload| <= MAX_PACKET
    ensures ParsePacket(Packet(payload) + rest) ==
            if payload == [] then Rejected(MalformedFrame) else Received(payload, rest)
  {
    var stream := Packet(payload) + rest;
    assert stream[3..] == payload + rest;
    assert Uint16(stream, 1) == |payload|;
    if payload != [] {
      assert stream[3..3 + |payload|] == payload && stream[3 + |payload|..] == rest;
    }
  }

  // Nothing but a written packet is read.
  lemma OnlyPacketsAreReceived(stream: seq<Byte>)
    ensures match ParsePacket(stream)
            case Received(payload, rest) =>
              0 < |payload| <= MAX_PACKET && stream == Packet(payload) + rest
            case Rejected(_) => true
  {
    if ParsePacket(stream).Received? {
      var length := Uint16(stream, 1);
      assert stream == stream[..3] + stream[3..3 + length] + stream[3 + length..];
      assert stream[..3] == [1] + PutUint16(length);
    }
  }

  method WriteNoisePacket(sink: Sink, payload: seq<Byte>) returns (error: Option<NoiseError>)
    modifies sink
    ensures |payload| > MAX_PACKET ==> error == Some(FrameTooLarge) && sink.out == old(sink.out)
    ensures |payload| <= MAX_PACKET ==>
              && old(sink.out) <= sink.out <= old(sink.out) + Packet(payload)
              && (error == None || error == Some(SendFailed))
              && (error == None ==> sink.out == old(sink.out) + Packet(payload))
    ensures sink.GoodUpTo(error == Some(SendFailed))
  {
    if |payload| > MAX_PACKET { return Some(FrameTooLarge); }
    var header: seq<Byte> := [1, |payload| / 256, |payload| % 256];
    ghost var before := sink.out;
    assert before + Packet(payload) == (before + header) + payload;
    var failed := WriteFull(sink, header);
    if failed.Some? { return Some(SendFailed); }
    failed := WriteFull(sink, payload);
    if failed.Some? { return Some(SendFailed); }
    return None;
  }

  method ReadNoisePacket(source: Source) returns (payload: Result<seq<Byte>, NoiseError>)
    modifies source
    ensures match ParsePacket(old(source.stream))
            case Received(p, rest) => payload == Ok(p) && source.stream == rest
            case Rejected(e) => payload == Err(e)
  {
    var header := source.ReadFull(3);
    if header.None? { return Err(EndOfStream); }
    if header.value[0] != 1 { return Err(MalformedFrame); }
    var length := Uint16(header.value, 1);
    if length == 0 { return Err(MalformedFrame); }
    var body := source.ReadFull(length);
    if body.None? { return Err(MalformedFrame); }
    assert body.value == old(source.stream)[3..3 + length];
    assert source.stream == old(source.stream)[3 + length..];
    return Ok(body.value);
  }

  // ---------- Frames ----------

  // The limit both sides adopt: what is left of a packet after the tag and inner header.
  function ClampMaxFrame(maxFrame: int): (r: nat)
    ensures 0 < r <= MAX_PACKET - 20
    ensures r == maxFrame <==> 0 < maxFrame <= MAX_PACKET - 20
    ensures r != maxFrame ==> r == MAX_PACKET - 20
  {
    if maxFrame <= 0 || maxFrame > MAX_PACKET - 20 then MAX_PACKET - 20 else maxFrame
  }

  function EncodePlain(frame: Frame): (r: seq<Byte>)
    requires frame.messageType < 0x1_0000 && |frame.payload| < 0x1_0000
  {
    PutUint16(frame.messageType) + PutUint16(|frame.payload|) + frame.payload
  }

  function DecodePlain(plain: seq<Byte>, maxFrame: nat): Option<Frame> {
    if |plain| < INNER_HEADER then None
    else if Uint16(plain, 2) != |plain| - INNER_HEADER || Uint16(plain, 2) > maxFrame then None
    else Some(Frame(Uint16(plain, 0), plain[INNER_HEADER..]))
  }

  lemma PlainRoundTrip(frame: Frame, maxFrame: nat)
    requires frame.messageType < 0x1_0000 && |frame.payload| < 0x1_0000
    ensures DecodePlain(EncodePlain(frame), maxFrame) == if |frame.payload| <= maxFrame then Some(frame) else None
  {
    var plain := EncodePlain(frame);
    assert plain[INNER_HEADER..] == frame.payload;
    assert Uint16(plain, 0) == frame.messageType && Uint16(plain, 2) == |frame.payload|;
  }

  lemma OnlyPlainsAreDecoded(plain: seq<Byte>, maxFrame: nat)
    ensures match DecodePlain(plain, maxFrame)
            case Some(frame) =>
              frame.messageType < 0x1_0000 && |frame.payload| < 0x1_0000 && |frame.payload| <= maxFrame
              && EncodePlain(frame) == plain
            case None => true
  {
    if DecodePlain(plain, maxFrame).Some? {
      assert plain == plain[..INNER_HEADER] + plain[INNER_HEADER..];
      assert plain[..INNER_HEADER] == PutUint16(Uint16(plain, 0)) + PutUint16(Uint16(plain, 2));
    }
  }

  // The frame limit is the largest for which the sealed frame fits in a packet.
  lemma SealedFrameFits(aead: Aead, nonce: nat, frame: Frame)
    requires Sound(aead)
    requires frame.messageType < 0x1_0000 && |frame.payload| < 0x1_0000
    ensures |aead.seal(nonce, EncodePlain(frame))| <= MAX_PACKET <==> |frame.payload| <= MAX_PACKET - 20
    ensures |aead.seal(nonce, EncodePlain(frame))| > 0
  {
    assert |EncodePlain(frame)| == |frame.payload| + INNER_HEADER;
  }

  // Why a write is refused without touching the connection or the nonce.
  function Refusal(frame: Frame, maxFrame: nat, nonce: nat): Option<NoiseError> {
    if frame.messageType > 0xFFFF then Some(BadMessageType)
    else if |frame.payload| > maxFrame then Some(FrameTooLarge)
    else if nonce > MAX_NONCE then Some(CipherExhausted)
    else None
  }

  ghost function Sealed(aead: Aead, nonce: nat, frame: Frame): (r: seq<Byte>)
    requires Sound(aead) && frame.messageType < 0x1_0000 && |frame.payload| <= MAX_PACKET - 20
  {
    SealedFrameFits(aead, nonce, frame);
    Packet(aead.seal(nonce, EncodePlain(frame)))
  }

  datatype FrameRead = Got(frame: Frame, rest: seq<Byte>) | Failed(error: NoiseError)

  function ParseFrame(aead: Aead, nonce: nat, stream: seq<Byte>, maxFrame: nat): FrameRead {
    match ParsePacket(stream)
    case Rejected(e) => Failed(e)
    case Received(sealed, rest) =>
      var plain := if nonce > MAX_NONCE then None else aead.unseal(nonce, sealed);
      if plain.None? then Failed(MalformedFrame)
      else
        var frame := DecodePlain(plain.value, maxFrame);
        if frame.None? then Failed(MalformedFrame) else Got(frame.value, rest)
  }

  // Whether the next packet opens under this nonce, whatever is inside.
  predicate Opens(aead: Aead, nonce: nat, stream: seq<Byte>) {
    match ParsePacket(stream)
    case Rejected(_) => false
    case Received(sealed, _) => nonce <= MAX_NONCE && aead.unseal(nonce, sealed).Some?
  }

  // A reader accepts exactly the frames within its limit sealed under its own nonce.
  lemma AcceptsExactlySealedFrames(aead: Aead, nonce: nat, stream: seq<Byte>, maxFrame: nat, frame: Frame,
                                   rest: seq<Byte>)
    requires Sound(aead) && maxFrame <= MAX_PACKET - 20
    ensures ParseFrame(aead, nonce, stream, maxFrame) == Got(frame, rest)
       <==> && Refusal(frame, maxFrame, nonce) == None
            && stream == Sealed(aead, nonce, frame) + rest
  {
    if Refusal(frame, maxFrame, nonce) == None && stream == Sealed(aead, nonce, frame) + rest {
      SealedFrameFits(aead, nonce, frame);
      PacketRoundTrip(aead.seal(nonce, EncodePlain(frame)), rest);
      PlainRoundTrip(frame, maxFrame);
    }
    if ParseFrame(aead, nonce, stream, maxFrame) == Got(frame, rest) {
      OnlyPacketsAreReceived(stream);
      var sealed := ParsePacket(stream).payload;
      OnlyPlainsAreDecoded(aead.unseal(nonce, sealed).value, maxFrame);
    }
  }

  // Which error a stream is refused with: the end of the stream exactly if not even the three
  // bytes of a packet header have come, and otherwise a malformed frame.
  lemma RefusedFor(aead: Aead, nonce: nat, stream: seq<Byte>, maxFrame: nat)
    requires ParseFrame(aead, nonce, stream, maxFrame).Failed?
    ensures ParseFrame(aead, nonce, stream, maxFrame).error == if |stream| < 3 then EndOfStream else MalformedFrame
  {
  }

  // Why a frame is refused: its type does not fit 16 bits, it is beyond the limit, or the
  // nonces have run out; the first of these that holds is named.
  lemma RefusedExactlyWhen(frame: Frame, maxFrame: nat, nonce: nat)
    ensures Refusal(frame, maxFrame, nonce) == None
       <==> frame.messageType < 0x1_0000 && |frame.payload| <= maxFrame && nonce < 0xFFFF_FFFF_FFFF_FFFF
    ensures Refusal(frame, maxFrame, nonce) == Some(BadMessageType) <==> frame.messageType >= 0x1_0000
    ensures Refusal(frame, maxFrame, nonce) == Some(FrameTooLarge)
       <==> frame.messageType < 0x1_0000 && |frame.payload| > maxFrame
  {
  }

  // A packet opens, and uses the nonce up, exactly if it is something sealed under that nonce.
  lemma OpensExactlyWhen(aead: Aead, nonce: nat, stream: seq<Byte>)
    requires Sound(aead)
    ensures Opens(aead, nonce, stream)
       <==> nonce <= MAX_NONCE && exists plain, rest :: StartsSealed(aead, nonce, stream, plain, rest)
  {
    OnlyPacketsAreReceived(stream);
    if Opens(aead, nonce, stream) {
      var received := ParsePacket(stream);
      var plain := aead.unseal(nonce, received.payload).value;
      assert StartsSealed(aead, nonce, stream, plain, received.rest);
    }
    forall plain, rest | nonce <= MAX_NONCE && StartsSealed(aead, nonce, stream, plain, rest)
      ensures Opens(aead, nonce, stream)
    {
      PacketRoundTrip(aead.seal(nonce, plain), rest);
    }
  }

  predicate StartsSealed(aead: Aead, nonce: nat, stream: seq<Byte>, plain: seq<Byte>, rest: seq<Byte>) {
    |aead.seal(nonce, plain)| <= MAX_PACKET && stream == Packet(aead.seal(nonce, plain)) + rest
  }

  class NoiseFramer {
    const sink: Sink
    const source: Source
    const encrypt: CipherState
    const decrypt: CipherState
    const maxFrame: nat

    ghost predicate Valid() {
      Sound(encrypt.aead) && encrypt != decrypt && maxFrame <= MAX_PACKET - 20
    }

    constructor (sink: Sink, source: Source, encrypt: CipherState, decrypt: CipherState, maxFrame: int)
      requires Sound(encrypt.aead) && encrypt != decrypt
      ensures Valid() && this.maxFrame == ClampMaxFrame(maxFrame)
      ensures this.sink == sink && this.source == source && this.encrypt == encrypt && this.decrypt == decrypt
    {
      this.sink := sink;
      this.source := source;
      this.encrypt := encrypt;
      this.decrypt := decrypt;
      this.maxFrame := ClampMaxFrame(maxFrame);
    }

    // A refused frame uses no nonce and sends nothing; any other uses one nonce and sends
    // the frame sealed under it, or a prefix of that if the connection fails.
    method WriteFrame(messageType: nat, payload: seq<Byte>) returns (error: Option<NoiseError>)
      requires Valid()
      modifies sink, encrypt
      ensures var frame := Frame(messageType, payload);
              var refusal := Refusal(frame, maxFrame, old(encrypt.nonce));
              if refusal.Some? then
                error == refusal && sink.out == old(sink.out) && encrypt.nonce == old(encrypt.nonce)
              else
                && encrypt.nonce == old(encrypt.nonce) + 1
                && (error == None || error == Some(SendFailed))
                && old(sink.out) <= sink.out <= old(sink.out) + Sealed(encrypt.aead, old(encrypt.nonce), frame)
                && (error == None ==> sink.out == old(sink.out) + Sealed(encrypt.aead, old(encrypt.nonce), frame))
      ensures sink.GoodUpTo(error == Some(SendFailed))
    {
      if messageType > 0xFFFF { return Some(BadMessageType); }
      if |payload| > maxFrame { return Some(FrameTooLarge); }
      var frame := Frame(messageType, payload);
      var plain := EncodePlain(frame);
      var sealed := encrypt.Encrypt(plain);
      if sealed.None? { return Some(CipherExhausted); }
      // The size check that follows the encryption never fires.
      SealedFrameFits(encrypt.aead, old(encrypt.nonce), frame);
      assert |sealed.value| <= MAX_PACKET;
      error := WriteNoisePacket(sink, sealed.value);
    }

    // A packet that opens uses the nonce up even if its contents are refused.
    method ReadFrame() returns (result: Result<Frame, NoiseError>)
      modifies source, decrypt
      ensures decrypt.nonce ==
              old(decrypt.nonce) + (if Opens(decrypt.aead, old(decrypt.nonce), old(source.stream)) then 1 else 0)
      ensures match ParseFrame(decrypt.aead, old(decrypt.nonce), old(source.stream), maxFrame)
              case Got(frame, rest) =>
                result == Ok(frame) && source.stream == rest
              case Failed(e) => result == Err(e)
    {
      var packet := ReadNoisePacket(source);
      if packet.Err? { return Err(packet.error); }
      var plain := decrypt.Decrypt(packet.value);
      if plain.None? { return Err(MalformedFrame); }
      if |plain.value| < INNER_HEADER { return Err(MalformedFrame); }
      var messageType := Uint16(plain.value, 0);
      var declared := Uint16(plain.value, 2);
      if declared != |plain.value| - INNER_HEADER || declared > maxFrame { return Err(MalformedFrame); }
      return Ok(Frame(messageType, plain.value[INNER_HEADER..]));
    }
  }

  // ---------- A whole session ----------

  // The frames a writer at this nonce does not refuse.
  function Accepted(frames: seq<Frame>, maxFrame: nat, nonce: nat): (r: seq<Frame>) {
    if frames == [] then []
    else if Refusal(frames[0], maxFrame, nonce).Some? then Accepted(frames[1..], maxFrame, nonce)
    else [frames[0]] + Accepted(frames[1..], maxFrame, nonce + 1)
  }

  // What they put on the connection.
  ghost function SendAll(aead: Aead, frames: seq<Frame>, maxFrame: nat, nonce: nat): (r: seq<Byte>)
    requires Sound(aead) && maxFrame <= MAX_PACKET - 20
  {
    if frames == [] then []
    else if Refusal(frames[0], maxFrame, nonce).Some? then SendAll(aead, frames[1..], maxFrame, nonce)
    else Sealed(aead, nonce, frames[0]) + SendAll(aead, frames[1..], maxFrame, nonce + 1)
  }

  function ReceiveAll(aead: Aead, stream: seq<Byte>, maxFrame: nat, nonce: nat, count: nat)
      : Option<(seq<Frame>, seq<Byte>)>
    decreases count
  {
    if count == 0 then Some(([], stream))
    else
      match ParseFrame(aead, nonce, stream, maxFrame)
      case Failed(_) => None
      case Got(frame, rest) =>
        match ReceiveAll(aead, rest, maxFrame, nonce + 1, count - 1)
        case None => None
        case Some((frames, left)) => Some(([frame] + frames, left))
  }

  // With both sides at the same nonce, any sends, some of them refused, are received as
  // exactly the accepted frames, and what follows is left alone.
  lemma {:induction false} SessionRoundTrip(aead: Aead, frames: seq<Frame>, sendMax: nat, receiveMax: nat,
                                            nonce: nat, rest: seq<Byte>)
    requires Sound(aead) && sendMax <= MAX_PACKET - 20 && receiveMax <= MAX_PACKET - 20
    requires forall i | 0 <= i < |frames| :: |frames[i].payload| <= sendMax ==> |frames[i].payload| <= receiveMax
    ensures var accepted := Accepted(frames, sendMax, nonce);
            ReceiveAll(aead, SendAll(aead, frames, sendMax, nonce) + rest, receiveMax, nonce, |accepted|) ==
              Some((accepted, rest))
  {
    if frames == [] {
      assert SendAll(aead, frames, sendMax, nonce) + rest == rest;
    } else if Refusal(frames[0], sendMax, nonce).Some? {
      SessionRoundTrip(aead, frames[1..], sendMax, receiveMax, nonce, rest);
    } else {
      var behind := SendAll(aead, frames[1..], sendMax, nonce + 1) + rest;
      var stream := Sealed(aead, nonce, frames[0]) + behind;
      assert SendAll(aead, frames, sendMax, nonce) + rest == stream;
      AcceptsExactlySealedFrames(aead, nonce, stream, receiveMax, frames[0], behind);
      SessionRoundTrip(aead, frames[1..], sendMax, receiveMax, nonce + 1, rest);
    }
  }

  // Which frames those are: all that fit, until the nonces run out.
  lemma {:induction false} AcceptedAreThoseThatFit(frames: seq<Frame>, maxFrame: nat, nonce: nat)
    requires nonce + |frames| <= MAX_NONCE + 1
    ensures Accepted(frames, maxFrame, nonce) == Fitting(frames, maxFrame)
  {
    if frames == [] {
    } else {
      AcceptedAreThoseThatFit(frames[1..], maxFrame, nonce);
      AcceptedAreThoseThatFit(frames[1..], maxFrame, nonce + 1);
    }
  }

  function Fitting(frames: seq<Frame>, maxFrame: nat): (r: seq<Frame>) {
    if frames == [] then []
    else (if frames[0].messageType <= 0xFFFF && |frames[0].payload| <= maxFrame then [frames[0]] else [])
         + Fitting(frames[1..], maxFrame)
  }

  // The sending side of a session: refused frames are skipped, a failed connection ends it.
  method SendFrames(framer: NoiseFramer, frames: seq<Frame>) returns (accepted: seq<Frame>, failed: bool)
    requires framer.Valid()
    modifies framer.sink, framer.encrypt
    ensures !failed ==>
              && accepted == Accepted(frames, framer.maxFrame, old(framer.encrypt.nonce))
              && framer.encrypt.nonce == old(framer.encrypt.nonce) + |accepted|
              && framer.sink.out == old(framer.sink.out)
                                    + SendAll(framer.encrypt.aead, frames, framer.maxFrame, old(framer.encrypt.nonce))
    ensures framer.sink.GoodUpTo(failed)
  {
    var aead, maxFrame, cipher := framer.encrypt.aead, framer.maxFrame, framer.encrypt;
    ghost var total := framer.sink.out + SendAll(aead, frames, maxFrame, cipher.nonce);
    accepted := [];
    var rest := frames;
    while rest != []
      invariant framer.sink.out + SendAll(aead, rest, maxFrame, cipher.nonce) == total
      invariant accepted + Accepted(rest, maxFrame, cipher.nonce) ==
                Accepted(frames, maxFrame, old(framer.encrypt.nonce))
      invariant cipher.nonce == old(framer.encrypt.nonce) + |accepted|
      invariant framer.sink.GoodUpTo(false)
      decreases |rest|
    {
      ghost var out, nonce := framer.sink.out, cipher.nonce;
      var frame := rest[0];
      var error := framer.WriteFrame(frame.messageType, frame.payload);
      if error == Some(SendFailed) { return accepted, true; }
      if error.None? {
        assert (out + Sealed(aead, nonce, frame)) + SendAll(aead, rest[1..], maxFrame, nonce + 1)
            == out + (Sealed(aead, nonce, frame) + SendAll(aead, rest[1..], maxFrame, nonce + 1));
        assert (accepted + [frame]) + Accepted(rest[1..], maxFrame, nonce + 1)
            == accepted + ([frame] + Accepted(rest[1..], maxFrame, nonce + 1));
        accepted := accepted + [frame];
      }
      rest := rest[1..];
    }
    return accepted, false;
  }

  method ReceiveFrames(framer: NoiseFramer, count: nat) returns (frames: Option<seq<Frame>>)
    modifies framer.source, framer.decrypt
    ensures match ReceiveAll(framer.decrypt.aead, old(framer.source.stream), framer.maxFrame,
                             old(framer.decrypt.nonce), count)
            case None => frames == None
            case Some((expected, rest)) => frames == Some(expected) && framer.source.stream == rest
  {
    var received: seq<Frame> := [];
    ghost var aead, maxFrame := framer.decrypt.aead, framer.maxFrame;
    ghost var all := ReceiveAll(aead, framer.source.stream, maxFrame, framer.decrypt.nonce, count);
    NothingReceivedYet(all);
    var i := 0;
    while i < count
      invariant 0 <= i <= count
      invariant all ==
                Behind(received, ReceiveAll(aead, framer.source.stream, maxFrame, framer.decrypt.nonce, count - i))
    {
      ghost var stream, nonce := framer.source.stream, framer.decrypt.nonce;
      ghost var read := ParseFrame(aead, nonce, stream, maxFrame);
      var frame := framer.ReadFrame();
      if frame.Err? { return None; }
      BehindOneMore(received, frame.value, ReceiveAll(aead, read.rest, maxFrame, nonce + 1, count - i - 1));
      received := received + [frame.value];
      i := i + 1;
    }
    assert received + [] == received;
    return Some(received);
  }

  // Frames received so far in front of those still to come.
  function Behind(received: seq<Frame>, more: Option<(seq<Frame>, seq<Byte>)>): Option<(seq<Frame>, seq<Byte>)> {
    match more
    case None => None
    case Some((frames, rest)) => Some((received + frames, rest))
  }

  lemma NothingReceivedYet(all: Option<(seq<Frame>, seq<Byte>)>)
    ensures Behind([], all) == all
  {
    match all
    case None =>
    case Some((frames, _)) => assert [] + frames == frames;
  }

  lemma BehindOneMore(received: seq<Frame>, frame: Frame, more: Option<(seq<Frame>, seq<Byte>)>)
    ensures Behind(received, Behind([frame], more)) == Behind(received + [frame], more)
  {
    match more
    case None =>
    case Some((frames, _)) => assert received + ([frame] + frames) == (received + [frame]) + frames;
  }

  // A session from its start: both sides count their nonces from zero, the connection takes
  // as little at a time as it likes, and exactly the frames not refused arrive, in order,
  // unless a write fails or takes nothing.
  method Exchange(aead: Aead, frames: seq<Frame>, sendMax: int, receiveMax: int, takes: nat -> nat,
                  fails: nat -> bool, behind: seq<Byte>)
      returns (failed: bool, received: Option<seq<Frame>>, left: seq<Byte>)
    requires Sound(aead)
    requires forall i | 0 <= i < |frames| ::
               |frames[i].payload| <= ClampMaxFrame(sendMax) ==> |frames[i].payload| <= ClampMaxFrame(receiveMax)
    ensures !failed ==> received == Some(Accepted(frames, ClampMaxFrame(sendMax), 0)) && left == behind
    ensures failed ==> exists k :: fails(k) || takes(k) == 0
  {
    var sink := new Sink(takes, fails);
    var nothing := new Source([]);
    var sealing := new CipherState(aead);
    var idle := new CipherState(aead);
    var sender := new NoiseFramer(sink, nothing, sealing, idle, sendMax);
    received, left := None, [];
    var accepted;
    accepted, failed := SendFrames(sender, frames);
    if failed {
      assert fails(sink.writes - 1) || takes(sink.writes - 1) == 0;
      return;
    }
    assert sink.out == SendAll(aead, frames, sender.maxFrame, 0);
    var source := new Source(sink.out + behind);
    var opening := new CipherState(aead);
    var unused := new CipherState(aead);
    var receiver := new NoiseFramer(sink, source, unused, opening, receiveMax);
    SessionRoundTrip(aead, frames, sender.maxFrame, receiver.maxFrame, 0, behind);
    received := ReceiveFrames(receiver, |accepted|);
    left := source.stream;
  }
}
