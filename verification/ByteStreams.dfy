// Both ends of a connection: one that may take fewer bytes than it is offered, with the
// loop that insists (writeFull in internal/wire/plain.go), and one that is read from.
module ByteStreams {
  import opened Common

  // How much each Write call takes at most, and which of them report an error, is up to the
  // connection.
  class Sink {
    const takes: nat -> nat
    const fails: nat -> bool
    var out: seq<Byte>            // every byte the connection has taken
    var writes: nat

    constructor (takes: nat -> nat, fails: nat -> bool)
      ensures out == [] && writes == 0 && this.takes == takes && this.fails == fails
    {
      this.takes := takes;
      this.fails := fails;
      out, writes := [], 0;
    }

    // Some prefix of the payload is taken, with or without an error, and without an error
    // possibly nothing at all.
    method Write(payload: seq<Byte>) returns (written: int, failed: bool)
      modifies this
      ensures written == if takes(old(writes)) < |payload| then takes(old(writes)) else |payload|
      ensures failed == fails(old(writes)) && writes == old(writes) + 1
      ensures out == old(out) + payload[..written]
    {
      written := if takes(writes) < |payload| then takes(writes) else |payload|;
      failed := fails(writes);
      writes := writes + 1;
      out := out + payload[..written];
    }

    // A write that ends an attempt to send: it reported an error or took nothing.
    predicate Faulty(write: nat) {
      fails(write) || takes(write) == 0
    }

    // All the writes made since then were good, but for the last one if there was an error.
    twostate predicate GoodUpTo(failed: bool)
      reads this
    {
      && old(writes) <= writes
      && (failed ==> old(writes) < writes && Faulty(writes - 1))
      && forall k | old(writes) <= k < (if failed then writes - 1 else writes) :: !Faulty(k)
    }
  }

  datatype WriteError = WriteFailed | NoProgress

  // The whole payload is handed over, in order, unless a write fails or takes nothing; then
  // that is the last one, and only a prefix of the payload is out.
  method WriteFull(sink: Sink, data: seq<Byte>) returns (error: Option<WriteError>)
    modifies sink
    ensures error.None? ==> sink.out == old(sink.out) + data
    ensures old(sink.out) <= sink.out <= old(sink.out) + data
    ensures sink.GoodUpTo(error.Some?)
    ensures error.Some? ==> error.value == if sink.fails(sink.writes - 1) then WriteFailed else NoProgress
  {
    var rest := data;
    while |rest| > 0
      invariant sink.out + rest == old(sink.out) + data
      invariant old(sink.out) <= sink.out
      invariant sink.GoodUpTo(false)
      decreases |rest|
    {
      var written, failed := sink.Write(rest);
      if failed { return Some(WriteFailed); }
      if written <= 0 { return Some(NoProgress); }
      rest := rest[written..];
    }
    return None;
  }

  // What the peer has sent, read from the front.
  class Source {
    var stream: seq<Byte>

    constructor (stream: seq<Byte>)
      ensures this.stream == stream
    {
      this.stream := stream;
    }

    method ReadByte() returns (b: Option<Byte>)
      modifies this
      ensures old(stream) == [] ==> b.None? && stream == []
      ensures old(stream) != [] ==> b == Some(old(stream)[0]) && stream == old(stream)[1..]
    {
      if stream == [] { return None; }
      b := Some(stream[0]);
      stream := stream[1..];
    }

    // io.ReadFull: everything asked for, or an error that uses up the stream.
    method ReadFull(count: nat) returns (data: Option<seq<Byte>>)
      modifies this
      ensures count <= |old(stream)| ==> data == Some(old(stream)[..count]) && stream == old(stream)[count..]
      ensures count > |old(stream)| ==> data == None && stream == []
    {
      if count > |stream| {
        stream := [];
        return None;
      }
      data := Some(stream[..count]);
      stream := stream[count..];
    }
  }
}
