// Names in mDNS messages (internal/mdns/dns.go): the canonical form, the printer and
// the parser with compression pointers, section 4.1.4 of RFC 1035. Names are bytes, of
// any value: how bytes outside ASCII change case is left open.
module DnsNames {
  import opened Common

  type Name = seq<Byte>

  const DOT: Byte := 46
  const MAX_JUMPS := 16
  const MAX_LENGTH := 254
  const MAX_STEPS := 144

  // ---------- Text ----------

  // How texts are lower-cased and compared without case: strings.ToLower and
  // strings.EqualFold, of which only the effect on ASCII is known here.
  datatype Folding = Folding(lower: Name -> Name, same: (Name, Name) -> bool)

  predicate Ascii(s: Name) {
    forall i | 0 <= i < |s| :: s[i] < 128
  }

  ghost predicate FoldsAscii(f: Folding) {
    && (forall s: Name | Ascii(s) :: f.lower(s) == ToLower(s))
    && (forall a: Name, b: Name | Ascii(a) && Ascii(b) :: f.same(a, b) == (ToLower(a) == ToLower(b)))
  }

  function LowerByte(b: Byte): Byte {
    if 65 <= b <= 90 then b + 32 else b
  }

  function ToLower(s: Name): (r: Name)
    ensures |r| == |s|
  {
    seq(|s|, i requires 0 <= i < |s| => LowerByte(s[i]))
  }

  function TrimDot(s: Name): Name {
    if s != [] && s[|s| - 1] == DOT then s[..|s| - 1] else s
  }

  function CanonicalName(f: Folding, s: Name): Name {
    f.lower(TrimDot(s)) + [DOT]
  }

  // The parts of a text between its dots.
  function Split(s: Name): (r: seq<Name>)
    ensures |r| > 0
  {
    if s == [] then [[]]
    else if s[0] == DOT then [[]] + Split(s[1..])
    else [[s[0]] + Split(s[1..])[0]] + Split(s[1..])[1..]
  }

  function Join(labels: seq<Name>): Name {
    if labels == [] then []
    else if |labels| == 1 then labels[0]
    else labels[0] + [DOT] + Join(labels[1..])
  }

  lemma {:induction false} JoinSplit(s: Name)
    ensures Join(Split(s)) == s
  {
    if s == [] {
    } else {
      JoinSplit(s[1..]);
      var rest := Split(s[1..]);
      if s[0] == DOT {
        assert Split(s)[1..] == rest;
      } else {
        assert Split(s)[1..] == rest[1..];
        assert s == [s[0]] + s[1..];
      }
    }
  }

  // ---------- The printer ----------

  predicate LabelsOk(labels: seq<Name>) {
    forall i | 0 <= i < |labels| :: 0 < |labels[i]| <= 63
  }

  // Length-prefixed labels and the root byte.
  function Encode(labels: seq<Name>): (r: seq<Byte>)
    requires LabelsOk(labels)
  {
    if labels == [] then [0] else [|labels[0]| as Byte] + labels[0] + Encode(labels[1..])
  }

  // The octets a name takes on the wire, without the root byte.
  function WireLength(labels: seq<Name>): nat {
    if labels == [] then 0 else |labels[0]| + 1 + WireLength(labels[1..])
  }

  datatype NameError = NameTooLong | Malformed

  function EncodeName(name: Name): Result<seq<Byte>, NameError> {
    var trimmed := TrimDot(name);
    if trimmed == [] then Ok([0])
    else if |trimmed| > 253 then Err(NameTooLong)
    else if LabelsOk(Split(trimmed)) then Ok(Encode(Split(trimmed)))
    else Err(NameTooLong)
  }

  // The same without the root byte.
  function EncodeBody(labels: seq<Name>): (r: seq<Byte>)
    requires LabelsOk(labels)
  {
    if labels == [] then [] else [|labels[0]| as Byte] + labels[0] + EncodeBody(labels[1..])
  }

  lemma {:induction false} EncodeIsBody(labels: seq<Name>)
    requires LabelsOk(labels)
    ensures Encode(labels) == EncodeBody(labels) + [0]
  {
    if labels == [] {
    } else {
      assert LabelsOk(labels[1..]);
      EncodeIsBody(labels[1..]);
      var first := [|labels[0]| as Byte] + labels[0];
      assert first + (EncodeBody(labels[1..]) + [0]) == (first + EncodeBody(labels[1..])) + [0];
    }
  }

  lemma {:induction false} BodyAppend(labels: seq<Name>, part: Name)
    requires LabelsOk(labels) && 0 < |part| <= 63
    ensures LabelsOk(labels + [part])
    ensures EncodeBody(labels + [part]) == EncodeBody(labels) + ([|part| as Byte] + part)
  {
    if labels == [] {
      assert EncodeBody([part]) == [|part| as Byte] + part + EncodeBody([]);
      assert labels + [part] == [part];
    } else {
      assert LabelsOk(labels[1..]);
      BodyAppend(labels[1..], part);
      assert (labels + [part])[1..] == labels[1..] + [part];
      var first, last := [|labels[0]| as Byte] + labels[0], [|part| as Byte] + part;
      assert first + (EncodeBody(labels[1..]) + last) == (first + EncodeBody(labels[1..])) + last;
    }
  }

  // appendName: the labels are appended one by one, and the first bad one ends it.
  method AppendName(dst: seq<Byte>, name: Name) returns (r: Result<seq<Byte>, NameError>)
    ensures EncodeName(name).Ok? ==> r == Ok(dst + EncodeName(name).value)
    ensures EncodeName(name).Err? ==> r == Err(NameTooLong)
  {
    var trimmed := TrimDot(name);
    if trimmed == [] { return Ok(dst + [0]); }
    if |trimmed| > 253 { return Err(NameTooLong); }
    var labels := Split(trimmed);
    var out := dst;
    var i := 0;
    while i < |labels|
      invariant 0 <= i <= |labels| && LabelsOk(labels[..i])
      invariant out == dst + EncodeBody(labels[..i])
    {
      var part := labels[i];
      if |part| == 0 || |part| > 63 { return Err(NameTooLong); }
      BodyAppend(labels[..i], part);
      assert labels[..i] + [part] == labels[..i + 1];
      out := out + [|part| as Byte];
      out := out + part;
      i := i + 1;
    }
    assert labels[..i] == labels;
    EncodeIsBody(labels);
    assert dst + (EncodeBody(labels) + [0]) == out + [0];
    return Ok(out + [0]);
  }

  // ---------- The parser ----------

  function Pointer(message: seq<Byte>, offset: nat): nat
    requires offset + 1 < |message| && message[offset] >= 192
  {
    (message[offset] as int - 192) * 256 + message[offset + 1]
  }

  // The labels of the name at an offset, within a budget of jumps and of octets.
  function Labels(message: seq<Byte>, offset: nat, jumps: nat, budget: nat): Option<seq<Name>>
    decreases jumps, budget, |message|
  {
    if offset >= |message| then None
    else
      var length := message[offset] as int;
      if length == 0 then Some([])
      else if length >= 192 then
        if offset + 1 >= |message| || jumps == 0 || Pointer(message, offset) >= |message| then None
        else Labels(message, Pointer(message, offset), jumps - 1, budget)
      else if length > 63 || offset + 1 + length > |message| || length + 1 > budget then None
      else
        Prefixed([message[offset + 1..offset + 1 + length]],
                 Labels(message, offset + 1 + length, jumps, budget - (length + 1)))
  }

  // Where the name that starts at an offset ends: behind its root byte or its first
  // pointer.
  function NextOf(message: seq<Byte>, offset: nat): nat
    decreases |message| - offset
  {
    if offset >= |message| || message[offset] == 0 then offset + 1
    else if message[offset] >= 192 then offset + 2
    else NextOf(message, offset + 1 + message[offset] as int)
  }

  // The loop iterations readName spends, including the one that fails.
  function Steps(message: seq<Byte>, offset: nat, jumps: nat, budget: nat): nat
    decreases jumps, budget, |message|
  {
    if offset >= |message| then 1
    else
      var length := message[offset] as int;
      if length == 0 then 1
      else if length >= 192 then
        if offset + 1 >= |message| || jumps == 0 || Pointer(message, offset) >= |message| then 1
        else 1 + Steps(message, Pointer(message, offset), jumps - 1, budget)
      else if length > 63 || offset + 1 + length > |message| || length + 1 > budget then 1
      else 1 + Steps(message, offset + 1 + length, jumps, budget - (length + 1))
  }

  // Jumps and octets both run out: no message, cyclic or not, takes more iterations.
  lemma {:induction false} StepsBounded(message: seq<Byte>, offset: nat, jumps: nat, budget: nat)
    ensures Steps(message, offset, jumps, budget) <= jumps + budget / 2 + 1
    decreases jumps, budget
  {
    if offset < |message| {
      var length := message[offset] as int;
      if length == 0 {
      } else if length >= 192 {
        if offset + 1 < |message| && jumps > 0 && Pointer(message, offset) < |message| {
          StepsBounded(message, Pointer(message, offset), jumps - 1, budget);
        }
      } else if length <= 63 && offset + 1 + length <= |message| && length + 1 <= budget {
        StepsBounded(message, offset + 1 + length, jumps, budget - (length + 1));
      }
    }
  }

  datatype Parsed = Parsed(name: Name, next: nat)

  function ReadNameAt(f: Folding, message: seq<Byte>, start: nat): Option<Parsed> {
    if start >= |message| then None
    else
      var labels := Labels(message, start, MAX_JUMPS, MAX_LENGTH);
      if labels.None? then None else Some(Parsed(CanonicalName(f, Join(labels.value)), NextOf(message, start)))
  }

  lemma {:induction false} NextInside(message: seq<Byte>, offset: nat, jumps: nat, budget: nat)
    requires Labels(message, offset, jumps, budget).Some?
    ensures offset < NextOf(message, offset) <= |message|
    decreases |message| - offset
  {
    var length := message[offset] as int;
    if length == 0 || length >= 192 {
    } else {
      NextInside(message, offset + 1 + length, jumps, budget - (length + 1));
    }
  }

  // readName itself. It counts its iterations for the bound.
  method ReadName(f: Folding, message: seq<Byte>, start: int) returns (r: Result<Parsed, NameError>, ghost steps: nat)
    ensures start < 0 ==> r == Err(Malformed)
    ensures start >= 0 ==> r == match ReadNameAt(f, message, start)
                                case None => Err(Malformed)
                                case Some(parsed) => Ok(parsed)
    ensures steps <= MAX_STEPS
    ensures r.Ok? ==> start < r.value.next <= |message|
  {
    steps := 0;
    if start < 0 || start >= |message| { return Err(Malformed), 0; }
    var labels: seq<Name> := [];
    var offset: nat := start;
    var next := -1;
    var jumps := 0;
    var nameLength := 0;
    StepsBounded(message, start, MAX_JUMPS, MAX_LENGTH);
    PrefixedAppend([], [], Labels(message, start, MAX_JUMPS, MAX_LENGTH));
    while true
      invariant 0 <= jumps <= MAX_JUMPS && 0 <= nameLength <= MAX_LENGTH
      invariant steps + Steps(message, offset, MAX_JUMPS - jumps, MAX_LENGTH - nameLength)
                == Steps(message, start, MAX_JUMPS, MAX_LENGTH)
      invariant Labels(message, start, MAX_JUMPS, MAX_LENGTH)
                == Prefixed(labels, Labels(message, offset, MAX_JUMPS - jumps, MAX_LENGTH - nameLength))
      invariant if next < 0 then NextOf(message, start) == NextOf(message, offset)
                else next == NextOf(message, start)
      decreases MAX_JUMPS - jumps, MAX_LENGTH - nameLength
    {
      steps := steps + 1;
      if offset >= |message| { return Err(Malformed), steps; }
      var length := message[offset] as int;
      if length == 0 {
        if next < 0 { next := offset + 1; }
        NextInside(message, start, MAX_JUMPS, MAX_LENGTH);
        assert labels + [] == labels;
        return Ok(Parsed(CanonicalName(f, Join(labels)), next)), steps;
      } else if length >= 192 {
        if offset + 1 >= |message| || jumps >= MAX_JUMPS { return Err(Malformed), steps; }
        var pointer := Pointer(message, offset);
        if pointer >= |message| { return Err(Malformed), steps; }
        if next < 0 { next := offset + 2; }
        offset := pointer;
        jumps := jumps + 1;
      } else if length > 63 {
        return Err(Malformed), steps;
      } else {
        offset := offset + 1;
        if offset + length > |message| { return Err(Malformed), steps; }
        nameLength := nameLength + length + 1;
        if nameLength > MAX_LENGTH { return Err(Malformed), steps; }
        PrefixedAppend(labels, [message[offset..offset + length]],
                       Labels(message, offset + length, MAX_JUMPS - jumps, MAX_LENGTH - nameLength));
        labels := labels + [message[offset..offset + length]];
        offset := offset + length;
      }
    }
  }
}
