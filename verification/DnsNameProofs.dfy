// What readName accepts, said without reference to how it runs; its bounds; and that it
// reads back every name appendName writes.
module DnsNameProofs {
  import opened Common
  import opened DnsNames

  // ---------- Compressed names, declaratively ----------

  predicate IsRoot(message: seq<Byte>, offset: nat) {
    offset < |message| && message[offset] == 0
  }

  predicate IsLabel(message: seq<Byte>, offset: nat) {
    offset < |message| && 0 < message[offset] <= 63 && offset + 1 + message[offset] as int <= |message|
  }

  predicate IsPointer(message: seq<Byte>, offset: nat) {
    offset + 1 < |message| && message[offset] >= 192 && Pointer(message, offset) < |message|
  }

  function Follow(message: seq<Byte>, offset: nat): nat
    requires IsLabel(message, offset) || IsPointer(message, offset)
  {
    if message[offset] >= 192 then Pointer(message, offset) else offset + 1 + message[offset] as int
  }

  // The offsets a name occupies: labels and pointers, each leading to the next, and a
  // root byte at the end.
  ghost predicate IsPath(message: seq<Byte>, hops: seq<nat>) {
    && hops != []
    && IsRoot(message, hops[|hops| - 1])
    && forall i | 0 <= i < |hops| - 1 ::
         (IsLabel(message, hops[i]) || IsPointer(message, hops[i])) && hops[i + 1] == Follow(message, hops[i])
  }

  function Jumps(message: seq<Byte>, hops: seq<nat>): nat {
    if hops == [] then 0 else (if IsPointer(message, hops[0]) then 1 else 0) + Jumps(message, hops[1..])
  }

  function LabelsOn(message: seq<Byte>, hops: seq<nat>): seq<Name> {
    if hops == [] then []
    else (if IsLabel(message, hops[0]) then [message[hops[0] + 1..hops[0] + 1 + message[hops[0]] as int]] else [])
         + LabelsOn(message, hops[1..])
  }

  // A name within its budgets is a path that jumps at most that often and is at most
  // that long: both directions.
  lemma {:induction false} NameHasPath(message: seq<Byte>, offset: nat, jumps: nat, budget: nat)
      returns (hops: seq<nat>)
    requires Labels(message, offset, jumps, budget).Some?
    ensures IsPath(message, hops) && hops[0] == offset
    ensures LabelsOn(message, hops) == Labels(message, offset, jumps, budget).value
    ensures Jumps(message, hops) <= jumps && WireLength(LabelsOn(message, hops)) <= budget
    ensures |hops| == Steps(message, offset, jumps, budget)
    decreases jumps, budget
  {
    var length := message[offset] as int;
    if length == 0 {
      hops := [offset];
    } else {
      var rest;
      if length >= 192 {
        rest := NameHasPath(message, Pointer(message, offset), jumps - 1, budget);
      } else {
        rest := NameHasPath(message, offset + 1 + length, jumps, budget - (length + 1));
      }
      hops := [offset] + rest;
      PathCons(message, offset, rest);
    }
  }

  lemma PathCons(message: seq<Byte>, offset: nat, rest: seq<nat>)
    requires IsPath(message, rest) && (IsLabel(message, offset) || IsPointer(message, offset))
    requires rest[0] == Follow(message, offset)
    ensures IsPath(message, [offset] + rest)
    ensures ([offset] + rest)[1..] == rest
  {
    var hops := [offset] + rest;
    assert forall i | 0 < i < |hops| :: hops[i] == rest[i - 1];
  }

  lemma {:induction false} PathIsName(message: seq<Byte>, hops: seq<nat>, jumps: nat, budget: nat)
    requires IsPath(message, hops)
    requires Jumps(message, hops) <= jumps && WireLength(LabelsOn(message, hops)) <= budget
    ensures Labels(message, hops[0], jumps, budget) == Some(LabelsOn(message, hops))
    decreases |hops|
  {
    if |hops| == 1 {
      assert LabelsOn(message, hops) == [] + LabelsOn(message, []);
    } else {
      var rest := hops[1..];
      assert forall i | 0 <= i < |rest| :: rest[i] == hops[i + 1];
      assert IsPath(message, rest);
      if IsPointer(message, hops[0]) {
        assert LabelsOn(message, hops) == LabelsOn(message, rest);
        PathIsName(message, rest, jumps - 1, budget);
      } else {
        var first := message[hops[0] + 1..hops[0] + 1 + message[hops[0]] as int];
        assert LabelsOn(message, hops) == [first] + LabelsOn(message, rest);
        assert ([first] + LabelsOn(message, rest))[1..] == LabelsOn(message, rest);
        PathIsName(message, rest, jumps, budget - |first| - 1);
      }
    }
  }

  // readName succeeds exactly on the offsets from which a path of at most 16 jumps and
  // 254 octets leads to a root byte, and returns the labels on that path.
  lemma ReadNameMeansPath(f: Folding, message: seq<Byte>, start: nat, name: Name)
    requires start < |message|
    ensures (ReadNameAt(f, message, start).Some? && ReadNameAt(f, message, start).value.name == name)
            <==> exists hops :: IsPath(message, hops) && hops[0] == start
                                && Jumps(message, hops) <= MAX_JUMPS
                                && WireLength(LabelsOn(message, hops)) <= MAX_LENGTH
                                && CanonicalName(f, Join(LabelsOn(message, hops))) == name
  {
    if ReadNameAt(f, message, start).Some? {
      var hops := NameHasPath(message, start, MAX_JUMPS, MAX_LENGTH);
    }
    forall hops | IsPath(message, hops) && hops[0] == start && Jumps(message, hops) <= MAX_JUMPS
                  && WireLength(LabelsOn(message, hops)) <= MAX_LENGTH
      ensures ReadNameAt(f, message, start).Some?
      ensures ReadNameAt(f, message, start).value.name == CanonicalName(f, Join(LabelsOn(message, hops)))
    {
      PathIsName(message, hops, MAX_JUMPS, MAX_LENGTH);
    }
  }

  // ---------- Bounds ----------

  lemma {:induction false} JoinLength(labels: seq<Name>)
    requires labels != []
    ensures |Join(labels)| + 1 == WireLength(labels)
  {
    if |labels| > 1 {
      JoinLength(labels[1..]);
    } else {
      assert WireLength(labels[1..]) == 0;
    }
  }

  predicate AsciiLabels(labels: seq<Name>) {
    forall i | 0 <= i < |labels| :: Ascii(labels[i])
  }

  lemma {:induction false} JoinAscii(labels: seq<Name>)
    requires AsciiLabels(labels)
    ensures Ascii(Join(labels))
  {
    if |labels| <= 1 {
    } else {
      JoinAscii(labels[1..]);
    }
  }

  // A name that was read ends inside the message. Its labels with their dots take at most
  // 254 bytes; so does the name itself if they are ASCII, which changing case keeps as long.
  lemma ReadNameBounds(f: Folding, message: seq<Byte>, start: nat)
    requires ReadNameAt(f, message, start).Some?
    ensures start < ReadNameAt(f, message, start).value.next <= |message|
    ensures var labels := Labels(message, start, MAX_JUMPS, MAX_LENGTH).value;
            && |TrimDot(Join(labels)) + [DOT]| <= MAX_LENGTH
            && (FoldsAscii(f) && AsciiLabels(labels) ==> 1 <= |ReadNameAt(f, message, start).value.name| <= MAX_LENGTH)
  {
    NextInside(message, start, MAX_JUMPS, MAX_LENGTH);
    var hops := NameHasPath(message, start, MAX_JUMPS, MAX_LENGTH);
    var labels := LabelsOn(message, hops);
    if labels != [] { JoinLength(labels); }
    if AsciiLabels(labels) { JoinAscii(labels); }
  }

  // The bound holds of the name, however text outside ASCII changes case, exactly if the
  // labels are ASCII: for any others there is a folding that makes the name too long.
  lemma AsciiIsExact(message: seq<Byte>, start: nat)
    requires Labels(message, start, MAX_JUMPS, MAX_LENGTH).Some?
    ensures var labels := Labels(message, start, MAX_JUMPS, MAX_LENGTH).value;
            (forall f | FoldsAscii(f) ::
               ReadNameAt(f, message, start).Some? && |ReadNameAt(f, message, start).value.name| <= MAX_LENGTH)
            <==> Ascii(Join(labels))
  {
    var joined := Join(Labels(message, start, MAX_JUMPS, MAX_LENGTH).value);
    if Ascii(joined) {
      forall f | FoldsAscii(f)
        ensures ReadNameAt(f, message, start).Some? && |ReadNameAt(f, message, start).value.name| <= MAX_LENGTH
      {
        ReadNameBounds(f, message, start);
        assert f.lower(TrimDot(joined)) == ToLower(TrimDot(joined));
      }
    } else {
      var k :| 0 <= k < |joined| && joined[k] >= 128;
      assert TrimDot(joined)[k] == joined[k];
      assert FoldsAscii(LENGTHENING);
      assert |LENGTHENING.lower(TrimDot(joined))| > MAX_LENGTH;
    }
  }

  function Lengthened(s: Name): Name {
    if Ascii(s) then ToLower(s) else s + seq(MAX_LENGTH, _ => 255)
  }

  const LENGTHENING := Folding(Lengthened, (a: Name, b: Name) => Lengthened(a) == Lengthened(b))

  // strings.ToLower itself lengthens: each byte 255, which occurs in no valid text, becomes
  // the three bytes of the replacement character. (Of other bytes outside ASCII this is
  // right when they form no valid text either.)
  function Repaired(s: Name): Name {
    if s == [] then []
    else (if s[0] < 128 then [LowerByte(s[0])] else [239, 191, 189]) + Repaired(s[1..])
  }

  const REPAIRING := Folding(Repaired, (a: Name, b: Name) => Repaired(a) == Repaired(b))

  lemma {:induction false} RepairedAscii(s: Name)
    requires Ascii(s)
    ensures Repaired(s) == ToLower(s)
  {
    if s == [] {
    } else {
      RepairedAscii(s[1..]);
      assert ToLower(s) == [LowerByte(s[0])] + ToLower(s[1..]);
    }
  }

  // All but one byte of a text tripled.
  lemma {:induction false} RepairedLength(s: Name, dot: int)
    requires forall i | 0 <= i < |s| && i != dot :: s[i] >= 128
    ensures |Repaired(s)| >= 3 * |s| - (if 0 <= dot < |s| then 2 else 0)
  {
    if s == [] {
    } else {
      RepairedLength(s[1..], dot - 1);
    }
  }

  const WIDE_LABEL: seq<Byte> := seq(63, _ => 255)

  // Two labels of 63 such bytes are read as a name of more than 254.
  lemma LongNamesAreRead()
    ensures FoldsAscii(REPAIRING)
    ensures var message := Encode([WIDE_LABEL, WIDE_LABEL]);
            && ReadNameAt(REPAIRING, message, 0).Some?
            && |ReadNameAt(REPAIRING, message, 0).value.name| > MAX_LENGTH
  {
    forall s: Name | Ascii(s) ensures Repaired(s) == ToLower(s) { RepairedAscii(s); }
    WideLabelsAreRead();
    WideName(Join([WIDE_LABEL, WIDE_LABEL]));
  }

  lemma WideLabelsAreRead()
    ensures var labels := [WIDE_LABEL, WIDE_LABEL];
            Encode(labels) != [] && Labels(Encode(labels), 0, MAX_JUMPS, MAX_LENGTH) == Some(labels)
  {
    var labels := [WIDE_LABEL, WIDE_LABEL];
    var message := Encode(labels);
    assert labels[1..] == [WIDE_LABEL];
    assert WireLength([WIDE_LABEL]) == 64 + WireLength([]);
    assert message[0..|message|] == message;
    ReadEncoded(message, 0, labels, MAX_JUMPS, MAX_LENGTH);
  }

  lemma WideName(joined: Name)
    requires joined == Join([WIDE_LABEL, WIDE_LABEL])
    ensures |Repaired(TrimDot(joined))| > MAX_LENGTH
  {
    assert [WIDE_LABEL, WIDE_LABEL][1..] == [WIDE_LABEL];
    assert Join([WIDE_LABEL]) == WIDE_LABEL;
    assert joined == WIDE_LABEL + [DOT] + WIDE_LABEL;
    assert joined[126] == 255 && TrimDot(joined) == joined;
    RepairedLength(joined, 63);
  }

  // A pointer to itself is refused, as is any name no path of which ends.
  lemma SelfPointerIsRefused(f: Folding, message: seq<Byte>, start: nat)
    requires IsPointer(message, start) && Pointer(message, start) == start
    ensures ReadNameAt(f, message, start) == None
  {
    SelfPointerNeverEnds(message, start, MAX_JUMPS);
  }

  lemma {:induction false} SelfPointerNeverEnds(message: seq<Byte>, start: nat, jumps: nat)
    requires IsPointer(message, start) && Pointer(message, start) == start
    ensures Labels(message, start, jumps, MAX_LENGTH) == None
  {
    if jumps == 0 {
    } else {
      SelfPointerNeverEnds(message, start, jumps - 1);
    }
  }

  // ---------- Reading back what was written ----------

  predicate WrittenAt(message: seq<Byte>, offset: nat, bytes: seq<Byte>) {
    offset + |bytes| <= |message| && message[offset..offset + |bytes|] == bytes
  }

  lemma WrittenParts(message: seq<Byte>, offset: nat, a: seq<Byte>, b: seq<Byte>)
    requires WrittenAt(message, offset, a + b)
    ensures WrittenAt(message, offset, a) && WrittenAt(message, offset + |a|, b)
  {
    var written := message[offset..offset + |a + b|];
    assert message[offset..offset + |a|] == written[..|a|] == a;
    assert message[offset + |a|..offset + |a| + |b|] == written[|a|..] == b;
  }

  lemma EncodeCons(labels: seq<Name>)
    requires LabelsOk(labels) && labels != []
    ensures LabelsOk(labels[1..])
    ensures Encode(labels) == [|labels[0]| as Byte] + (labels[0] + Encode(labels[1..]))
  {
  }

  // One written label is read as that label, and the rest behind it.
  lemma ReadLabel(message: seq<Byte>, offset: nat, part: Name, jumps: nat, budget: nat)
    requires 0 < |part| <= 63 && |part| + 1 <= budget
    requires WrittenAt(message, offset, [|part| as Byte]) && WrittenAt(message, offset + 1, part)
    ensures Labels(message, offset, jumps, budget)
            == Prefixed([part], Labels(message, offset + 1 + |part|, jumps, budget - (|part| + 1)))
    ensures NextOf(message, offset) == NextOf(message, offset + 1 + |part|)
  {
    assert message[offset..offset + 1][0] == |part| as Byte;
  }

  lemma ReadCons(message: seq<Byte>, offset: nat, part: Name, others: seq<Name>, jumps: nat, budget: nat)
    requires LabelsOk(others) && 0 < |part| <= 63 && |part| + 1 <= budget
    requires WrittenAt(message, offset, [|part| as Byte] + (part + Encode(others)))
    ensures WrittenAt(message, offset + 1 + |part|, Encode(others))
    ensures Labels(message, offset, jumps, budget)
            == Prefixed([part], Labels(message, offset + 1 + |part|, jumps, budget - (|part| + 1)))
    ensures NextOf(message, offset) == NextOf(message, offset + 1 + |part|)
  {
    WrittenParts(message, offset, [|part| as Byte], part + Encode(others));
    WrittenParts(message, offset + 1, part, Encode(others));
    ReadLabel(message, offset, part, jumps, budget);
  }

  lemma {:induction false} ReadEncoded(message: seq<Byte>, offset: nat, labels: seq<Name>, jumps: nat, budget: nat)
    requires LabelsOk(labels) && WireLength(labels) <= budget
    requires WrittenAt(message, offset, Encode(labels))
    ensures Labels(message, offset, jumps, budget) == Some(labels)
    ensures NextOf(message, offset) == offset + |Encode(labels)|
    decreases |labels|
  {
    if labels == [] {
      assert message[offset..offset + 1][0] == 0;
    } else {
      var part, others := labels[0], labels[1..];
      EncodeCons(labels);
      assert |Encode(labels)| == 1 + |part| + |Encode(others)|;
      ReadCons(message, offset, part, others, jumps, budget);
      ReadEncoded(message, offset + 1 + |part|, others, jumps, budget - (|part| + 1));
      assert [part] + others == labels;
    }
  }

  lemma {:induction false} SplitLength(s: Name)
    ensures WireLength(Split(s)) == |s| + 1
  {
    if s == [] {
      assert WireLength([[]]) == 1 + WireLength([]);
    } else {
      SplitLength(s[1..]);
      var rest := Split(s[1..]);
      if s[0] == DOT {
        assert Split(s)[1..] == rest;
      } else {
        assert Split(s)[1..] == rest[1..];
      }
    }
  }

  // A text that ends in a dot has an empty last part.
  lemma {:induction false} SplitLast(s: Name)
    requires s != [] && s[|s| - 1] == DOT
    ensures Split(s)[|Split(s)| - 1] == [] && |Split(s)| > 1
  {
    if |s| == 1 {
      assert Split(s[1..]) == [[]];
    } else {
      var rest := Split(s[1..]);
      SplitLast(s[1..]);
      if s[0] == DOT {
        assert Split(s)[|rest|] == rest[|rest| - 1];
      } else {
        assert Split(s)[|rest| - 1] == rest[1..][|rest| - 2];
      }
    }
  }

  lemma {:induction false} EncodeLength(labels: seq<Name>)
    requires LabelsOk(labels)
    ensures |Encode(labels)| == WireLength(labels) + 1
  {
    if labels == [] {
    } else {
      assert LabelsOk(labels[1..]);
      EncodeLength(labels[1..]);
    }
  }

  lemma LowerTwice(s: Name)
    ensures ToLower(ToLower(s)) == ToLower(s)
  {
  }

  // The labels appendName writes for an acceptable name.
  function NameLabels(name: Name): (r: seq<Name>)
    requires EncodeName(name).Ok?
    ensures LabelsOk(r)
  {
    if TrimDot(name) == [] then [] else Split(TrimDot(name))
  }

  lemma EncodedName(name: Name)
    requires EncodeName(name).Ok?
    ensures EncodeName(name).value == Encode(NameLabels(name))
    ensures WireLength(NameLabels(name)) <= MAX_LENGTH
    ensures |EncodeName(name).value| <= MAX_LENGTH + 1
    ensures Join(NameLabels(name)) == TrimDot(name)
    ensures TrimDot(TrimDot(name)) == TrimDot(name)
  {
    var trimmed := TrimDot(name);
    EncodeLength(NameLabels(name));
    if trimmed != [] {
      SplitLength(trimmed);
      JoinSplit(trimmed);
      if trimmed[|trimmed| - 1] == DOT { SplitLast(trimmed); }
    }
  }

  // The round trip: wherever the canonical form of an ASCII host is written, reading there
  // gives the canonical form and stops right behind it.
  lemma CanonicalNameReadsBack(f: Folding, host: Name, message: seq<Byte>, start: nat)
    requires FoldsAscii(f) && Ascii(host)
    requires EncodeName(CanonicalName(f, host)).Ok?
    requires WrittenAt(message, start, EncodeName(CanonicalName(f, host)).value)
    ensures ReadNameAt(f, message, start)
            == Some(Parsed(CanonicalName(f, host), start + |EncodeName(CanonicalName(f, host)).value|))
  {
    var name := CanonicalName(f, host);
    EncodedName(name);
    ReadEncoded(message, start, NameLabels(name), MAX_JUMPS, MAX_LENGTH);
    CanonicalTwice(f, host);
  }

  // Without its dot a canonical name has itself as its canonical name.
  lemma CanonicalTwice(f: Folding, host: Name)
    requires FoldsAscii(f) && Ascii(host)
    ensures var name := CanonicalName(f, host);
            TrimDot(TrimDot(name)) == TrimDot(name) ==> CanonicalName(f, TrimDot(name)) == name
  {
    var name, lower := CanonicalName(f, host), ToLower(TrimDot(host));
    assert name == lower + [DOT];
    assert TrimDot(name) == lower;
    LowerTwice(TrimDot(host));
  }
}
