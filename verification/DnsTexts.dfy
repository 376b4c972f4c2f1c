// Host names as texts, internal/mdns/dns.go: which ones can be written, as what, and which
// ones are the same host.
module DnsTexts {
  import opened Common
  import opened DnsNames
  import opened DnsNameProofs
  import opened DnsMessages

  // ---------- Case ----------

  predicate IsCapital(b: Byte) {
    'A' as int <= b <= 'Z' as int
  }

  // The same byte, or the two cases of one letter.
  predicate SameButForCase(a: Byte, b: Byte) {
    || a == b
    || (IsCapital(a) && b == a + 32)
    || (IsCapital(b) && a == b + 32)
  }

  predicate SameText(a: Name, b: Name) {
    |a| == |b| && forall i | 0 <= i < |a| :: SameButForCase(a[i], b[i])
  }

  lemma LoweredAreSame(a: Name, b: Name)
    ensures ToLower(a) == ToLower(b) <==> SameText(a, b)
  {
    if ToLower(a) == ToLower(b) {
      forall i | 0 <= i < |a| ensures SameButForCase(a[i], b[i]) {
        assert ToLower(a)[i] == ToLower(b)[i];
      }
    }
  }

  // Two ASCII hosts have one canonical name exactly if they differ in nothing but the case of
  // their letters and a dot at the end.
  lemma CanonicalNamesIgnoreCase(f: Folding, a: Name, b: Name)
    requires FoldsAscii(f) && Ascii(a) && Ascii(b)
    ensures CanonicalName(f, a) == CanonicalName(f, b) <==> SameText(TrimDot(a), TrimDot(b))
  {
    var lowerA, lowerB := ToLower(TrimDot(a)), ToLower(TrimDot(b));
    LoweredAreSame(TrimDot(a), TrimDot(b));
    assert CanonicalName(f, a) == lowerA + [DOT] && CanonicalName(f, b) == lowerB + [DOT];
    assert (lowerA + [DOT])[..|lowerA|] == lowerA && (lowerB + [DOT])[..|lowerB|] == lowerB;
  }

  // So that is when a response for one answers a question for the other.
  lemma ResponseAnswersIgnoringCase(f: Folding, host: Name, ip: seq<Byte>, asked: Name)
    requires FoldsAscii(f) && Ascii(host) && Ascii(asked)
    requires |ip| == 4 && Response(f, host, Some(ip)).Ok?
    ensures AnswerOf(f, Response(f, host, Some(ip)).value, asked)
            == if SameText(TrimDot(host), TrimDot(asked)) then Some(ip) else None
  {
    ResponseRoundTrip(f, host, ip, asked);
    CanonicalNamesIgnoreCase(f, asked, host);
    assert SameText(TrimDot(asked), TrimDot(host)) <==> SameText(TrimDot(host), TrimDot(asked));
  }

  // ---------- Labels ----------

  predicate NoDot(text: Name) {
    forall i | 0 <= i < |text| :: text[i] != DOT
  }

  predicate NoDots(labels: seq<Name>) {
    forall i | 0 <= i < |labels| :: NoDot(labels[i])
  }

  lemma {:induction false} SplitHasNoDots(s: Name)
    ensures NoDots(Split(s))
  {
    if s == [] {
    } else {
      SplitHasNoDots(s[1..]);
    }
  }

  // Splitting is the only way to cut a text into labels without dots.
  lemma {:induction false} SplitJoin(labels: seq<Name>)
    requires labels != [] && NoDots(labels)
    ensures Split(Join(labels)) == labels
    decreases |labels|, |labels[0]|
  {
    var first, rest := labels[0], labels[1..];
    if first != [] {
      var shorter := [first[1..]] + rest;
      assert NoDot(first) && NoDots(shorter);
      assert shorter[1..] == rest;
      SplitJoin(shorter);
      JoinHead(labels, shorter);
      assert [first[0]] + shorter[0] == first;
      assert [first] + rest == labels;
    } else if rest != [] {
      assert NoDots(rest);
      SplitJoin(rest);
      assert Join(labels) == [DOT] + Join(rest);
      assert (Join(labels))[1..] == Join(rest);
      assert [[]] + rest == labels;
    } else {
      assert labels == [[]];
    }
  }

  lemma JoinHead(labels: seq<Name>, shorter: seq<Name>)
    requires labels != [] && labels[0] != [] && shorter == [labels[0][1..]] + labels[1..]
    ensures Join(labels) != [] && Join(labels)[0] == labels[0][0] && Join(labels)[1..] == Join(shorter)
  {
    assert shorter[1..] == labels[1..];
    if |labels| > 1 {
      var tail := [DOT] + Join(labels[1..]);
      assert Join(labels) == labels[0] + tail;
      assert Join(shorter) == labels[0][1..] + tail;
      HeadAndTail(labels[0], tail);
    }
  }

  // ---------- Which names can be written ----------

  // One to 63 bytes in each label, none of them a dot.
  predicate Writable(labels: seq<Name>) {
    labels != [] && LabelsOk(labels) && NoDots(labels)
  }

  // A name can be written exactly if it is empty, or at most 253 bytes long and made of such
  // labels, dots between them; then it is written as those labels. A dot at its end counts
  // for nothing. Anything else is too long a name, whatever is wrong with it.
  lemma EncodedExactlyWhen(name: Name)
    ensures TrimDot(name) == [] ==> EncodeName(name) == Ok([0])
    ensures EncodeName(name).Ok?
       <==> TrimDot(name) == []
            || (|TrimDot(name)| <= 253 && exists labels :: Writable(labels) && Join(labels) == TrimDot(name))
    ensures forall labels | Writable(labels) && Join(labels) == TrimDot(name) && |TrimDot(name)| <= 253 ::
              EncodeName(name) == Ok(Encode(labels))
    ensures EncodeName(name).Err? ==> EncodeName(name) == Err(NameTooLong)
  {
    var trimmed := TrimDot(name);
    SplitHasNoDots(trimmed);
    JoinSplit(trimmed);
    forall labels | Writable(labels) && Join(labels) == trimmed && |trimmed| <= 253
      ensures EncodeName(name) == Ok(Encode(labels))
    {
      SplitJoin(labels);
      assert |labels[0]| > 0;
    }
    if EncodeName(name).Ok? && trimmed != [] { assert Writable(Split(trimmed)); }
  }
}
