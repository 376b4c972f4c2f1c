// The mDNS messages of internal/mdns/dns.go: queries and responses as they are built,
// and the two parsers, which never spend more than a fixed number of name steps.
module DnsMessages {
  import opened Common
  import opened DnsNames
  import opened DnsNameProofs

  const HEADER_SIZE := 12
  const MAX_MESSAGE := 9000
  const TYPE_A := 1
  const TYPE_AAAA := 28
  const CLASS_IN := 1
  const CACHE_FLUSH := 0x8000
  const RESPONSE_FLAGS := 0x8400
  const RECORD_TTL := 120
  const MAX_QUESTIONS := 64
  const MAX_RECORDS := 256

  datatype Question = Question(name: Name, qtype: nat, qclass: nat)

  datatype MessageError = NotIPv4 | BadName(error: NameError)

  function Header(flags: nat, questions: nat, answers: nat): (r: seq<Byte>)
    requires flags < 0x1_0000 && questions < 0x1_0000 && answers < 0x1_0000
    ensures |r| == HEADER_SIZE
  {
    [0, 0] + PutUint16(flags) + PutUint16(questions) + PutUint16(answers) + [0, 0, 0, 0]
  }

  function Query(f: Folding, host: Name): Result<seq<Byte>, MessageError> {
    var name := EncodeName(CanonicalName(f, host));
    if name.Err? then Err(BadName(name.error))
    else Ok(Header(0, 1, 0) + name.value + PutUint16(TYPE_A) + PutUint16(CLASS_IN))
  }

  // Everything of an A record behind its name.
  function RecordTail(ip: seq<Byte>): (r: seq<Byte>)
    requires |ip| == 4
    ensures |r| == 14
  {
    PutUint16(TYPE_A) + PutUint16(CLASS_IN + CACHE_FLUSH) + [0, 0] + PutUint16(RECORD_TTL) + PutUint16(4) + ip
  }

  // The address is the four bytes of net.IP.To4, when it has them.
  function Response(f: Folding, host: Name, ip: Option<seq<Byte>>): Result<seq<Byte>, MessageError>
    requires ip.Some? ==> |ip.value| == 4
  {
    var name := EncodeName(CanonicalName(f, host));
    if ip.None? then Err(NotIPv4)
    else if name.Err? then Err(BadName(name.error))
    else Ok(Header(RESPONSE_FLAGS, 0, 1) + name.value + RecordTail(ip.value))
  }

  // ---------- questions ----------

  function QuestionsFrom(f: Folding, message: seq<Byte>, offset: nat, count: nat): Option<seq<Question>>
    decreases count
  {
    if count == 0 then Some([])
    else
      var parsed := ReadNameAt(f, message, offset);
      if parsed.None? || parsed.value.next + 4 > |message| then None
      else
        var next := parsed.value.next;
        Prefixed([Question(parsed.value.name, Uint16(message, next), Uint16(message, next + 2))],
                 QuestionsFrom(f, message, next + 4, count - 1))
  }

  function QuestionsOf(f: Folding, message: seq<Byte>): Option<seq<Question>> {
    if |message| < HEADER_SIZE || Uint16(message, 4) > MAX_QUESTIONS then None
    else QuestionsFrom(f, message, HEADER_SIZE, Uint16(message, 4))
  }

  // questions: one entry per counted question, or nothing at all.
  method ParseQuestions(f: Folding, message: seq<Byte>) returns (r: Option<seq<Question>>)
    ensures r == QuestionsOf(f, message)
  {
    if |message| < HEADER_SIZE { return None; }
    var count := Uint16(message, 4);
    if count > MAX_QUESTIONS { return None; }
    var offset: nat := HEADER_SIZE;
    var result: seq<Question> := [];
    PrefixedAppend([], [], QuestionsFrom(f, message, offset, count));
    var i := 0;
    while i < count
      invariant 0 <= i <= count
      invariant QuestionsFrom(f, message, HEADER_SIZE, count) ==
                Prefixed(result, QuestionsFrom(f, message, offset, count - i))
    {
      var parsed, _ := ReadName(f, message, offset);
      if parsed.Err? || parsed.value.next + 4 > |message| { return None; }
      var next := parsed.value.next;
      var question := Question(parsed.value.name, Uint16(message, next), Uint16(message, next + 2));
      PrefixedAppend(result, [question], QuestionsFrom(f, message, next + 4, count - i - 1));
      result := result + [question];
      offset := next + 4;
      i := i + 1;
    }
    assert result + [] == result;
    return Some(result);
  }

  // ---------- answerIP ----------

  // Where the records start: behind as many questions as the header counts.
  function SkipQuestions(f: Folding, message: seq<Byte>, offset: nat, count: nat): Option<nat>
    decreases count
  {
    if count == 0 then Some(offset)
    else
      var parsed := ReadNameAt(f, message, offset);
      if parsed.None? || parsed.value.next + 4 > |message| then None
      else SkipQuestions(f, message, parsed.value.next + 4, count - 1)
  }

  // Class IN, with or without the cache-flush bit on top.
  predicate InternetClass(rclass: nat) {
    rclass == CLASS_IN || rclass == CLASS_IN + CACHE_FLUSH
  }

  predicate Matches(f: Folding, message: seq<Byte>, name: Name, next: nat, want: Name)
    requires next + 10 <= |message|
  {
    && InternetClass(Uint16(message, next + 2))
    && f.same(name, want)
    && (  (Uint16(message, next) == TYPE_A && Uint16(message, next + 8) == 4)
       || (Uint16(message, next) == TYPE_AAAA && Uint16(message, next + 8) == 16))
  }

  // What one record is to the search: unreadable, the answer, or to be passed over.
  datatype Record = Broken | Answering(data: seq<Byte>) | Passed(end: nat)

  function RecordAt(f: Folding, message: seq<Byte>, offset: nat, want: Name): (r: Record)
    ensures r.Answering? ==> |r.data| == 4 || |r.data| == 16
  {
    var parsed := ReadNameAt(f, message, offset);
    if parsed.None? || parsed.value.next + 10 > |message| then Broken
    else
      var next := parsed.value.next;
      var end := next + 10 + Uint16(message, next + 8);
      if end > |message| then Broken
      else if Matches(f, message, parsed.value.name, next, want) then Answering(message[next + 10..end])
      else Passed(end)
  }

  // The data of the first of the records that answers for the wanted name.
  function FindAnswer(f: Folding, message: seq<Byte>, offset: nat, count: nat, want: Name): Option<seq<Byte>>
    decreases count
  {
    if count == 0 then None
    else
      match RecordAt(f, message, offset, want)
      case Broken => None
      case Answering(data) => Some(data)
      case Passed(end) => FindAnswer(f, message, end, count - 1, want)
  }

  predicate WellCounted(message: seq<Byte>) {
    && HEADER_SIZE <= |message| <= MAX_MESSAGE
    && Uint16(message, 2) >= 0x8000
    && Uint16(message, 4) <= MAX_QUESTIONS
    && RecordCount(message) <= MAX_RECORDS
  }

  function RecordCount(message: seq<Byte>): nat
    requires HEADER_SIZE <= |message|
  {
    Uint16(message, 6) + Uint16(message, 8) + Uint16(message, 10)
  }

  function AnswerOf(f: Folding, message: seq<Byte>, host: Name): Option<seq<Byte>> {
    if !WellCounted(message) then None
    else
      var records := SkipQuestions(f, message, HEADER_SIZE, Uint16(message, 4));
      if records.None? then None
      else FindAnswer(f, message, records.value, RecordCount(message), CanonicalName(f, host))
  }

  method SkipAll(f: Folding, message: seq<Byte>, count: nat) returns (records: Option<nat>, ghost steps: nat)
    requires |message| >= HEADER_SIZE
    ensures records == SkipQuestions(f, message, HEADER_SIZE, count)
    ensures steps <= count * MAX_STEPS
  {
    steps := 0;
    var offset: nat := HEADER_SIZE;
    var i := 0;
    while i < count
      invariant 0 <= i <= count
      invariant SkipQuestions(f, message, HEADER_SIZE, count) == SkipQuestions(f, message, offset, count - i)
      invariant steps <= i * MAX_STEPS
    {
      var parsed, spent := ReadName(f, message, offset);
      steps := steps + spent;
      if parsed.Err? || parsed.value.next + 4 > |message| { return None, steps; }
      offset := parsed.value.next + 4;
      i := i + 1;
    }
    return Some(offset), steps;
  }

  // One turn of the record loop.
  method ReadRecord(f: Folding, message: seq<Byte>, offset: nat, want: Name) returns (record: Record, ghost steps: nat)
    ensures record == RecordAt(f, message, offset, want)
    ensures steps <= MAX_STEPS
  {
    var parsed, spent := ReadName(f, message, offset);
    steps := spent;
    if parsed.Err? || parsed.value.next + 10 > |message| { return Broken, steps; }
    var next := parsed.value.next;
    var recordType := Uint16(message, next);
    var recordClass := Uint16(message, next + 2) % 0x8000;
    var length := Uint16(message, next + 8);
    var at := next + 10;
    if at + length > |message| { return Broken, steps; }
    if recordClass == CLASS_IN && f.same(parsed.value.name, want) {
      if recordType == TYPE_A && length == 4 { return Answering(message[at..at + length]), steps; }
      if recordType == TYPE_AAAA && length == 16 { return Answering(message[at..at + length]), steps; }
    }
    return Passed(at + length), steps;
  }

  method Search(f: Folding, message: seq<Byte>, start: nat, count: nat, want: Name)
      returns (data: Option<seq<Byte>>, ghost steps: nat)
    ensures data == FindAnswer(f, message, start, count, want)
    ensures steps <= count * MAX_STEPS
    ensures data.Some? ==> |data.value| == 4 || |data.value| == 16
  {
    steps := 0;
    var offset: nat := start;
    var i := 0;
    while i < count
      invariant 0 <= i <= count
      invariant FindAnswer(f, message, start, count, want) == FindAnswer(f, message, offset, count - i, want)
      invariant steps <= i * MAX_STEPS
    {
      var record, spent := ReadRecord(f, message, offset, want);
      steps := steps + spent;
      match record {
        case Broken => return None, steps;
        case Answering(found) => return Some(found), steps;
        case Passed(end) => offset := end;
      }
      i := i + 1;
    }
    return None, steps;
  }

  // answerIP: its two loops in turn. On any input it spends at most (64 + 256) * 144 name
  // steps.
  method AnswerIP(f: Folding, message: seq<Byte>, host: Name) returns (ip: Option<seq<Byte>>, ghost steps: nat)
    ensures ip == AnswerOf(f, message, host)
    ensures steps <= (MAX_QUESTIONS + MAX_RECORDS) * MAX_STEPS
    ensures ip.Some? ==> |ip.value| == 4 || |ip.value| == 16
  {
    if |message| < HEADER_SIZE || |message| > MAX_MESSAGE { return None, 0; }
    if Uint16(message, 2) < 0x8000 { return None, 0; }
    var questionCount := Uint16(message, 4);
    var recordCount := Uint16(message, 6) + Uint16(message, 8) + Uint16(message, 10);
    if questionCount > MAX_QUESTIONS || recordCount > MAX_RECORDS { return None, 0; }
    var records, skipped := SkipAll(f, message, questionCount);
    if records.None? { return None, skipped; }
    ghost var searched;
    ip, searched := Search(f, message, records.value, recordCount, CanonicalName(f, host));
    steps := skipped + searched;
  }

  // ---------- Round trips ----------

  lemma HeaderFields(flags: nat, questions: nat, answers: nat, rest: seq<Byte>)
    requires flags < 0x1_0000 && questions < 0x1_0000 && answers < 0x1_0000
    ensures var m := Header(flags, questions, answers) + rest;
            && |m| == HEADER_SIZE + |rest|
            && Uint16(m, 2) == flags && Uint16(m, 4) == questions && Uint16(m, 6) == answers
            && Uint16(m, 8) == 0 && Uint16(m, 10) == 0
  {
  }

  // What query asks for a host it accepts is one question for its canonical name.
  lemma QueryRoundTrip(f: Folding, host: Name)
    requires FoldsAscii(f) && Ascii(host)
    requires Query(f, host).Ok?
    ensures QuestionsOf(f, Query(f, host).value) == Some([Question(CanonicalName(f, host), TYPE_A, CLASS_IN)])
  {
    var name := EncodeName(CanonicalName(f, host)).value;
    WrittenQuestion(f, name, host);
    var header := Header(0, 1, 0);
    assert header + name + PutUint16(TYPE_A) + PutUint16(CLASS_IN)
        == header + name + (PutUint16(TYPE_A) + PutUint16(CLASS_IN));
  }

  lemma WrittenQuestion(f: Folding, name: seq<Byte>, host: Name)
    requires FoldsAscii(f) && Ascii(host)
    requires EncodeName(CanonicalName(f, host)) == Ok(name)
    ensures QuestionsOf(f, Header(0, 1, 0) + name + (PutUint16(TYPE_A) + PutUint16(CLASS_IN)))
            == Some([Question(CanonicalName(f, host), TYPE_A, CLASS_IN)])
  {
    var tail := PutUint16(TYPE_A) + PutUint16(CLASS_IN);
    Layout(Header(0, 1, 0), name, tail);
    HeaderFields(0, 1, 0, name + tail);
    ReadQuestion(f, Header(0, 1, 0) + name + tail, name, host);
  }

  lemma ReadQuestion(f: Folding, m: seq<Byte>, name: seq<Byte>, host: Name)
    requires FoldsAscii(f) && Ascii(host)
    requires EncodeName(CanonicalName(f, host)) == Ok(name)
    requires HEADER_SIZE <= |m| && Uint16(m, 4) == 1 && WrittenAt(m, HEADER_SIZE, name)
    requires WrittenAt(m, HEADER_SIZE + |name|, PutUint16(TYPE_A) + PutUint16(CLASS_IN))
    ensures QuestionsOf(f, m) == Some([Question(CanonicalName(f, host), TYPE_A, CLASS_IN)])
  {
    CanonicalNameReadsBack(f, host, m, HEADER_SIZE);
    OneQuestion(f, m, HEADER_SIZE, CanonicalName(f, host), HEADER_SIZE + |name|);
  }

  // Three parts end to end.
  lemma Layout(header: seq<Byte>, name: seq<Byte>, tail: seq<Byte>)
    ensures var m := header + name + tail;
            && m == header + (name + tail)
            && WrittenAt(m, |header|, name) && WrittenAt(m, |header| + |name|, tail)
  {
    var m := header + name + tail;
    assert m[|header|..|header| + |name|] == name;
    assert m[|header| + |name|..|header| + |name| + |tail|] == tail;
  }

  lemma OneQuestion(f: Folding, m: seq<Byte>, offset: nat, name: Name, next: nat)
    requires ReadNameAt(f, m, offset) == Some(Parsed(name, next))
    requires WrittenAt(m, next, PutUint16(TYPE_A) + PutUint16(CLASS_IN))
    ensures QuestionsFrom(f, m, offset, 1) == Some([Question(name, TYPE_A, CLASS_IN)])
  {
    var tail := PutUint16(TYPE_A) + PutUint16(CLASS_IN);
    assert forall k | 0 <= k < 4 :: m[next..next + 4][k] == tail[k];
    var question := Question(name, TYPE_A, CLASS_IN);
    assert QuestionsFrom(f, m, next + 4, 0) == Some([]);
    assert [question] + [] == [question];
  }

  lemma LowerCanonical(f: Folding, host: Name)
    requires FoldsAscii(f) && Ascii(host)
    ensures Ascii(CanonicalName(f, host))
    ensures ToLower(CanonicalName(f, host)) == CanonicalName(f, host)
  {
  }

  lemma UnaskedAnswer(f: Folding, m: seq<Byte>, asked: Name)
    requires WellCounted(m) && Uint16(m, 4) == 0 && RecordCount(m) == 1
    ensures AnswerOf(f, m, asked) == FindAnswer(f, m, HEADER_SIZE, 1, CanonicalName(f, asked))
  {
  }

  // A response answers for exactly the hosts with the same canonical name, with exactly
  // the address it was built from.
  lemma ResponseRoundTrip(f: Folding, host: Name, ip: seq<Byte>, asked: Name)
    requires FoldsAscii(f) && Ascii(host) && Ascii(asked)
    requires |ip| == 4 && Response(f, host, Some(ip)).Ok?
    ensures AnswerOf(f, Response(f, host, Some(ip)).value, asked)
            == if CanonicalName(f, asked) == CanonicalName(f, host) then Some(ip) else None
  {
    WrittenAnswer(f, EncodeName(CanonicalName(f, host)).value, host, ip, asked);
  }

  lemma WrittenAnswer(f: Folding, name: seq<Byte>, host: Name, ip: seq<Byte>, asked: Name)
    requires FoldsAscii(f) && Ascii(host) && Ascii(asked)
    requires |ip| == 4 && EncodeName(CanonicalName(f, host)) == Ok(name)
    ensures AnswerOf(f, Header(RESPONSE_FLAGS, 0, 1) + name + RecordTail(ip), asked)
            == if CanonicalName(f, asked) == CanonicalName(f, host) then Some(ip) else None
  {
    EncodedName(CanonicalName(f, host));
    Layout(Header(RESPONSE_FLAGS, 0, 1), name, RecordTail(ip));
    HeaderFields(RESPONSE_FLAGS, 0, 1, name + RecordTail(ip));
    ReadAnswer(f, Header(RESPONSE_FLAGS, 0, 1) + name + RecordTail(ip), name, host, ip, asked);
  }

  lemma ReadAnswer(f: Folding, m: seq<Byte>, name: seq<Byte>, host: Name, ip: seq<Byte>, asked: Name)
    requires FoldsAscii(f) && Ascii(host) && Ascii(asked)
    requires |ip| == 4 && EncodeName(CanonicalName(f, host)) == Ok(name)
    requires WellCounted(m) && Uint16(m, 4) == 0 && RecordCount(m) == 1
    requires WrittenAt(m, HEADER_SIZE, name) && WrittenAt(m, HEADER_SIZE + |name|, RecordTail(ip))
    ensures AnswerOf(f, m, asked) == if CanonicalName(f, asked) == CanonicalName(f, host) then Some(ip) else None
  {
    CanonicalNameReadsBack(f, host, m, HEADER_SIZE);
    UnaskedAnswer(f, m, asked);
    OneRecord(f, m, HEADER_SIZE, CanonicalName(f, host), HEADER_SIZE + |name|, ip, CanonicalName(f, asked));
    LowerCanonical(f, host);
    LowerCanonical(f, asked);
  }

  lemma OneRecord(f: Folding, m: seq<Byte>, offset: nat, name: Name, next: nat, ip: seq<Byte>, want: Name)
    requires |ip| == 4 && ReadNameAt(f, m, offset) == Some(Parsed(name, next))
    requires WrittenAt(m, next, RecordTail(ip))
    ensures FindAnswer(f, m, offset, 1, want) == if f.same(name, want) then Some(ip) else None
  {
    TailFields(m, next, ip);
    assert FindAnswer(f, m, next + 14, 0, want) == None;
  }

  lemma TailFields(m: seq<Byte>, next: nat, ip: seq<Byte>)
    requires |ip| == 4 && WrittenAt(m, next, RecordTail(ip))
    ensures Uint16(m, next) == TYPE_A && InternetClass(Uint16(m, next + 2)) && Uint16(m, next + 8) == 4
    ensures m[next + 10..next + 14] == ip
  {
    var tail := RecordTail(ip);
    assert forall k | 0 <= k < 14 :: m[next..next + 14][k] == tail[k];
    assert tail[10..] == ip;
    assert m[next + 10..next + 14] == m[next..next + 14][10..];
  }

  // ---------- Compression ----------

  const POINTER_TO_QUESTION: seq<Byte> := [192, 12]

  // A message that echoes one question and answers with one record, whose name is
  // written as given and followed by anything.
  function Echo(header: seq<Byte>, labels: seq<Name>, kind: seq<Byte>, answerName: seq<Byte>,
                rest: seq<Byte>): seq<Byte>
    requires LabelsOk(labels)
  {
    header + (Encode(labels) + (kind + (answerName + rest)))
  }

  lemma EchoParts(header: seq<Byte>, labels: seq<Name>, kind: seq<Byte>, answerName: seq<Byte>, rest: seq<Byte>)
    requires LabelsOk(labels)
    ensures var m := Echo(header, labels, kind, answerName, rest);
            && WrittenAt(m, |header|, Encode(labels))
            && WrittenAt(m, |header| + |Encode(labels)| + |kind|, answerName)
            && WrittenAt(m, |header| + |Encode(labels)| + |kind| + |answerName|, rest)
            && |m| == |header| + |Encode(labels)| + |kind| + |answerName| + |rest|
  {
    var m := Echo(header, labels, kind, answerName, rest);
    var tail := Encode(labels) + (kind + (answerName + rest));
    assert m[|header|..|header| + |tail|] == tail;
    WrittenParts(m, |header|, Encode(labels), kind + (answerName + rest));
    WrittenParts(m, |header| + |Encode(labels)|, kind, answerName + rest);
    WrittenParts(m, |header| + |Encode(labels)| + |kind|, answerName, rest);
  }

  // What FindAnswer makes of one record depends on its name and on the bytes behind it.
  function RecordAnswer(f: Folding, name: Name, rest: seq<Byte>, want: Name): Option<seq<Byte>> {
    if |rest| < 10 || 10 + Uint16(rest, 8) > |rest| then None
    else if Matches(f, rest, name, 0, want) then Some(rest[10..10 + Uint16(rest, 8)])
    else None
  }

  lemma OneRecordDependsOnRest(f: Folding, m: seq<Byte>, offset: nat, name: Name, next: nat, rest: seq<Byte>,
                               want: Name)
    requires ReadNameAt(f, m, offset) == Some(Parsed(name, next))
    requires WrittenAt(m, next, rest) && |m| == next + |rest|
    ensures FindAnswer(f, m, offset, 1, want) == RecordAnswer(f, name, rest, want)
  {
    assert forall k | 0 <= k < |rest| :: m[next + k] == m[next..next + |rest|][k] == rest[k];
    if |rest| >= 10 {
      var end := 10 + Uint16(rest, 8);
      if end <= |rest| {
        assert m[next + 10..next + end] == m[next..next + |rest|][10..end] == rest[10..end];
        assert FindAnswer(f, m, next + end, 0, want) == None;
      }
    }
  }

  lemma SkipOne(f: Folding, m: seq<Byte>, parsed: Parsed)
    requires ReadNameAt(f, m, HEADER_SIZE) == Some(parsed) && parsed.next + 4 <= |m|
    ensures SkipQuestions(f, m, HEADER_SIZE, 1) == Some(parsed.next + 4)
  {
    assert SkipQuestions(f, m, parsed.next + 4, 0) == Some(parsed.next + 4);
  }

  // The answer of a message with an echoed question and one record, from its layout.
  lemma EchoAnswer(f: Folding, m: seq<Byte>, labels: seq<Name>, answerName: seq<Byte>, rest: seq<Byte>, asked: Name)
    requires LabelsOk(labels) && WireLength(labels) <= MAX_LENGTH
    requires answerName == Encode(labels) || answerName == POINTER_TO_QUESTION
    requires WellCounted(m) && Uint16(m, 4) == 1 && RecordCount(m) == 1
    requires WrittenAt(m, HEADER_SIZE, Encode(labels))
    requires var records := HEADER_SIZE + |Encode(labels)| + 4;
             && WrittenAt(m, records, answerName) && WrittenAt(m, records + |answerName|, rest)
             && |m| == records + |answerName| + |rest|
    ensures AnswerOf(f, m, asked) == RecordAnswer(f, CanonicalName(f, Join(labels)), rest, CanonicalName(f, asked))
  {
    var name := CanonicalName(f, Join(labels));
    var records := HEADER_SIZE + |Encode(labels)| + 4;
    EchoName(f, m, HEADER_SIZE, labels, Encode(labels));
    EchoName(f, m, records, labels, answerName);
    SkipOne(f, m, Parsed(name, HEADER_SIZE + |Encode(labels)|));
    assert AnswerOf(f, m, asked) == FindAnswer(f, m, records, 1, CanonicalName(f, asked));
    OneRecordDependsOnRest(f, m, records, name, records + |answerName|, rest, CanonicalName(f, asked));
  }

  lemma EchoName(f: Folding, m: seq<Byte>, at: nat, labels: seq<Name>, answerName: seq<Byte>)
    requires LabelsOk(labels) && WireLength(labels) <= MAX_LENGTH
    requires answerName == Encode(labels) || answerName == POINTER_TO_QUESTION
    requires WrittenAt(m, HEADER_SIZE, Encode(labels)) && WrittenAt(m, at, answerName)
    ensures ReadNameAt(f, m, at) == Some(Parsed(CanonicalName(f, Join(labels)), at + |answerName|))
  {
    if answerName == POINTER_TO_QUESTION {
      assert m[at..at + 2][0] == 192 && m[at..at + 2][1] == 12;
      ReadEncoded(m, HEADER_SIZE, labels, MAX_JUMPS - 1, MAX_LENGTH);
      assert Pointer(m, at) == HEADER_SIZE;
    } else {
      ReadEncoded(m, at, labels, MAX_JUMPS, MAX_LENGTH);
    }
  }

  // Compression does not change the answer: a response that echoes its question answers
  // the same whether the record repeats the name or points at it, when both fit.
  lemma CompressionIsTransparent(f: Folding, header: seq<Byte>, labels: seq<Name>, kind: seq<Byte>, rest: seq<Byte>,
                                 asked: Name)
    requires |header| == HEADER_SIZE && |kind| == 4
    requires LabelsOk(labels) && WireLength(labels) <= MAX_LENGTH
    requires Uint16(header, 4) == 1 && Uint16(header, 6) + Uint16(header, 8) + Uint16(header, 10) == 1
    requires |Echo(header, labels, kind, Encode(labels), rest)| <= MAX_MESSAGE
    requires |Echo(header, labels, kind, POINTER_TO_QUESTION, rest)| <= MAX_MESSAGE
    ensures AnswerOf(f, Echo(header, labels, kind, Encode(labels), rest), asked)
            == AnswerOf(f, Echo(header, labels, kind, POINTER_TO_QUESTION, rest), asked)
  {
    EchoHeader(header, labels, kind, Encode(labels), rest);
    EchoHeader(header, labels, kind, POINTER_TO_QUESTION, rest);
    EchoParts(header, labels, kind, Encode(labels), rest);
    EchoParts(header, labels, kind, POINTER_TO_QUESTION, rest);
    if Uint16(header, 2) >= 0x8000 {
      EchoAnswer(f, Echo(header, labels, kind, Encode(labels), rest), labels, Encode(labels), rest, asked);
      EchoAnswer(f, Echo(header, labels, kind, POINTER_TO_QUESTION, rest), labels, POINTER_TO_QUESTION, rest, asked);
    }
  }

  lemma EchoHeader(header: seq<Byte>, labels: seq<Name>, kind: seq<Byte>, answerName: seq<Byte>, rest: seq<Byte>)
    requires |header| == HEADER_SIZE && LabelsOk(labels)
    ensures var m := Echo(header, labels, kind, answerName, rest);
            && |m| >= HEADER_SIZE
            && Uint16(m, 2) == Uint16(header, 2) && Uint16(m, 4) == Uint16(header, 4)
            && RecordCount(m) == Uint16(header, 6) + Uint16(header, 8) + Uint16(header, 10)
  {
    var m := Echo(header, labels, kind, answerName, rest);
    assert forall k | 0 <= k < HEADER_SIZE :: m[k] == header[k];
  }
}
