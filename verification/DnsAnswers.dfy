// What the parsers of internal/mdns/dns.go make of whole messages: any number of questions
// and of resource records, each name written out or compressed as it likes (section 4.1 of
// RFC 1035). A message holds a list of them when they stand in it one behind the other.
module DnsAnswers {
  import opened Common
  import opened DnsNames
  import opened DnsNameProofs
  import opened DnsMessages

  datatype ResourceRecord = ResourceRecord(name: Name, rtype: nat, rclass: nat, ttl: seq<Byte>, data: seq<Byte>)

  predicate WellFormed(r: ResourceRecord) {
    r.rtype < 0x1_0000 && r.rclass < 0x1_0000 && |r.ttl| == 4 && |r.data| < 0x1_0000
  }

  // Everything of a record behind its name.
  function Tail(r: ResourceRecord): (t: seq<Byte>)
    requires WellFormed(r)
    ensures |t| == 10 + |r.data|
  {
    PutUint16(r.rtype) + PutUint16(r.rclass) + r.ttl + PutUint16(|r.data|) + r.data
  }

  // An address of the wanted name: class IN with or without the cache-flush bit, type A with
  // four bytes or AAAA with sixteen.
  predicate AnswersFor(f: Folding, r: ResourceRecord, want: Name) {
    && f.same(r.name, want)
    && (r.rclass == 1 || r.rclass == 0x8001)
    && ((r.rtype == 1 && |r.data| == 4) || (r.rtype == 28 && |r.data| == 16))
  }

  // ---------- Lists of records ----------

  // What stands behind its name: type, class, time to live, length and data.
  predicate StandsAt(message: seq<Byte>, next: nat, r: ResourceRecord) {
    && |r.ttl| == 4
    && next + 10 + |r.data| <= |message|
    && Uint16(message, next) == r.rtype && Uint16(message, next + 2) == r.rclass
    && message[next + 4..next + 8] == r.ttl
    && Uint16(message, next + 8) == |r.data|
    && message[next + 10..next + 10 + |r.data|] == r.data
  }

  predicate HoldsOne(f: Folding, message: seq<Byte>, offset: nat, r: ResourceRecord, next: nat) {
    ReadNameAt(f, message, offset) == Some(Parsed(r.name, next)) && StandsAt(message, next, r)
  }

  predicate Holds(f: Folding, message: seq<Byte>, offset: nat, records: seq<ResourceRecord>)
    decreases |records|
  {
    records != [] ==>
      var parsed := ReadNameAt(f, message, offset);
      && parsed.Some?
      && HoldsOne(f, message, offset, records[0], parsed.value.next)
      && Holds(f, message, parsed.value.next + 10 + |records[0].data|, records[1..])
  }

  lemma TailStands(message: seq<Byte>, next: nat, r: ResourceRecord)
    requires WellFormed(r) && WrittenAt(message, next, Tail(r))
    ensures StandsAt(message, next, r)
  {
    var tail := Tail(r);
    var written := message[next..next + |tail|];
    assert forall k | 0 <= k < 10 :: message[next + k] == written[k] == tail[k];
    assert tail[4..8] == r.ttl && tail[10..] == r.data;
    assert message[next + 4..next + 8] == written[4..8];
    assert message[next + 10..next + |tail|] == written[10..];
  }

  lemma RecordHeld(f: Folding, message: seq<Byte>, offset: nat, r: ResourceRecord, next: nat, want: Name)
    requires HoldsOne(f, message, offset, r, next)
    ensures RecordAt(f, message, offset, want) ==
            if AnswersFor(f, r, want) then Answering(r.data) else Passed(next + 10 + |r.data|)
  {
  }

  ghost predicate FirstAnswer(f: Folding, records: seq<ResourceRecord>, want: Name, k: nat) {
    k < |records| && AnswersFor(f, records[k], want) && forall j | 0 <= j < k :: !AnswersFor(f, records[j], want)
  }

  // An answer is the data of the first record that answers, and missing only if none does.
  ghost predicate IsAnswer(f: Folding, records: seq<ResourceRecord>, want: Name, answer: Option<seq<Byte>>) {
    match answer
    case None => forall k | 0 <= k < |records| :: !AnswersFor(f, records[k], want)
    case Some(data) => exists k: nat :: FirstAnswer(f, records, want, k) && records[k].data == data
  }

  // The place of the first answer, or the number of records.
  function FirstPlace(f: Folding, records: seq<ResourceRecord>, want: Name): (k: nat)
    ensures k <= |records| && forall j | 0 <= j < k :: !AnswersFor(f, records[j], want)
    ensures k < |records| ==> AnswersFor(f, records[k], want)
  {
    if records == [] || AnswersFor(f, records[0], want) then 0 else 1 + FirstPlace(f, records[1..], want)
  }

  lemma {:induction false} SearchFinds(f: Folding, message: seq<Byte>, offset: nat, records: seq<ResourceRecord>,
                                       want: Name)
    requires Holds(f, message, offset, records)
    ensures var k := FirstPlace(f, records, want);
            FindAnswer(f, message, offset, |records|, want) == if k < |records| then Some(records[k].data) else None
    decreases |records|
  {
    if records == [] {
    } else {
      var next := ReadNameAt(f, message, offset).value.next;
      RecordHeld(f, message, offset, records[0], next, want);
      if !AnswersFor(f, records[0], want) {
        SearchFinds(f, message, next + 10 + |records[0].data|, records[1..], want);
      }
    }
  }

  // Whatever their number, the search returns the data of the first record that answers, and
  // nothing only if none does.
  lemma FirstAnswerIsFound(f: Folding, message: seq<Byte>, offset: nat, records: seq<ResourceRecord>, want: Name)
    requires Holds(f, message, offset, records)
    ensures IsAnswer(f, records, want, FindAnswer(f, message, offset, |records|, want))
  {
    SearchFinds(f, message, offset, records, want);
    var k := FirstPlace(f, records, want);
    if k < |records| { assert FirstAnswer(f, records, want, k); }
  }

  // ---------- Any bytes at all ----------

  // The record whose name ends here, if there is room for it.
  function RecordFrom(message: seq<Byte>, name: Name, next: nat): ResourceRecord
    requires next + 10 <= |message| && next + 10 + Uint16(message, next + 8) <= |message|
  {
    ResourceRecord(name, Uint16(message, next), Uint16(message, next + 2), message[next + 4..next + 8],
                   message[next + 10..next + 10 + Uint16(message, next + 8)])
  }

  lemma BytesAreARecord(message: seq<Byte>, name: Name, next: nat)
    requires next + 10 <= |message| && next + 10 + Uint16(message, next + 8) <= |message|
    ensures StandsAt(message, next, RecordFrom(message, name, next))
  {
  }

  // The records that were read on the way to an answer.
  ghost predicate Answered(f: Folding, message: seq<Byte>, offset: nat, count: nat, want: Name,
                           records: seq<ResourceRecord>, data: seq<Byte>) {
    && 0 < |records| <= count
    && Holds(f, message, offset, records)
    && FirstAnswer(f, records, want, |records| - 1)
    && records[|records| - 1].data == data
  }

  // The same, record by record.
  predicate LeadsTo(f: Folding, message: seq<Byte>, offset: nat, count: nat, want: Name, records: seq<ResourceRecord>,
                    data: seq<Byte>)
    decreases |records|
  {
    && count > 0 && records != []
    && var parsed := ReadNameAt(f, message, offset);
       && parsed.Some?
       && HoldsOne(f, message, offset, records[0], parsed.value.next)
       && if AnswersFor(f, records[0], want) then |records| == 1 && records[0].data == data
          else LeadsTo(f, message, parsed.value.next + 10 + |records[0].data|, count - 1, want, records[1..], data)
  }

  lemma {:induction false} LeadsToAnswer(f: Folding, message: seq<Byte>, offset: nat, count: nat, want: Name,
                                         records: seq<ResourceRecord>, data: seq<Byte>)
    requires LeadsTo(f, message, offset, count, want, records, data)
    ensures Answered(f, message, offset, count, want, records, data)
    decreases |records|
  {
    if AnswersFor(f, records[0], want) {
      assert Holds(f, message, ReadNameAt(f, message, offset).value.next + 10 + |records[0].data|, records[1..]);
    } else {
      var next := ReadNameAt(f, message, offset).value.next;
      LeadsToAnswer(f, message, next + 10 + |records[0].data|, count - 1, want, records[1..], data);
      assert forall j | 0 < j < |records| :: records[j] == records[1..][j - 1];
    }
  }

  // One record of the search.
  lemma SearchStep(f: Folding, message: seq<Byte>, offset: nat, count: nat, want: Name, r: ResourceRecord, next: nat)
    requires count > 0 && HoldsOne(f, message, offset, r, next)
    ensures FindAnswer(f, message, offset, count, want) ==
            if AnswersFor(f, r, want) then Some(r.data)
            else FindAnswer(f, message, next + 10 + |r.data|, count - 1, want)
  {
    RecordHeld(f, message, offset, r, next, want);
  }

  // Looking at more records than it takes finds the same.
  lemma {:induction false} MoreFindsTheSame(f: Folding, message: seq<Byte>, offset: nat, count: nat, more: nat,
                                            want: Name)
    requires FindAnswer(f, message, offset, count, want).Some? && count <= more
    ensures FindAnswer(f, message, offset, more, want) == FindAnswer(f, message, offset, count, want)
    decreases count
  {
    match RecordAt(f, message, offset, want)
    case Passed(end) => MoreFindsTheSame(f, message, end, count - 1, more - 1, want);
    case _ =>
  }

  lemma PassedOverThenFound(f: Folding, message: seq<Byte>, offset: nat, count: nat, want: Name,
                            records: seq<ResourceRecord>, data: seq<Byte>)
    requires Answered(f, message, offset, count, want, records, data)
    ensures FindAnswer(f, message, offset, count, want) == Some(data)
  {
    SearchFinds(f, message, offset, records, want);
    MoreFindsTheSame(f, message, offset, |records|, count, want);
  }

  // The record a search that finds something reads first, and what is left to find.
  lemma FirstRecordRead(f: Folding, message: seq<Byte>, offset: nat, count: nat, want: Name, data: seq<Byte>)
      returns (r: ResourceRecord, next: nat)
    requires FindAnswer(f, message, offset, count, want) == Some(data)
    ensures count > 0 && HoldsOne(f, message, offset, r, next)
    ensures if AnswersFor(f, r, want) then r.data == data
            else FindAnswer(f, message, next + 10 + |r.data|, count - 1, want) == Some(data)
  {
    var parsed := ReadNameAt(f, message, offset).value;
    next := parsed.next;
    r := RecordFrom(message, parsed.name, next);
    BytesAreARecord(message, parsed.name, next);
    SearchStep(f, message, offset, count, want, r, next);
  }

  lemma LeadsToCons(f: Folding, message: seq<Byte>, offset: nat, count: nat, want: Name, r: ResourceRecord, next: nat,
                    rest: seq<ResourceRecord>, data: seq<Byte>)
    requires count > 0 && HoldsOne(f, message, offset, r, next)
    requires if AnswersFor(f, r, want) then rest == [] && r.data == data
             else LeadsTo(f, message, next + 10 + |r.data|, count - 1, want, rest, data)
    ensures LeadsTo(f, message, offset, count, want, [r] + rest, data)
  {
    assert ([r] + rest)[0] == r && ([r] + rest)[1..] == rest;
  }

  lemma {:induction false} RecordsLeadingTo(f: Folding, message: seq<Byte>, offset: nat, count: nat, want: Name,
                                            data: seq<Byte>) returns (records: seq<ResourceRecord>)
    requires FindAnswer(f, message, offset, count, want) == Some(data)
    ensures LeadsTo(f, message, offset, count, want, records, data)
    decreases count
  {
    var first, next := FirstRecordRead(f, message, offset, count, want, data);
    if AnswersFor(f, first, want) {
      LeadsToCons(f, message, offset, count, want, first, next, [], data);
      records := [first] + [];
    } else {
      var rest := RecordsLeadingTo(f, message, next + 10 + |first.data|, count - 1, want, data);
      LeadsToCons(f, message, offset, count, want, first, next, rest, data);
      records := [first] + rest;
    }
  }

  lemma RecordsReadOnTheWay(f: Folding, message: seq<Byte>, offset: nat, count: nat, want: Name, data: seq<Byte>)
      returns (records: seq<ResourceRecord>)
    requires FindAnswer(f, message, offset, count, want) == Some(data)
    ensures Answered(f, message, offset, count, want, records, data)
  {
    records := RecordsLeadingTo(f, message, offset, count, want, data);
    LeadsToAnswer(f, message, offset, count, want, records, data);
  }

  // Of any message, well formed or not: an answer is found if and only if the first records
  // it holds are some that do not answer and then one that does.
  lemma AnswerFoundExactlyWhen(f: Folding, message: seq<Byte>, offset: nat, count: nat, want: Name, data: seq<Byte>)
    ensures FindAnswer(f, message, offset, count, want) == Some(data)
       <==> exists records :: Answered(f, message, offset, count, want, records, data)
  {
    if FindAnswer(f, message, offset, count, want) == Some(data) {
      var records := RecordsReadOnTheWay(f, message, offset, count, want, data);
    }
    forall records | Answered(f, message, offset, count, want, records, data)
      ensures FindAnswer(f, message, offset, count, want) == Some(data)
    {
      PassedOverThenFound(f, message, offset, count, want, records, data);
    }
  }

  // ---------- Lists of questions ----------

  predicate HoldsQuestion(f: Folding, message: seq<Byte>, offset: nat, q: Question, next: nat) {
    && ReadNameAt(f, message, offset) == Some(Parsed(q.name, next))
    && next + 4 <= |message| && Uint16(message, next) == q.qtype && Uint16(message, next + 2) == q.qclass
  }

  // Where the questions end that stand in the message from an offset, if they do.
  function QuestionsEnd(f: Folding, message: seq<Byte>, offset: nat, questions: seq<Question>): Option<nat>
    decreases |questions|
  {
    if questions == [] then Some(offset)
    else
      var parsed := ReadNameAt(f, message, offset);
      if parsed.Some? && HoldsQuestion(f, message, offset, questions[0], parsed.value.next)
      then QuestionsEnd(f, message, parsed.value.next + 4, questions[1..])
      else None
  }

  // The parsed questions are the ones the message holds, all of them and in order, and there
  // are none exactly if it does not hold as many as it counts.
  lemma {:induction false} QuestionsReadExactlyWhen(f: Folding, message: seq<Byte>, offset: nat, count: nat,
                                                    questions: seq<Question>)
    ensures QuestionsFrom(f, message, offset, count) == Some(questions)
       <==> |questions| == count && QuestionsEnd(f, message, offset, questions).Some?
    decreases count
  {
    if count > 0 && questions != [] {
      var parsed := ReadNameAt(f, message, offset);
      if parsed.Some? {
        FirstQuestion(f, message, offset, questions[0], parsed.value);
        QuestionsReadExactlyWhen(f, message, parsed.value.next + 4, count - 1, questions[1..]);
        assert questions == [questions[0]] + questions[1..];
      }
    }
  }

  lemma FirstQuestion(f: Folding, message: seq<Byte>, offset: nat, q: Question, parsed: Parsed)
    requires ReadNameAt(f, message, offset) == Some(parsed)
    ensures HoldsQuestion(f, message, offset, q, parsed.next)
       <==> && parsed.next + 4 <= |message|
            && q == Question(parsed.name, Uint16(message, parsed.next), Uint16(message, parsed.next + 2))
  {
  }

  // The records start where as many questions as the header counts end.
  lemma {:induction false} RecordsStartBehindTheQuestions(f: Folding, message: seq<Byte>, offset: nat,
                                                          questions: seq<Question>)
    requires QuestionsEnd(f, message, offset, questions).Some?
    ensures SkipQuestions(f, message, offset, |questions|) == QuestionsEnd(f, message, offset, questions)
    decreases |questions|
  {
    if questions == [] {
    } else {
      var next := ReadNameAt(f, message, offset).value.next;
      RecordsStartBehindTheQuestions(f, message, next + 4, questions[1..]);
    }
  }

  lemma {:induction false} SkippedAreQuestions(f: Folding, message: seq<Byte>, offset: nat, count: nat)
      returns (questions: seq<Question>)
    requires SkipQuestions(f, message, offset, count).Some?
    ensures |questions| == count
    ensures QuestionsEnd(f, message, offset, questions) == SkipQuestions(f, message, offset, count)
    decreases count
  {
    if count == 0 {
      questions := [];
    } else {
      var parsed := ReadNameAt(f, message, offset).value;
      var first := Question(parsed.name, Uint16(message, parsed.next), Uint16(message, parsed.next + 2));
      FirstQuestion(f, message, offset, first, parsed);
      var rest := SkippedAreQuestions(f, message, parsed.next + 4, count - 1);
      questions := [first] + rest;
      assert questions[1..] == rest;
    }
  }

  // ---------- Whole messages ----------

  // The header of a message that may be searched: a response, not too long, with at most 64
  // questions and 256 records in its three sections.
  predicate Searchable(message: seq<Byte>) {
    && 12 <= |message| <= 9000
    && message[2] >= 128
    && Uint16(message, 4) <= 64
    && Uint16(message, 6) + Uint16(message, 8) + Uint16(message, 10) <= 256
  }

  // The questions of a message and where they end.
  predicate Asks(f: Folding, message: seq<Byte>, questions: seq<Question>, end: nat) {
    && Searchable(message) && |questions| == Uint16(message, 4)
    && QuestionsEnd(f, message, 12, questions) == Some(end)
  }

  lemma AnswerIsSearched(f: Folding, message: seq<Byte>, host: Name, questions: seq<Question>, end: nat)
    requires Asks(f, message, questions, end)
    ensures QuestionsOf(f, message) == Some(questions)
    ensures AnswerOf(f, message, host) == FindAnswer(f, message, end, RecordCount(message), CanonicalName(f, host))
  {
    QuestionsReadExactlyWhen(f, message, 12, |questions|, questions);
    RecordsStartBehindTheQuestions(f, message, 12, questions);
  }

  // A response with any questions and any records in its sections answers a host with the
  // address in the first record that has one for that host, and with nothing only if none has.
  lemma MessageAnswers(f: Folding, message: seq<Byte>, host: Name, questions: seq<Question>, end: nat,
                       records: seq<ResourceRecord>)
    requires Asks(f, message, questions, end) && Holds(f, message, end, records)
    requires |records| == Uint16(message, 6) + Uint16(message, 8) + Uint16(message, 10)
    ensures QuestionsOf(f, message) == Some(questions)
    ensures IsAnswer(f, records, CanonicalName(f, host), AnswerOf(f, message, host))
  {
    var want := CanonicalName(f, host);
    AnswerIsSearched(f, message, host, questions, end);
    var found := FindAnswer(f, message, end, |records|, want);
    assert AnswerOf(f, message, host) == found;
    FirstAnswerIsFound(f, message, end, records, want);
  }

  ghost predicate AnsweredIn(f: Folding, message: seq<Byte>, host: Name, questions: seq<Question>, end: nat,
                             records: seq<ResourceRecord>, data: seq<Byte>) {
    && Asks(f, message, questions, end)
    && Answered(f, message, end, Uint16(message, 6) + Uint16(message, 8) + Uint16(message, 10),
                CanonicalName(f, host), records, data)
  }

  // Of any bytes: there is an answer if and only if they are a searchable response that holds
  // its questions and then records up to one that answers.
  lemma MessageAnswersExactlyWhen(f: Folding, message: seq<Byte>, host: Name, data: seq<Byte>)
    ensures AnswerOf(f, message, host) == Some(data)
       <==> exists questions, end, records :: AnsweredIn(f, message, host, questions, end, records, data)
  {
    if AnswerOf(f, message, host) == Some(data) {
      var questions, end := QuestionsAsked(f, message, host);
      AnswerIsSearched(f, message, host, questions, end);
      var records := RecordsReadOnTheWay(f, message, end, RecordCount(message), CanonicalName(f, host), data);
      assert AnsweredIn(f, message, host, questions, end, records, data);
    }
    forall questions, end, records | AnsweredIn(f, message, host, questions, end, records, data)
      ensures AnswerOf(f, message, host) == Some(data)
    {
      AnswerIsSearched(f, message, host, questions, end);
      PassedOverThenFound(f, message, end, RecordCount(message), CanonicalName(f, host), records, data);
    }
  }

  lemma QuestionsAsked(f: Folding, message: seq<Byte>, host: Name) returns (questions: seq<Question>, end: nat)
    requires AnswerOf(f, message, host).Some?
    ensures Asks(f, message, questions, end)
  {
    questions := SkippedAreQuestions(f, message, 12, Uint16(message, 4));
    end := SkipQuestions(f, message, 12, Uint16(message, 4)).value;
  }

  // ---------- Messages as they are written ----------

  // A name as written and what follows it.
  datatype Item<T> = Item(labels: seq<Name>, what: T)

  predicate Writable(labels: seq<Name>) {
    LabelsOk(labels) && WireLength(labels) <= MAX_LENGTH
  }

  predicate QuestionWritable(f: Folding, item: Item<Question>) {
    && Writable(item.labels) && item.what.name == CanonicalName(f, Join(item.labels))
    && item.what.qtype < 0x1_0000 && item.what.qclass < 0x1_0000
  }

  predicate QuestionsWritable(f: Folding, items: seq<Item<Question>>) {
    forall i | 0 <= i < |items| :: QuestionWritable(f, items[i])
  }

  predicate RecordWritable(f: Folding, item: Item<ResourceRecord>) {
    Writable(item.labels) && item.what.name == CanonicalName(f, Join(item.labels)) && WellFormed(item.what)
  }

  predicate RecordsWritable(f: Folding, items: seq<Item<ResourceRecord>>) {
    forall i | 0 <= i < |items| :: RecordWritable(f, items[i])
  }

  function WriteQuestions(f: Folding, items: seq<Item<Question>>): seq<Byte>
    requires QuestionsWritable(f, items)
  {
    if items == [] then []
    else
      var q := items[0].what;
      Encode(items[0].labels) + ((PutUint16(q.qtype) + PutUint16(q.qclass)) + WriteQuestions(f, items[1..]))
  }

  function WriteRecords(f: Folding, items: seq<Item<ResourceRecord>>): seq<Byte>
    requires RecordsWritable(f, items)
  {
    if items == [] then []
    else Encode(items[0].labels) + (Tail(items[0].what) + WriteRecords(f, items[1..]))
  }

  function Whats<T>(items: seq<Item<T>>): (r: seq<T>)
    ensures |r| == |items|
  {
    seq(|items|, i requires 0 <= i < |items| => items[i].what)
  }

  lemma OneQuestionStands(f: Folding, message: seq<Byte>, offset: nat, item: Item<Question>, rest: seq<Byte>)
    requires QuestionWritable(f, item)
    requires WrittenAt(message, offset, Encode(item.labels)
                                        + ((PutUint16(item.what.qtype) + PutUint16(item.what.qclass)) + rest))
    ensures HoldsQuestion(f, message, offset, item.what, offset + |Encode(item.labels)|)
    ensures WrittenAt(message, offset + |Encode(item.labels)| + 4, rest)
  {
    assert item.what.qtype < 0x1_0000 && item.what.qclass < 0x1_0000;
    var name, kind := Encode(item.labels), PutUint16(item.what.qtype) + PutUint16(item.what.qclass);
    WrittenParts(message, offset, name, kind + rest);
    WrittenParts(message, offset + |name|, kind, rest);
    ReadEncoded(message, offset, item.labels, MAX_JUMPS, MAX_LENGTH);
    KindStands(message, offset + |name|, item.what.qtype, item.what.qclass);
  }

  lemma KindStands(message: seq<Byte>, next: nat, qtype: nat, qclass: nat)
    requires qtype < 0x1_0000 && qclass < 0x1_0000
    requires WrittenAt(message, next, PutUint16(qtype) + PutUint16(qclass))
    ensures Uint16(message, next) == qtype && Uint16(message, next + 2) == qclass
  {
    var kind := PutUint16(qtype) + PutUint16(qclass);
    var written := message[next..next + 4];
    assert forall k | 0 <= k < 4 :: message[next + k] == written[k] == kind[k];
  }

  lemma QuestionsEndCons(f: Folding, message: seq<Byte>, offset: nat, questions: seq<Question>, next: nat)
    requires questions != [] && HoldsQuestion(f, message, offset, questions[0], next)
    ensures QuestionsEnd(f, message, offset, questions) == QuestionsEnd(f, message, next + 4, questions[1..])
  {
  }

  lemma FirstWrittenStands(f: Folding, message: seq<Byte>, offset: nat, items: seq<Item<Question>>) returns (next: nat)
    requires items != [] && QuestionsWritable(f, items) && WrittenAt(message, offset, WriteQuestions(f, items))
    ensures QuestionsEnd(f, message, offset, Whats(items)) == QuestionsEnd(f, message, next + 4, Whats(items[1..]))
    ensures QuestionsWritable(f, items[1..]) && WrittenAt(message, next + 4, WriteQuestions(f, items[1..]))
    ensures offset + |WriteQuestions(f, items)| == next + 4 + |WriteQuestions(f, items[1..])|
  {
    OneQuestionStands(f, message, offset, items[0], WriteQuestions(f, items[1..]));
    next := offset + |Encode(items[0].labels)|;
    QuestionsEndCons(f, message, offset, Whats(items), next);
    assert Whats(items)[1..] == Whats(items[1..]);
  }

  lemma {:induction false} WrittenQuestionsStand(f: Folding, message: seq<Byte>, offset: nat,
                                                 items: seq<Item<Question>>, end: nat)
    requires QuestionsWritable(f, items) && WrittenAt(message, offset, WriteQuestions(f, items))
    requires end == offset + |WriteQuestions(f, items)|
    ensures QuestionsEnd(f, message, offset, Whats(items)) == Some(end)
    decreases |items|
  {
    if items == [] {
      assert Whats(items) == [];
    } else {
      var next := FirstWrittenStands(f, message, offset, items);
      WrittenQuestionsStand(f, message, next + 4, items[1..], end);
    }
  }

  lemma OneRecordStands(f: Folding, message: seq<Byte>, offset: nat, item: Item<ResourceRecord>, rest: seq<Byte>)
    requires RecordWritable(f, item) && WrittenAt(message, offset, Encode(item.labels) + (Tail(item.what) + rest))
    ensures HoldsOne(f, message, offset, item.what, offset + |Encode(item.labels)|)
    ensures WrittenAt(message, offset + |Encode(item.labels)| + |Tail(item.what)|, rest)
  {
    var name, tail := Encode(item.labels), Tail(item.what);
    WrittenParts(message, offset, name, tail + rest);
    WrittenParts(message, offset + |name|, tail, rest);
    ReadEncoded(message, offset, item.labels, MAX_JUMPS, MAX_LENGTH);
    TailStands(message, offset + |name|, item.what);
  }

  lemma FirstRecordStands(f: Folding, message: seq<Byte>, offset: nat, items: seq<Item<ResourceRecord>>)
      returns (next: nat)
    requires items != [] && RecordsWritable(f, items) && WrittenAt(message, offset, WriteRecords(f, items))
    ensures HoldsOne(f, message, offset, items[0].what, next) && RecordsWritable(f, items[1..])
    ensures WrittenAt(message, next + 10 + |items[0].what.data|, WriteRecords(f, items[1..]))
  {
    OneRecordStands(f, message, offset, items[0], WriteRecords(f, items[1..]));
    next := offset + |Encode(items[0].labels)|;
  }

  lemma {:induction false} WrittenRecordsStand(f: Folding, message: seq<Byte>, offset: nat,
                                               items: seq<Item<ResourceRecord>>)
    requires RecordsWritable(f, items) && WrittenAt(message, offset, WriteRecords(f, items))
    ensures Holds(f, message, offset, Whats(items))
    decreases |items|
  {
    if items == [] {
    } else {
      var next := FirstRecordStands(f, message, offset, items);
      WrittenRecordsStand(f, message, next + 10 + |items[0].what.data|, items[1..]);
      assert Whats(items)[1..] == Whats(items[1..]);
    }
  }

  // Any questions and any records can stand in a message: written out behind a header that
  // counts them, they are what the two parsers see.
  lemma WrittenMessageAnswers(f: Folding, header: seq<Byte>, questions: seq<Item<Question>>,
                              records: seq<Item<ResourceRecord>>, host: Name)
    requires QuestionsWritable(f, questions) && RecordsWritable(f, records)
    requires |header| == 12 && header[2] >= 128
    requires Uint16(header, 4) == |questions| <= 64
    requires Uint16(header, 6) + Uint16(header, 8) + Uint16(header, 10) == |records| <= 256
    requires |header + (WriteQuestions(f, questions) + WriteRecords(f, records))| <= 9000
    ensures var message := header + (WriteQuestions(f, questions) + WriteRecords(f, records));
            && QuestionsOf(f, message) == Some(Whats(questions))
            && IsAnswer(f, Whats(records), CanonicalName(f, host), AnswerOf(f, message, host))
  {
    var body := WriteQuestions(f, questions) + WriteRecords(f, records);
    WrittenBody(f, header, questions, records, header + body);
    MessageAnswers(f, header + body, host, Whats(questions), 12 + |WriteQuestions(f, questions)|, Whats(records));
  }

  lemma WrittenBody(f: Folding, header: seq<Byte>, questions: seq<Item<Question>>, records: seq<Item<ResourceRecord>>,
                    message: seq<Byte>)
    requires QuestionsWritable(f, questions) && RecordsWritable(f, records)
    requires |header| == 12 && message == header + (WriteQuestions(f, questions) + WriteRecords(f, records))
    ensures forall k | 0 <= k < 12 :: message[k] == header[k]
    ensures QuestionsEnd(f, message, 12, Whats(questions)) == Some(12 + |WriteQuestions(f, questions)|)
    ensures Holds(f, message, 12 + |WriteQuestions(f, questions)|, Whats(records))
  {
    var body := WriteQuestions(f, questions) + WriteRecords(f, records);
    assert message[12..12 + |body|] == body;
    WrittenParts(message, 12, WriteQuestions(f, questions), WriteRecords(f, records));
    WrittenQuestionsStand(f, message, 12, questions, 12 + |WriteQuestions(f, questions)|);
    WrittenRecordsStand(f, message, 12 + |WriteQuestions(f, questions)|, records);
  }

  // What the two builders send, byte for byte: one question of type A and class IN; one
  // authoritative answer of type A, class IN with the cache-flush bit, to be kept 120 seconds.
  lemma MessagesOnTheWire(f: Folding, host: Name, ip: seq<Byte>)
    requires |ip| == 4
    ensures Response(f, host, None) == Err(NotIPv4)
    ensures var name := EncodeName(CanonicalName(f, host));
            if name.Ok? then
              && Query(f, host) == Ok([0, 0, 0, 0, 0, 1, 0, 0, 0, 0, 0, 0] + name.value + [0, 1, 0, 1])
              && Response(f, host, Some(ip)) ==
                 Ok([0, 0, 0x84, 0, 0, 0, 0, 1, 0, 0, 0, 0] + name.value
                    + ([0, 1, 0x80, 1, 0, 0, 0, 120, 0, 4] + ip))
            else Query(f, host) == Err(BadName(NameTooLong)) == Response(f, host, Some(ip))
  {
    var name := EncodeName(CanonicalName(f, host));
    if name.Ok? {
      assert Header(0, 1, 0) == [0, 0, 0, 0, 0, 1, 0, 0, 0, 0, 0, 0];
      assert Header(RESPONSE_FLAGS, 0, 1) == [0, 0, 0x84, 0, 0, 0, 0, 1, 0, 0, 0, 0];
      assert RecordTail(ip) == [0, 1, 0x80, 1, 0, 0, 0, 120, 0, 4] + ip;
      assert Query(f, host).value == [0, 0, 0, 0, 0, 1, 0, 0, 0, 0, 0, 0] + name.value + [0, 1, 0, 1];
    }
  }
}
