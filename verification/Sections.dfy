/**
 * Finding the sections of a message.  The Locate routines skip over questions and records without
 * decoding their names; they land where decoding every name on the way would land.
 */
module Sections {
  import opened Bytes
  import opened DomainNames
  import opened NameCodec
  import opened NameHash

  const HEADER := 12

  datatype Question = Question(name: Name, qtype: nat, qclass: nat)
  datatype Record = Record(name: Name, rrtype: nat, rrclass: nat, ttl: nat, rdata: nat, rdlength: nat)

  // ----- Full parsing, the name included

  function ReadQuestion(p: seq<byte>, i: int, end: nat): (r: Option<(Question, nat)>)
    requires end < |p|
    ensures r.Some? ==> r.value.1 <= end
  {
    if i < 0 || i >= end then None else
    match ReadName(p, i, end, 0)
    case None => None
    case Some((n, j)) =>
      if j + 4 > end then None else Some((Question(n, Read16(p, j), Read16(p, j + 2)), j + 4))
  }

  /** Up to and over the rdata; an rdata that cannot be decoded does not move the position. */
  function ReadRecord(p: seq<byte>, i: int, end: nat): (r: Option<(Record, nat)>)
    requires end < |p|
    ensures r.Some? ==> r.value.0.rdata + r.value.0.rdlength == r.value.1 <= end
    ensures r.Some? ==> r.value.0.rrtype < 0x1_0000 && r.value.0.rrclass < 0x8000 && r.value.0.ttl < WORD
  {
    if i < 0 || i >= end then None else
    match ReadName(p, i, end, 0)
    case None => None
    case Some((n, j)) =>
      if j + 10 > end then None else
      var len := Read16(p, j + 8);
      if j + 10 + len > end then None
      else Some((Record(n, Read16(p, j), Read16(p, j + 2) % 0x8000, Read32(p, j + 4), j + 10, len), j + 10 + len))
  }

  function ReadQuestions(p: seq<byte>, i: int, end: nat, count: nat): (r: Option<(seq<Question>, int)>)
    requires end < |p|
    decreases count
  {
    if count == 0 then Some(([], i)) else
    match ReadQuestion(p, i, end)
    case None => None
    case Some((x, j)) =>
      match ReadQuestions(p, j, end, count - 1)
      case None => None
      case Some((xs, k)) => Some(([x] + xs, k))
  }

  function ReadRecords(p: seq<byte>, i: int, end: nat, count: nat): (r: Option<(seq<Record>, int)>)
    requires end < |p|
    decreases count
  {
    if count == 0 then Some(([], i)) else
    match ReadRecord(p, i, end)
    case None => None
    case Some((x, j)) =>
      match ReadRecords(p, j, end, count - 1)
      case None => None
      case Some((xs, k)) => Some(([x] + xs, k))
  }

  /** The question as it is filled in, its name apart; without an interface it is a unicast question. */
  datatype Asked = Asked(interfaceId: nat, unicast: bool, qnamehash: nat, qtype: nat, qclass: nat)

  method GetQuestion(p: seq<byte>, i: int, end: nat, interfaceId: nat, name: array<byte>)
    returns (next: Option<nat>, question: Asked)
    requires end < |p| && name.Length == MAX_DOMAIN_NAME
    modifies name
    ensures var r := ReadQuestion(p, i, end);
            if r.None? then next == None && question == Asked(interfaceId, interfaceId == 0, 0, 0, 0)
            else
              var (q, j) := r.value;
              && next == Some(j) && Holds(name[..], 0, q.name)
              && question == Asked(interfaceId, interfaceId == 0, NameHashValue(q.name), q.qtype, q.qclass)
  {
    hide NameHashValue, ReadName, Holds;
    question := Asked(interfaceId, interfaceId == 0, 0, 0, 0);
    var ptr := GetDomainName(p, i, end, name);
    if ptr == None { return None, question; }
    if ptr.value + 4 > end { return None, question; }
    var hash := DomainNameHashValue(name[..], 0, ReadName(p, i, end, 0).value.0);
    question := Asked(interfaceId, interfaceId == 0, hash, Read16(p, ptr.value), Read16(p, ptr.value + 2));
    return Some(ptr.value + 4), question;
  }

  // ----- Skipping

  /** Where skipQuestion says the question at `i` ends; a null position stays null. */
  function QuestionEnd(p: seq<byte>, i: Option<int>, end: nat): Option<int>
    requires end < |p|
  {
    if i.None? || !(0 <= i.value < end) then None else
    match SkipName(p, i.value, end, 0)
    case None => None
    case Some(j) => if j + 4 > end then None else Some(j + 4)
  }

  function RecordEnd(p: seq<byte>, i: Option<int>, end: nat): Option<int>
    requires end < |p|
  {
    if i.None? || !(0 <= i.value < end) then None else
    match SkipName(p, i.value, end, 0)
    case None => None
    case Some(j) =>
      if j + 10 > end || j + 10 + Read16(p, j + 8) > end then None else Some(j + 10 + Read16(p, j + 8))
  }

  function QuestionsEnd(p: seq<byte>, i: Option<int>, end: nat, count: nat): Option<int>
    requires end < |p|
    decreases count
  {
    if count == 0 then i else QuestionsEnd(p, QuestionEnd(p, i, end), end, count - 1)
  }

  function RecordsEnd(p: seq<byte>, i: Option<int>, end: nat, count: nat): Option<int>
    requires end < |p|
    decreases count
  {
    if count == 0 then i else RecordsEnd(p, RecordEnd(p, i, end), end, count - 1)
  }

  method SkipQuestion(p: seq<byte>, i: int, end: nat) returns (r: Option<int>)
    requires end < |p|
    ensures r == QuestionEnd(p, Some(i), end)
  {
    var ptr := SkipDomainName(p, i, end);
    if ptr == None { return None; }
    if ptr.value + 4 > end { return None; }
    return Some(ptr.value + 4);
  }

  method SkipResourceRecord(p: seq<byte>, i: int, end: nat) returns (r: Option<int>)
    requires end < |p|
    ensures r == RecordEnd(p, Some(i), end)
  {
    var ptr := SkipDomainName(p, i, end);
    if ptr == None { return None; }
    if ptr.value + 10 > end { return None; }
    var pktrdlength := Read16(p, ptr.value + 8);
    if ptr.value + 10 + pktrdlength > end { return None; }
    return Some(ptr.value + 10 + pktrdlength);
  }

  method LocateAnswers(p: seq<byte>, end: nat, numQuestions: nat) returns (r: Option<int>)
    requires end < |p|
    ensures r == QuestionsEnd(p, Some(HEADER), end, numQuestions)
  {
    hide QuestionEnd;
    r := Some(HEADER);
    var i := 0;
    while i < numQuestions && r.Some?
      invariant i <= numQuestions
      invariant QuestionsEnd(p, Some(HEADER), end, numQuestions) == QuestionsEnd(p, r, end, numQuestions - i)
    {
      r := SkipQuestion(p, r.value, end);
      i := i + 1;
    }
    if r == None { NoMoreQuestions(p, end, numQuestions - i); }
  }

  lemma {:induction false} NoMoreQuestions(p: seq<byte>, end: nat, count: nat)
    requires end < |p|
    ensures QuestionsEnd(p, None, end, count) == None
    decreases count
  {
    if count > 0 { NoMoreQuestions(p, end, count - 1); }
  }

  lemma {:induction false} NoMoreRecords(p: seq<byte>, end: nat, count: nat)
    requires end < |p|
    ensures RecordsEnd(p, None, end, count) == None
    decreases count
  {
    if count > 0 { NoMoreRecords(p, end, count - 1); }
  }

  method LocateAuthorities(p: seq<byte>, end: nat, numQuestions: nat, numAnswers: nat) returns (r: Option<int>)
    requires end < |p|
    ensures r == RecordsEnd(p, QuestionsEnd(p, Some(HEADER), end, numQuestions), end, numAnswers)
  {
    hide RecordEnd;
    r := LocateAnswers(p, end, numQuestions);
    ghost var start := r;
    var i := 0;
    while i < numAnswers && r.Some?
      invariant i <= numAnswers
      invariant RecordsEnd(p, start, end, numAnswers) == RecordsEnd(p, r, end, numAnswers - i)
    {
      r := SkipResourceRecord(p, r.value, end);
      i := i + 1;
    }
    if r == None { NoMoreRecords(p, end, numAnswers - i); }
  }

  /** This loop has no test for null: skipResourceRecord is handed the null and passes it on. */
  method LocateAdditionals(p: seq<byte>, end: nat, numQuestions: nat, numAnswers: nat, numAuthorities: nat)
    returns (r: Option<int>)
    requires end < |p|
    ensures r == RecordsEnd(p, RecordsEnd(p, QuestionsEnd(p, Some(HEADER), end, numQuestions), end, numAnswers),
                            end, numAuthorities)
  {
    hide RecordEnd;
    r := LocateAuthorities(p, end, numQuestions, numAnswers);
    ghost var start := r;
    for i := 0 to numAuthorities
      invariant RecordsEnd(p, start, end, numAuthorities) == RecordsEnd(p, r, end, numAuthorities - i)
    {
      if r.Some? {
        r := SkipResourceRecord(p, r.value, end);
      } else {
        NullRecord(p, end);
      }
    }
  }

  lemma NullRecord(p: seq<byte>, end: nat)
    requires end < |p|
    ensures RecordEnd(p, None, end) == None
  {
  }

  // ----- The two agree

  lemma QuestionEndRefines(p: seq<byte>, i: int, end: nat)
    requires end < |p| && ReadQuestion(p, i, end).Some?
    ensures QuestionEnd(p, Some(i), end) == Some(ReadQuestion(p, i, end).value.1)
  {
    SkipRefinesRead(p, i, end, 0);
  }

  lemma RecordEndRefines(p: seq<byte>, i: int, end: nat)
    requires end < |p| && ReadRecord(p, i, end).Some?
    ensures RecordEnd(p, Some(i), end) == Some(ReadRecord(p, i, end).value.1)
  {
    SkipRefinesRead(p, i, end, 0);
  }

  lemma {:induction false} QuestionsEndRefines(p: seq<byte>, i: int, end: nat, count: nat)
    requires end < |p| && ReadQuestions(p, i, end, count).Some?
    ensures QuestionsEnd(p, Some(i), end, count) == Some(ReadQuestions(p, i, end, count).value.1)
    decreases count
  {
    hide ReadQuestion, QuestionEnd;
    if count > 0 {
      QuestionEndRefines(p, i, end);
      QuestionsEndRefines(p, ReadQuestion(p, i, end).value.1, end, count - 1);
    }
  }

  lemma {:induction false} RecordsEndRefines(p: seq<byte>, i: int, end: nat, count: nat)
    requires end < |p| && ReadRecords(p, i, end, count).Some?
    ensures RecordsEnd(p, Some(i), end, count) == Some(ReadRecords(p, i, end, count).value.1)
    decreases count
  {
    hide ReadRecord, RecordEnd;
    if count > 0 {
      RecordEndRefines(p, i, end);
      RecordsEndRefines(p, ReadRecord(p, i, end).value.1, end, count - 1);
    }
  }

  /** Whenever parsing everything in front of a section succeeds, the Locate routine lands where it does. */
  lemma LocateLandsWhereParsingDoes(p: seq<byte>, end: nat, numQuestions: nat, numAnswers: nat, numAuthorities: nat)
    requires end < |p| && ReadQuestions(p, 12, end, numQuestions).Some?
    ensures var i := ReadQuestions(p, 12, end, numQuestions).value.1;
            && QuestionsEnd(p, Some(12), end, numQuestions) == Some(i)
            && (ReadRecords(p, i, end, numAnswers).Some? ==>
                  var j := ReadRecords(p, i, end, numAnswers).value.1;
                  && RecordsEnd(p, Some(i), end, numAnswers) == Some(j)
                  && (ReadRecords(p, j, end, numAuthorities).Some? ==>
                        RecordsEnd(p, Some(j), end, numAuthorities)
                        == Some(ReadRecords(p, j, end, numAuthorities).value.1)))
  {
    hide ReadQuestions, ReadRecords, QuestionsEnd, RecordsEnd;
    QuestionsEndRefines(p, 12, end, numQuestions);
    var i := ReadQuestions(p, 12, end, numQuestions).value.1;
    if ReadRecords(p, i, end, numAnswers).Some? {
      RecordsEndRefines(p, i, end, numAnswers);
      var j := ReadRecords(p, i, end, numAnswers).value.1;
      if ReadRecords(p, j, end, numAuthorities).Some? {
        RecordsEndRefines(p, j, end, numAuthorities);
      }
    }
  }
}
