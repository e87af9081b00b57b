// DNS messages: parsing from and serializing to the wire format of section 4.1 of RFC 1035.
module DnsMessage {
  import opened Wrappers
  import opened Sequences
  import opened Text
  import opened DnsNames

  const TYPE_A := 1
  const TYPE_AAAA := 28
  const CLASS_IN := 1
  const RCODE_NOERROR := 0
  const RCODE_FORMERR := 1
  const RCODE_SERVFAIL := 2

  datatype DNSQuestion = DNSQuestion(qname: string, qtype: int, qclass: int)

  datatype DNSRecord = DNSRecord(name: string, rtype: int, rclass: int, ttl: int, rdata: seq<byte>)

  /** Header fields are Python integers: nothing keeps them in range but the parser. */
  datatype DNSMessage = DNSMessage(
    id: int, qr: int, opcode: int, aa: int, tc: int, rd: int, ra: int, z: int, rcode: int,
    questions: seq<DNSQuestion>, answers: seq<DNSRecord>, authorities: seq<DNSRecord>, additionals: seq<DNSRecord>)

  datatype WireError =
    | PacketTooShort
    | BadName(name: NameError)
    | MalformedQuestion
    | MalformedRecord
    | RdataTooLong
    | FieldOutOfRange    // struct.error
    | NotAscii           // UnicodeEncodeError
    | LabelOverflow      // a length that does not fit a byte

  // ---------------------------------------------------------------- parsing

  function U16(data: seq<byte>, at: nat): (v: nat)
    requires at + 2 <= |data|
    ensures v < 0x1_0000
  {
    (data[at] as int) * 256 + data[at + 1]
  }

  function U32(data: seq<byte>, at: nat): (v: nat)
    requires at + 4 <= |data|
    ensures v < 0x1_0000_0000
  {
    U16(data, at) * 0x1_0000 + U16(data, at + 2)
  }

  /** `(word >> shift) & mask`, for a field of `size == mask + 1` values at bit weight `weight`. */
  function Field(word: nat, weight: nat, size: nat): nat
    requires weight > 0 && size > 0
  {
    word / weight % size
  }

  function Header(id: nat, flags: nat): DNSMessage {
    DNSMessage(id,
      Field(flags, 0x8000, 2), Field(flags, 0x800, 16), Field(flags, 0x400, 2), Field(flags, 0x200, 2),
      Field(flags, 0x100, 2), Field(flags, 0x80, 2), Field(flags, 0x10, 8), Field(flags, 1, 16),
      [], [], [], [])
  }

  ghost function QuestionAt(data: seq<byte>, offset: nat): (r: Result<(DNSQuestion, nat), WireError>) {
    match NameAt(data, offset)
    case Failure(e) => Failure(BadName(e))
    case Success((qname, at)) =>
      if at + 4 > |data| then Failure(MalformedQuestion)
      else Success((DNSQuestion(qname, U16(data, at), U16(data, at + 2)), at + 4))
  }

  ghost function RecordAt(data: seq<byte>, offset: nat): (r: Result<(DNSRecord, nat), WireError>) {
    match NameAt(data, offset)
    case Failure(e) => Failure(BadName(e))
    case Success((name, at)) =>
      if at + 10 > |data| then Failure(MalformedRecord)
      else
        var end := at + 10 + U16(data, at + 8);
        if end > |data| then Failure(RdataTooLong)
        else Success((DNSRecord(name, U16(data, at), U16(data, at + 2), U32(data, at + 4), data[at + 10..end]), end))
  }

  /** The first `n` questions from `offset`, in order. */
  ghost function QuestionsAt(data: seq<byte>, offset: nat, n: nat): (r: Result<(seq<DNSQuestion>, nat), WireError>)
    ensures r.Success? ==> |r.value.0| == n
  {
    if n == 0 then Success(([], offset))
    else
      var init :- QuestionsAt(data, offset, n - 1);
      var last :- QuestionAt(data, init.1);
      Success((init.0 + [last.0], last.1))
  }

  ghost function RecordsAt(data: seq<byte>, offset: nat, n: nat): (r: Result<(seq<DNSRecord>, nat), WireError>)
    ensures r.Success? ==> |r.value.0| == n
  {
    if n == 0 then Success(([], offset))
    else
      var init :- RecordsAt(data, offset, n - 1);
      var last :- RecordAt(data, init.1);
      Success((init.0 + [last.0], last.1))
  }

  /** What a packet means. */
  ghost function Parsed(data: seq<byte>): Result<DNSMessage, WireError> {
    if |data| < 12 then Failure(PacketTooShort)
    else
      var questions :- QuestionsAt(data, 12, U16(data, 4));
      var answers :- RecordsAt(data, questions.1, U16(data, 6));
      var authorities :- RecordsAt(data, answers.1, U16(data, 8));
      var additionals :- RecordsAt(data, authorities.1, U16(data, 10));
      Success(Header(U16(data, 0), U16(data, 2)).(
        questions := questions.0, answers := answers.0, authorities := authorities.0, additionals := additionals.0))
  }

  lemma {:induction false} QuestionsFail(data: seq<byte>, offset: nat, m: nat, n: nat)
    requires m <= n && QuestionsAt(data, offset, m).Failure?
    ensures QuestionsAt(data, offset, n) == QuestionsAt(data, offset, m)
  {
    if m < n {
      QuestionsFail(data, offset, m, n - 1);
    }
  }

  lemma {:induction false} RecordsFail(data: seq<byte>, offset: nat, m: nat, n: nat)
    requires m <= n && RecordsAt(data, offset, m).Failure?
    ensures RecordsAt(data, offset, n) == RecordsAt(data, offset, m)
  {
    if m < n {
      RecordsFail(data, offset, m, n - 1);
    }
  }

  method ReadRecord(data: seq<byte>, start: nat) returns (r: Result<(DNSRecord, nat), WireError>)
    ensures r == RecordAt(data, start)
  {
    var read := ReadName(data, start);
    if read.Failure? {
      return Failure(BadName(read.error));
    }
    var (name, offset) := read.value;
    if offset + 10 > |data| {
      return Failure(MalformedRecord);
    }
    var rtype, rclass, ttl, rdlength :=
      U16(data, offset), U16(data, offset + 2), U32(data, offset + 4), U16(data, offset + 8);
    offset := offset + 10;
    if offset + rdlength > |data| {
      return Failure(RdataTooLong);
    }
    var rdata := data[offset..offset + rdlength];
    offset := offset + rdlength;
    return Success((DNSRecord(name, rtype, rclass, ttl, rdata), offset));
  }

  /** One of the three record loops of the parser. */
  method ReadRecords(data: seq<byte>, start: nat, count: nat) returns (r: Result<(seq<DNSRecord>, nat), WireError>)
    ensures r == RecordsAt(data, start, count)
  {
    var records: seq<DNSRecord> := [];
    var offset := start;
    for i := 0 to count
      invariant RecordsAt(data, start, i) == Success((records, offset))
    {
      var record := ReadRecord(data, offset);
      if record.Failure? {
        RecordsFail(data, start, i + 1, count);
        return Failure(record.error);
      }
      records := records + [record.value.0];
      offset := record.value.1;
    }
    return Success((records, offset));
  }

  method ReadQuestions(data: seq<byte>, start: nat, count: nat)
    returns (r: Result<(seq<DNSQuestion>, nat), WireError>)
    ensures r == QuestionsAt(data, start, count)
  {
    var questions: seq<DNSQuestion> := [];
    var offset := start;
    for i := 0 to count
      invariant QuestionsAt(data, start, i) == Success((questions, offset))
    {
      var read := ReadName(data, offset);
      if read.Failure? {
        QuestionsFail(data, start, i + 1, count);
        return Failure(BadName(read.error));
      }
      var (qname, at) := read.value;
      if at + 4 > |data| {
        QuestionsFail(data, start, i + 1, count);
        return Failure(MalformedQuestion);
      }
      questions := questions + [DNSQuestion(qname, U16(data, at), U16(data, at + 2))];
      offset := at + 4;
    }
    return Success((questions, offset));
  }

  method Parse(data: seq<byte>) returns (r: Result<DNSMessage, WireError>)
    ensures r == Parsed(data)
  {
    if |data| < 12 {
      return Failure(PacketTooShort);
    }
    var msg := Header(U16(data, 0), U16(data, 2));
    var offset := 12;
    var questions :- ReadQuestions(data, offset, U16(data, 4));
    var answers :- ReadRecords(data, questions.1, U16(data, 6));
    var authorities :- ReadRecords(data, answers.1, U16(data, 8));
    var additionals :- ReadRecords(data, authorities.1, U16(data, 10));
    return Success(msg.(questions := questions.0, answers := answers.0,
                        authorities := authorities.0, additionals := additionals.0));
  }

  // ---------------------------------------------------------------- size of what parses

  lemma {:induction false} QuestionsSize(data: seq<byte>, offset: nat, n: nat)
    requires offset <= |data| && QuestionsAt(data, offset, n).Success?
    ensures offset + 5 * n <= QuestionsAt(data, offset, n).value.1 <= |data|
  {
    if n > 0 {
      QuestionsSize(data, offset, n - 1);
      NameAtBounds(data, QuestionsAt(data, offset, n - 1).value.1);
    }
  }

  lemma {:induction false} RecordsSize(data: seq<byte>, offset: nat, n: nat)
    requires offset <= |data| && RecordsAt(data, offset, n).Success?
    ensures offset + 11 * n <= RecordsAt(data, offset, n).value.1 <= |data|
  {
    if n > 0 {
      RecordsSize(data, offset, n - 1);
      NameAtBounds(data, RecordsAt(data, offset, n - 1).value.1);
    }
  }

  /** A packet that parses is long enough for everything it holds: no name, question or record is
      ever produced out of nothing, however the names are compressed. */
  lemma ParsedSize(data: seq<byte>)
    requires Parsed(data).Success?
    ensures var m := Parsed(data).value;
            12 + 5 * |m.questions| + 11 * (|m.answers| + |m.authorities| + |m.additionals|) <= |data|
  {
    var q, a, u := U16(data, 4), U16(data, 6), U16(data, 8);
    QuestionsSize(data, 12, q);
    var o1 := QuestionsAt(data, 12, q).value.1;
    RecordsSize(data, o1, a);
    var o2 := RecordsAt(data, o1, a).value.1;
    RecordsSize(data, o2, u);
    RecordsSize(data, RecordsAt(data, o2, u).value.1, U16(data, 10));
  }

  // ---------------------------------------------------------------- serializing

  function NameLabels(name: string): (labels: seq<string>)
    ensures labels != []
  {
    Split(Strip(name, {'.'}), '.')
  }

  predicate EncodableLabel(text: string) {
    IsAscii(text) && |text| < 256
  }

  predicate EncodableName(name: string) {
    forall i :: 0 <= i < |NameLabels(name)| ==> EncodableLabel(NameLabels(name)[i])
  }

  function LabelBytes(text: string): (b: seq<byte>)
    requires EncodableLabel(text)
    ensures |b| == 1 + |text|
  {
    [|text|] + seq(|text|, i requires 0 <= i < |text| => text[i] as int)
  }

  function LabelsBytes(labels: seq<string>): seq<byte>
    requires forall i :: 0 <= i < |labels| ==> EncodableLabel(labels[i])
  {
    if labels == [] then [] else LabelBytes(labels[0]) + LabelsBytes(labels[1..])
  }

  function NameBytes(name: string): seq<byte>
    requires EncodableName(name)
  {
    LabelsBytes(NameLabels(name)) + [0]
  }

  predicate Fits16(v: int) {
    0 <= v < 0x1_0000
  }

  predicate Fits32(v: int) {
    0 <= v < 0x1_0000_0000
  }

  function Pack16(v: int): (b: seq<byte>)
    requires Fits16(v)
    ensures |b| == 2
  {
    [v / 256, v % 256]
  }

  function Pack32(v: int): (b: seq<byte>)
    requires Fits32(v)
    ensures |b| == 4
  {
    Pack16(v / 0x1_0000) + Pack16(v % 0x1_0000)
  }

  predicate EncodableQuestion(q: DNSQuestion) {
    EncodableName(q.qname) && Fits16(q.qtype) && Fits16(q.qclass)
  }

  predicate EncodableRecord(rr: DNSRecord) {
    EncodableName(rr.name) && Fits16(rr.rtype) && Fits16(rr.rclass) && Fits32(rr.ttl) && Fits16(|rr.rdata|)
  }

  predicate Encodable(m: DNSMessage) {
    && Fits16(m.id)
    && Fits16(|m.questions|) && Fits16(|m.answers|) && Fits16(|m.authorities|) && Fits16(|m.additionals|)
    && EncodableQuestions(m.questions)
    && EncodableRecords(m.answers) && EncodableRecords(m.authorities) && EncodableRecords(m.additionals)
  }

  predicate EncodableQuestions(qs: seq<DNSQuestion>) {
    forall i :: 0 <= i < |qs| ==> EncodableQuestion(qs[i])
  }

  predicate EncodableRecords(rrs: seq<DNSRecord>) {
    forall i :: 0 <= i < |rrs| ==> EncodableRecord(rrs[i])
  }

  function QuestionBytes(q: DNSQuestion): seq<byte>
    requires EncodableQuestion(q)
  {
    NameBytes(q.qname) + (Pack16(q.qtype) + Pack16(q.qclass))
  }

  function RecordFields(rr: DNSRecord): (b: seq<byte>)
    requires EncodableRecord(rr)
    ensures |b| == 10
  {
    Pack16(rr.rtype) + Pack16(rr.rclass) + Pack32(rr.ttl) + Pack16(|rr.rdata|)
  }

  function RecordBytes(rr: DNSRecord): seq<byte>
    requires EncodableRecord(rr)
  {
    NameBytes(rr.name) + (RecordFields(rr) + rr.rdata)
  }

  function QuestionsBytes(qs: seq<DNSQuestion>): seq<byte>
    requires EncodableQuestions(qs)
  {
    if qs == [] then [] else QuestionsBytes(qs[..|qs| - 1]) + QuestionBytes(qs[|qs| - 1])
  }

  function RecordsBytes(rrs: seq<DNSRecord>): seq<byte>
    requires EncodableRecords(rrs)
  {
    if rrs == [] then [] else RecordsBytes(rrs[..|rrs| - 1]) + RecordBytes(rrs[|rrs| - 1])
  }

  /** The flag word: each field masked to its width and shifted to its place. The fields do not
      overlap, so joining them with `|` is adding them. */
  function FlagWord(m: DNSMessage): (w: nat)
    ensures w < 0x1_0000
  {
    m.qr % 2 * 0x8000 + m.opcode % 16 * 0x800 + m.aa % 2 * 0x400 + m.tc % 2 * 0x200
      + m.rd % 2 * 0x100 + m.ra % 2 * 0x80 + m.z % 8 * 0x10 + m.rcode % 16
  }

  function HeaderBytes(m: DNSMessage): (b: seq<byte>)
    requires Encodable(m)
    ensures |b| == 12
  {
    Pack16(m.id) + Pack16(FlagWord(m)) + Pack16(|m.questions|) + Pack16(|m.answers|)
      + Pack16(|m.authorities|) + Pack16(|m.additionals|)
  }

  function MessageBytes(m: DNSMessage): seq<byte>
    requires Encodable(m)
  {
    HeaderBytes(m) + QuestionsBytes(m.questions) + RecordsBytes(m.answers)
      + RecordsBytes(m.authorities) + RecordsBytes(m.additionals)
  }

  lemma {:induction false} LabelsBytesSnoc(labels: seq<string>, text: string)
    requires forall i :: 0 <= i < |labels| ==> EncodableLabel(labels[i])
    requires EncodableLabel(text)
    ensures LabelsBytes(labels + [text]) == LabelsBytes(labels) + LabelBytes(text)
  {
    if labels == [] {
      assert [text][1..] == [];
    } else {
      LabelsBytesSnoc(labels[1..], text);
      assert (labels + [text])[1..] == labels[1..] + [text];
    }
  }

  method EncodeName(name: string) returns (r: Result<seq<byte>, WireError>)
    ensures r.Success? <==> EncodableName(name)
    ensures r.Success? ==> r.value == NameBytes(name)
  {
    var data: seq<byte> := [];
    var labels := NameLabels(name);
    for i := 0 to |labels|
      invariant forall k :: 0 <= k < i ==> EncodableLabel(labels[k])
      invariant data == LabelsBytes(labels[..i])
    {
      var text := labels[i];
      if !IsAscii(text) {
        return Failure(NotAscii);
      }
      if |text| >= 256 {
        return Failure(LabelOverflow);
      }
      LabelsBytesSnoc(labels[..i], text);
      assert labels[..i + 1] == labels[..i] + [text];
      data := data + LabelBytes(text);
    }
    assert labels[..|labels|] == labels;
    return Success(data + [0]);
  }

  method EncodeQuestion(q: DNSQuestion) returns (r: Result<seq<byte>, WireError>)
    ensures r.Success? <==> EncodableQuestion(q)
    ensures r.Success? ==> r.value == QuestionBytes(q)
  {
    var data :- EncodeName(q.qname);
    if !(Fits16(q.qtype) && Fits16(q.qclass)) {
      return Failure(FieldOutOfRange);
    }
    return Success(data + (Pack16(q.qtype) + Pack16(q.qclass)));
  }

  method EncodeRecord(rr: DNSRecord) returns (r: Result<seq<byte>, WireError>)
    ensures r.Success? <==> EncodableRecord(rr)
    ensures r.Success? ==> r.value == RecordBytes(rr)
  {
    var nameBytes :- EncodeName(rr.name);
    if !(Fits16(rr.rtype) && Fits16(rr.rclass) && Fits32(rr.ttl) && Fits16(|rr.rdata|)) {
      return Failure(FieldOutOfRange);
    }
    return Success(nameBytes + (RecordFields(rr) + rr.rdata));
  }

  method EncodeRecords(rrs: seq<DNSRecord>) returns (r: Result<seq<byte>, WireError>)
    ensures r.Success? <==> EncodableRecords(rrs)
    ensures r.Success? ==> r.value == RecordsBytes(rrs)
  {
    var packet: seq<byte> := [];
    for i := 0 to |rrs|
      invariant EncodableRecords(rrs[..i])
      invariant packet == RecordsBytes(rrs[..i])
    {
      var bytes :- EncodeRecord(rrs[i]);
      assert rrs[..i + 1][..i] == rrs[..i];
      packet := packet + bytes;
    }
    assert rrs[..|rrs|] == rrs;
    return Success(packet);
  }

  /** Serializing succeeds exactly for encodable messages: no other exception is raised. */
  method ToBytes(m: DNSMessage) returns (r: Result<seq<byte>, WireError>)
    ensures r.Success? <==> Encodable(m)
    ensures r.Success? ==> r.value == MessageBytes(m)
  {
    if !(Fits16(m.id) && Fits16(|m.questions|) && Fits16(|m.answers|)
         && Fits16(|m.authorities|) && Fits16(|m.additionals|)) {
      return Failure(FieldOutOfRange);
    }
    var packet := Pack16(m.id) + Pack16(FlagWord(m)) + Pack16(|m.questions|) + Pack16(|m.answers|)
      + Pack16(|m.authorities|) + Pack16(|m.additionals|);
    var questions: seq<byte> := [];
    for i := 0 to |m.questions|
      invariant EncodableQuestions(m.questions[..i])
      invariant questions == QuestionsBytes(m.questions[..i])
    {
      var bytes :- EncodeQuestion(m.questions[i]);
      assert m.questions[..i + 1][..i] == m.questions[..i];
      questions := questions + bytes;
    }
    assert m.questions[..|m.questions|] == m.questions;
    var answers :- EncodeRecords(m.answers);
    var authorities :- EncodeRecords(m.authorities);
    var additionals :- EncodeRecords(m.additionals);
    return Success(packet + questions + answers + authorities + additionals);
  }
}
