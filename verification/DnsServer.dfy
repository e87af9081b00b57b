// Answering a query: parse, decide, and either sink it or ask upstream.
module DnsServer {
  import opened Wrappers
  import opened Sequences
  import opened Text
  import opened DnsNames
  import opened DnsMessage
  import opened DnsRoundTrip
  import opened DnsResolver
  import opened Sinkhole

  const SINK_TTL := 300

  datatype Response = Reply(bytes: seq<byte>) | NoReply | Dropped

  function Zeros(n: nat): (z: seq<byte>)
    ensures |z| == n && forall i :: 0 <= i < n ==> z[i] == 0
  {
    seq(n, i => 0)
  }

  /** 0.0.0.0 for address queries, :: for IPv6 address queries, nothing for any other type. */
  function SinkAnswers(q: DNSQuestion): seq<DNSRecord> {
    if q.qtype == TYPE_A then [DNSRecord(q.qname, TYPE_A, CLASS_IN, SINK_TTL, Zeros(4))]
    else if q.qtype == TYPE_AAAA then [DNSRecord(q.qname, TYPE_AAAA, CLASS_IN, SINK_TTL, Zeros(16))]
    else []
  }

  function SinkResponse(m: DNSMessage): DNSMessage {
    DNSMessage(m.id, 1, m.opcode, 1, 0, m.rd, 1, 0, RCODE_NOERROR, m.questions,
      if m.questions == [] then [] else SinkAnswers(m.questions[0]), [], [])
  }

  /** A header-only error response; recursion desired is set by default. */
  function ErrorResponse(id: int, rcode: int): DNSMessage {
    DNSMessage(id, 1, 0, 0, 0, 1, 0, 0, rcode, [], [], [], [])
  }

  method Send(m: DNSMessage) returns (r: Response)
    ensures r == Sent(m)
  {
    var bytes := ToBytes(m);
    return if bytes.Success? then Reply(bytes.value) else Dropped;
  }

  ghost function Sent(m: DNSMessage): Response {
    if Encodable(m) then Reply(MessageBytes(m)) else Dropped
  }

  /** What is sent for a query, and what becomes of the resolver's cache. */
  ghost function Handled(rules: RuleSet, enabled: bool, cache: Cache, query: seq<byte>,
                         replies: seq<Option<seq<byte>>>, asked: real, stored: real): (Response, Cache) {
    match Parsed(query)
    case Failure(_) => (if |query| < 2 then NoReply else Sent(ErrorResponse(U16(query, 0), RCODE_FORMERR)), cache)
    case Success(m) =>
      if m.questions == [] then (Sent(ErrorResponse(m.id, RCODE_SERVFAIL)), cache)
      else if Decision(rules, m.questions[0].qname).0 then (Sent(SinkResponse(m)), cache)
      else
        var (answer, cache') := Resolved(enabled, cache, m, replies, asked, stored);
        (if answer.Some? then Reply(answer.value) else Dropped, cache')
  }

  /** The decision path of the server. `replies`, `asked` and `stored` are what the resolver would
      see of its upstreams and of the clock. */
  method HandleQuery(sinkhole: DomainSinkhole, resolver: DNSResolver, query: seq<byte>,
                     replies: seq<Option<seq<byte>>>, asked: real, stored: real) returns (r: Response)
    modifies resolver
    ensures (r, resolver.cache) ==
            Handled(sinkhole.Rules(), resolver.cacheEnabled, old(resolver.cache), query, replies, asked, stored)
  {
    var parsed := Parse(query);
    if parsed.Failure? {
      if |query| >= 2 {
        r := Send(ErrorResponse(U16(query, 0), RCODE_FORMERR));
      } else {
        r := NoReply;
      }
      return;
    }
    var msg := parsed.value;
    if msg.questions == [] {
      r := Send(ErrorResponse(msg.id, RCODE_SERVFAIL));
      return;
    }
    var blocked, _ := sinkhole.IsBlocked(msg.questions[0].qname);
    if blocked {
      r := Send(SinkResponse(msg));
      return;
    }
    var answer := resolver.Resolve(msg, replies, asked, stored);
    return if answer.Some? then Reply(answer.value) else Dropped;
  }

  // ---------------------------------------------------------------- the sinkhole's reply

  /** Bytes that could not be decoded are the only obstacle to writing a parsed name again: its
      labels are never too long. */
  lemma ParsedNameEncodable(data: seq<byte>, at: nat)
    requires NameAt(data, at).Success?
    ensures EncodableName(NameAt(data, at).value.0) <==> IsAscii(NameAt(data, at).value.0)
  {
    var name := NameAt(data, at).value.0;
    var w := FormAt(data, at);
    var stripped := Strip(name, {'.'});
    WireLabelsAreShort(data, at, w);
    JoinedPiecesAreShort(Labels(w));
    forall i | 0 <= i < |Split(stripped, '.')|
      ensures |Split(stripped, '.')[i]| < 0xC0
    {
      var p := Split(stripped, '.')[i];
      assert p in Split(stripped, '.');
      StripRightPieces(StripLeft(name, {'.'}), p);
      StripLeftPieces(name, p);
      assert p in Split(name, '.');
    }
    LowerPieces(stripped);
    StripKeepsAscii(name);
    assert forall i :: 0 <= i < |NameLabels(name)| ==>
             (EncodableLabel(NameLabels(name)[i]) <==> IsAscii(Split(stripped, '.')[i]));
  }

  lemma StripKeepsAscii(name: string)
    ensures IsAscii(Strip(name, {'.'})) <==> IsAscii(name)
  {
    StripLeftKeepsAscii(name);
    StripRightKeepsAscii(StripLeft(name, {'.'}));
  }

  lemma {:induction false} StripLeftKeepsAscii(s: string)
    ensures IsAscii(StripLeft(s, {'.'})) <==> IsAscii(s)
  {
    if s != [] && s[0] == '.' {
      StripLeftKeepsAscii(s[1..]);
      assert s == s[..1] + s[1..];
      CharsOfConcat(s[..1], s[1..]);
    }
  }

  lemma {:induction false} StripRightKeepsAscii(s: string)
    ensures IsAscii(StripRight(s, {'.'})) <==> IsAscii(s)
  {
    if s != [] && s[|s| - 1] == '.' {
      var n := |s| - 1;
      StripRightKeepsAscii(s[..n]);
      assert s == s[..n] + s[n..];
      CharsOfConcat(s[..n], s[n..]);
    }
  }

  lemma {:induction false} QuestionsEncodable(data: seq<byte>, offset: nat, n: nat)
    requires QuestionsAt(data, offset, n).Success?
    ensures var qs := QuestionsAt(data, offset, n).value.0;
            EncodableQuestions(qs) <==> forall i :: 0 <= i < n ==> IsAscii(qs[i].qname)
  {
    if n > 0 {
      QuestionsEncodable(data, offset, n - 1);
      ParsedNameEncodable(data, QuestionsAt(data, offset, n - 1).value.1);
      var qs, init := QuestionsAt(data, offset, n).value.0, QuestionsAt(data, offset, n - 1).value.0;
      assert qs[..n - 1] == init;
      assert EncodableQuestions(qs) <==> EncodableQuestions(init) && EncodableQuestion(qs[n - 1]) by {
        assert forall i :: 0 <= i < n - 1 ==> qs[i] == init[i];
      }
    }
  }

  /** A blocked query is answered, rather than dropped by an exception, exactly when the names of its
      questions are ASCII. */
  lemma SinkReplyExact(query: seq<byte>)
    requires Parsed(query).Success? && Parsed(query).value.questions != []
    ensures var m := Parsed(query).value;
            Encodable(SinkResponse(m)) <==> forall i :: 0 <= i < |m.questions| ==> IsAscii(m.questions[i].qname)
  {
    QuestionsEncodable(query, 12, U16(query, 4));
    var m := Parsed(query).value;
    assert EncodableQuestions(m.questions) ==> EncodableName(m.questions[0].qname) by {
      if EncodableQuestions(m.questions) { assert EncodableQuestion(m.questions[0]); }
    }
  }

  /** What a client sees of a blocked query: a response to its id and questions, without error, with
      one all-zero address for A and AAAA queries and no answer for any other type. */
  lemma SinkReplyParses(query: seq<byte>)
    requires Parsed(query).Success? && Parsed(query).value.questions != []
    requires CanonicalQuestions(Parsed(query).value.questions)
    ensures var m := Parsed(query).value;
            Encodable(SinkResponse(m)) && Parsed(MessageBytes(SinkResponse(m))) == Success(SinkResponse(m))
  {
    var m := Parsed(query).value;
    ParsedFits(query);
    SinkReplyExact(query);
    forall i | 0 <= i < |m.questions|
      ensures IsAscii(m.questions[i].qname)
    {
      CanonicalIsAscii(m.questions[i].qname);
    }
    RoundTrips(SinkResponse(m));
  }

  lemma CanonicalIsAscii(name: string)
    requires CanonicalName(name)
    ensures IsAscii(name)
  {
    assert forall i :: 0 <= i < |Split(name, '.')| ==> CanonicalLabel(Split(name, '.')[i]);
    LowerPieces(name);
  }

  /** End to end: whatever the resolver's cache and the upstreams hold, the bytes sent for a blocked
      query with canonical question names read as the sinkhole's answer, and nothing is cached. */
  lemma BlockedQueryEndToEnd(rules: RuleSet, enabled: bool, cache: Cache, query: seq<byte>,
                             replies: seq<Option<seq<byte>>>, asked: real, stored: real)
    requires Parsed(query).Success? && Parsed(query).value.questions != []
    requires CanonicalQuestions(Parsed(query).value.questions)
    requires Decision(rules, Parsed(query).value.questions[0].qname).0
    ensures var (response, after) := Handled(rules, enabled, cache, query, replies, asked, stored);
            && after == cache && response.Reply? && Parsed(response.bytes).Success?
            && var m, reply := Parsed(query).value, Parsed(response.bytes).value;
               var q := m.questions[0];
               && reply.id == m.id && reply.questions == m.questions
               && reply.qr == 1 && reply.aa == 1 && reply.rcode == RCODE_NOERROR
               && reply.opcode == m.opcode && reply.rd == m.rd && reply.ra == 1 && reply.tc == 0 && reply.z == 0
               && reply.authorities == [] && reply.additionals == []
               && (q.qtype == TYPE_A ==> reply.answers == [DNSRecord(q.qname, TYPE_A, CLASS_IN, 300, [0, 0, 0, 0])])
               && (q.qtype == TYPE_AAAA ==> reply.answers == [DNSRecord(q.qname, TYPE_AAAA, CLASS_IN, 300, Zeros(16))])
               && (q.qtype != TYPE_A && q.qtype != TYPE_AAAA ==> reply.answers == [])
  {
    SinkReplyParses(query);
    assert Zeros(4) == [0, 0, 0, 0];
  }

  // ---------------------------------------------------------------- permitted queries

  /** The query parses, asks something, and no rule blocks the name it asks for first. */
  ghost predicate Permitted(rules: RuleSet, query: seq<byte>) {
    && Parsed(query).Success? && Parsed(query).value.questions != []
    && !Decision(rules, Parsed(query).value.questions[0].qname).0
  }

  /** Where the cache keeps the answers to a message: under the lower-case name and the type of its
      first question. */
  function Place(m: DNSMessage): CacheKey
    requires m.questions != []
  {
    (Lower(m.questions[0].qname), m.questions[0].qtype)
  }

  ghost predicate Fresh(enabled: bool, cache: Cache, m: DNSMessage, now: real)
    requires m.questions != []
  {
    enabled && Place(m) in cache && cache[Place(m)].expiresAt > now
  }

  /** The cache without the expired entry that the query found. */
  ghost function Swept(enabled: bool, cache: Cache, m: DNSMessage): Cache
    requires m.questions != []
  {
    if enabled then map k | k in cache && k != Place(m) :: cache[k] else cache
  }

  /** A permitted query with a fresh entry in the cache gets the stored message under its own id, and
      upstreams are not asked. If the stored message cannot be written again, nothing is sent. */
  lemma PermittedFromCache(rules: RuleSet, enabled: bool, cache: Cache, query: seq<byte>,
                           replies: seq<Option<seq<byte>>>, asked: real, stored: real)
    requires Permitted(rules, query) && Fresh(enabled, cache, Parsed(query).value, asked)
    requires Parsed(cache[Place(Parsed(query).value)].responseBytes).Success?
    ensures var (response, after) := Handled(rules, enabled, cache, query, replies, asked, stored);
            var m := Parsed(query).value;
            var kept := Parsed(cache[Place(m)].responseBytes).value.(id := m.id);
            && after == cache
            && (response.Reply? <==> Encodable(kept))
            && (response.Reply? && Parsed(response.bytes) == Success(kept) <==> SurvivesWire(Items(kept)))
            && !response.NoReply?
  {
    var m := Parsed(query).value;
    ParsedFits(query);
    ParsedReencodes(cache[Place(m)].responseBytes, m.id);
  }

  /** Without a fresh entry it gets the bytes of the first upstream that says anything, unchanged. They
      are cached in the place of the query, if they parse and have answers, for their lifetime. */
  lemma PermittedFromUpstream(rules: RuleSet, enabled: bool, cache: Cache, query: seq<byte>,
                              replies: seq<Option<seq<byte>>>, asked: real, stored: real, i: nat)
    requires Permitted(rules, query) && !Fresh(enabled, cache, Parsed(query).value, asked)
    requires FirstToReply(replies, i)
    ensures var (response, after) := Handled(rules, enabled, cache, query, replies, asked, stored);
            var m, reply := Parsed(query).value, replies[i].value;
            var answers := if Parsed(reply).Success? then Parsed(reply).value.answers else [];
            && response == Reply(reply)
            && (enabled && answers != [] ==>
                  && Place(m) in after && after[Place(m)].responseBytes == reply
                  && (exists seconds :: LivesFor(answers, seconds) && after[Place(m)].expiresAt == stored + seconds as real)
                  && Swept(true, after, m) == Swept(true, cache, m))
            && (!enabled || answers == [] ==> after == Swept(enabled, cache, m))
  {
    var m, reply := Parsed(query).value, replies[i].value;
    FirstReplyOf(replies, i);
    KeyIsPlace(m);
    SweptAfterLookup(enabled, cache, m, asked);
    StoredUpstream(AfterLookup(cache, m, asked), m, reply, stored);
  }

  lemma KeyIsPlace(m: DNSMessage)
    requires m.questions != []
    ensures CacheKeyOf(m) == Some(Place(m))
  {
  }

  lemma SweptAfterLookup(enabled: bool, cache: Cache, m: DNSMessage, now: real)
    requires m.questions != [] && !Fresh(enabled, cache, m, now)
    ensures (if enabled then AfterLookup(cache, m, now) else cache) == Swept(enabled, cache, m)
  {
    KeyIsPlace(m);
  }

  lemma StoredUpstream(cache: Cache, m: DNSMessage, reply: seq<byte>, now: real)
    requires m.questions != []
    ensures var after := AfterStore(cache, m, reply, now);
            if Parsed(reply).Success? && Parsed(reply).value.answers != [] then
              && Place(m) in after && after[Place(m)].responseBytes == reply
              && (exists seconds :: LivesFor(Parsed(reply).value.answers, seconds)
                                    && after[Place(m)].expiresAt == now + seconds as real)
              && Swept(true, after, m) == Swept(true, cache, m)
            else after == cache
  {
    KeyIsPlace(m);
    if Parsed(reply).Success? && Parsed(reply).value.answers != [] {
      LifetimeExact(reply, Lifetime(reply).value);
    }
  }

  /** Without an entry and without an upstream that says anything, it is told that the servers failed,
      if its names can be written again. */
  lemma PermittedWithoutAnswer(rules: RuleSet, enabled: bool, cache: Cache, query: seq<byte>,
                               replies: seq<Option<seq<byte>>>, asked: real, stored: real)
    requires Permitted(rules, query) && !Fresh(enabled, cache, Parsed(query).value, asked)
    requires forall i :: 0 <= i < |replies| ==> Silent(replies[i])
    ensures var (response, after) := Handled(rules, enabled, cache, query, replies, asked, stored);
            var m := Parsed(query).value;
            && after == Swept(enabled, cache, m)
            && (response.Reply? <==> forall i :: 0 <= i < |m.questions| ==> IsAscii(m.questions[i].qname))
            && (CanonicalQuestions(m.questions) ==> response.Reply? && IsServfail(m, response.bytes))
  {
    var m := Parsed(query).value;
    NoReplyExact(replies);
    SweptAfterLookup(enabled, cache, m, asked);
    KeyIsPlace(m);
    ServfailExact(query);
  }

  /** The bytes tell the client of `m` that the servers failed. */
  ghost predicate IsServfail(m: DNSMessage, bytes: seq<byte>) {
    && Parsed(bytes).Success?
    && var reply := Parsed(bytes).value;
       && reply.id == m.id && reply.questions == m.questions && reply.qr == 1 && reply.rcode == 2
       && reply.opcode == m.opcode && reply.rd == m.rd && reply.ra == 1
       && reply.aa == 0 && reply.tc == 0 && reply.z == 0
       && reply.answers == [] && reply.authorities == [] && reply.additionals == []
  }

  lemma ServfailExact(query: seq<byte>)
    requires Parsed(query).Success?
    ensures var m := Parsed(query).value;
            && (Encodable(Servfail(m)) <==> forall i :: 0 <= i < |m.questions| ==> IsAscii(m.questions[i].qname))
            && (CanonicalQuestions(m.questions) ==> Encodable(Servfail(m)) && IsServfail(m, MessageBytes(Servfail(m))))
  {
    var m := Parsed(query).value;
    ParsedFits(query);
    QuestionsEncodable(query, 12, U16(query, 4));
    if CanonicalQuestions(m.questions) {
      forall i | 0 <= i < |m.questions|
        ensures IsAscii(m.questions[i].qname)
      {
        CanonicalIsAscii(m.questions[i].qname);
      }
      RoundTrips(Servfail(m));
    }
  }

  // ---------------------------------------------------------------- queries that cannot be answered

  /** The bytes are a response without any content but this id and code. */
  ghost predicate IsError(bytes: seq<byte>, id: int, rcode: int) {
    && Parsed(bytes).Success?
    && var reply := Parsed(bytes).value;
       && reply.id == id && reply.qr == 1 && reply.rcode == rcode && Items(reply) == []
       && reply.opcode == 0 && reply.aa == 0 && reply.tc == 0 && reply.rd == 1 && reply.ra == 0 && reply.z == 0
  }

  /** Bytes that do not parse are answered with a format error under the id in their first two bytes,
      and not at all if they have fewer; a query without questions with a failure. Nothing is cached. */
  lemma UnusableQuery(rules: RuleSet, enabled: bool, cache: Cache, query: seq<byte>,
                      replies: seq<Option<seq<byte>>>, asked: real, stored: real)
    requires Parsed(query).Success? ==> Parsed(query).value.questions == []
    ensures var (response, after) := Handled(rules, enabled, cache, query, replies, asked, stored);
            && after == cache
            && (|query| < 2 ==> response == NoReply)
            && (|query| >= 2 ==> response.Reply?
                                 && IsError(response.bytes, (query[0] as int) * 256 + query[1],
                                            if Parsed(query).Success? then 2 else 1))
  {
    if |query| >= 2 {
      ErrorReplyParses(U16(query, 0), RCODE_FORMERR);
      ErrorReplyParses(U16(query, 0), RCODE_SERVFAIL);
    }
  }

  /** An error response is always sent, and reads back as itself. */
  lemma ErrorReplyParses(id: int, rcode: int)
    requires Fits16(id) && 0 <= rcode < 16
    ensures Encodable(ErrorResponse(id, rcode))
    ensures Parsed(MessageBytes(ErrorResponse(id, rcode))) == Success(ErrorResponse(id, rcode))
  {
    RoundTrips(ErrorResponse(id, rcode));
  }
}
