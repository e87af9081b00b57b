// The upstream resolver's TTL cache, and what a run of stores and lookups can observe of it.
module DnsResolver {
  import opened Wrappers
  import opened Sequences
  import opened Text
  import opened DnsNames
  import opened DnsMessage
  import opened DnsRoundTrip

  type CacheKey = (string, int)
  datatype CacheEntry = CacheEntry(responseBytes: seq<byte>, expiresAt: real)
  type Cache = map<CacheKey, CacheEntry>

  /** A lookup misses, answers with bytes, or raises because the stored message cannot be re-encoded. */
  datatype CacheAnswer = Miss | Hit(bytes: seq<byte>) | Raised

  function CacheKeyOf(msg: DNSMessage): Option<CacheKey> {
    if msg.questions == [] then None
    else Some((Lower(msg.questions[0].qname), msg.questions[0].qtype))
  }

  function MinTtl(answers: seq<DNSRecord>): (ttl: int)
    requires answers != []
    ensures exists i :: 0 <= i < |answers| && ttl == answers[i].ttl
    ensures forall i :: 0 <= i < |answers| ==> ttl <= answers[i].ttl
  {
    if |answers| == 1 then answers[0].ttl
    else
      var rest := MinTtl(answers[1..]);
      if answers[0].ttl <= rest then answers[0].ttl else rest
  }

  function Min(a: int, b: int): int {
    if a <= b then a else b
  }

  function Max(a: int, b: int): int {
    if a <= b then b else a
  }

  /** How long a response may be cached, in seconds; None if it may not be cached at all. */
  ghost function Lifetime(response: seq<byte>): Option<int> {
    match Parsed(response)
    case Failure(_) => None
    case Success(m) => if m.answers == [] then None else Some(Max(10, Min(MinTtl(m.answers), 3600)))
  }

  /** The stored response under the id of the query. */
  ghost function Readdressed(response: seq<byte>, id: int): CacheAnswer {
    match Parsed(response)
    case Failure(_) => Raised
    case Success(m) => if Encodable(m.(id := id)) then Hit(MessageBytes(m.(id := id))) else Raised
  }

  ghost function Answer(cache: Cache, msg: DNSMessage, now: real): CacheAnswer {
    match CacheKeyOf(msg)
    case None => Miss
    case Some(key) =>
      if key in cache && cache[key].expiresAt > now then Readdressed(cache[key].responseBytes, msg.id) else Miss
  }

  /** A lookup deletes the entry it finds expired. */
  ghost function AfterLookup(cache: Cache, msg: DNSMessage, now: real): Cache {
    match CacheKeyOf(msg)
    case None => cache
    case Some(key) => if key in cache && cache[key].expiresAt <= now then cache - {key} else cache
  }

  ghost function AfterStore(cache: Cache, msg: DNSMessage, response: seq<byte>, now: real): Cache {
    var key, ttl := CacheKeyOf(msg), Lifetime(response);
    if key.Some? && ttl.Some? then cache[key.value := CacheEntry(response, now + ttl.value as real)] else cache
  }

  /** The first upstream reply that is neither a failure nor empty. */
  function FirstReply(replies: seq<Option<seq<byte>>>): Option<seq<byte>> {
    if replies == [] then None
    else if replies[0].Some? && replies[0].value != [] then replies[0]
    else FirstReply(replies[1..])
  }

  function Servfail(msg: DNSMessage): DNSMessage {
    DNSMessage(msg.id, 1, msg.opcode, 0, 0, msg.rd, 1, 0, RCODE_SERVFAIL, msg.questions, [], [], [])
  }

  /** What resolving a query returns (None where it raises) and what becomes of the cache: a hit or a
      failing hit ends it; otherwise the first usable reply is cached and returned as it is, and
      without one the client is told that the servers failed. */
  ghost function Resolved(enabled: bool, cache: Cache, msg: DNSMessage, replies: seq<Option<seq<byte>>>,
                          asked: real, stored: real): (Option<seq<byte>>, Cache) {
    var lookup := if enabled then Answer(cache, msg, asked) else Miss;
    var looked := if enabled then AfterLookup(cache, msg, asked) else cache;
    match lookup
    case Hit(bytes) => (Some(bytes), looked)
    case Raised => (None, looked)
    case Miss =>
      match FirstReply(replies)
      case Some(reply) => (Some(reply), if enabled then AfterStore(looked, msg, reply, stored) else looked)
      case None => (if Encodable(Servfail(msg)) then Some(MessageBytes(Servfail(msg))) else None, looked)
  }

  class DNSResolver {
    const cacheEnabled: bool
    var cache: Cache

    constructor (cacheEnabled: bool)
      ensures this.cacheEnabled == cacheEnabled && cache == map[]
    {
      this.cacheEnabled := cacheEnabled;
      cache := map[];
    }

    method GetCachedResponse(msg: DNSMessage, now: real) returns (r: CacheAnswer)
      modifies this
      ensures r == if cacheEnabled then Answer(old(cache), msg, now) else Miss
      ensures cache == if cacheEnabled then AfterLookup(old(cache), msg, now) else old(cache)
    {
      if !cacheEnabled {
        return Miss;
      }
      var key := CacheKeyOf(msg);
      if key.None? {
        return Miss;
      }
      if key.value in cache {
        var entry := cache[key.value];
        if entry.expiresAt > now {
          var cached := Parse(entry.responseBytes);
          if cached.Failure? {
            return Raised;
          }
          var bytes := ToBytes(cached.value.(id := msg.id));
          return if bytes.Success? then Hit(bytes.value) else Raised;
        } else {
          cache := cache - {key.value};
        }
      }
      return Miss;
    }

    method StoreCache(msg: DNSMessage, response: seq<byte>, now: real)
      modifies this
      ensures cache == if cacheEnabled then AfterStore(old(cache), msg, response, now) else old(cache)
    {
      if !cacheEnabled {
        return;
      }
      var key := CacheKeyOf(msg);
      if key.None? {
        return;
      }
      var parsed := Parse(response);
      if parsed.Failure? || parsed.value.answers == [] {
        return;
      }
      var effectiveTtl := Max(10, Min(MinTtl(parsed.value.answers), 3600));
      assert Lifetime(response) == Some(effectiveTtl);
      cache := cache[key.value := CacheEntry(response, now + effectiveTtl as real)];
    }

    /** `replies` are the upstreams' answers in order, None standing for a timeout or an OS error;
        the clock reads `asked` at the lookup and `stored` when a reply is cached. */
    method Resolve(msg: DNSMessage, replies: seq<Option<seq<byte>>>, asked: real, stored: real)
      returns (r: Option<seq<byte>>)
      modifies this
      ensures (r, cache) == Resolved(cacheEnabled, old(cache), msg, replies, asked, stored)
    {
      var cached := GetCachedResponse(msg, asked);
      match cached {
        case Hit(bytes) => return Some(bytes);
        case Raised => return None;
        case Miss =>
      }
      for i := 0 to |replies|
        invariant FirstReply(replies) == FirstReply(replies[i..])
        invariant cache == if cacheEnabled then AfterLookup(old(cache), msg, asked) else old(cache)
      {
        if replies[i].Some? && replies[i].value != [] {
          StoreCache(msg, replies[i].value, stored);
          return replies[i];
        }
      }
      var servfail := ToBytes(Servfail(msg));
      return if servfail.Success? then Some(servfail.value) else None;
    }
  }

  // ---------------------------------------------------------------- lifetimes and upstreams

  lemma ClampExact(ttl: int, seconds: int)
    ensures seconds == Max(10, Min(ttl, 3600)) <==>
              10 <= seconds <= 3600 && (seconds > 10 ==> seconds <= ttl) && (seconds < 3600 ==> ttl <= seconds)
  {
  }

  /** Between 10 and 3600 seconds, and between these bounds as long as the answer that lives shortest. */
  predicate LivesFor(answers: seq<DNSRecord>, seconds: int) {
    && 10 <= seconds <= 3600
    && (seconds > 10 ==> forall i :: 0 <= i < |answers| ==> seconds <= answers[i].ttl)
    && (seconds < 3600 ==> exists i :: 0 <= i < |answers| && answers[i].ttl <= seconds)
  }

  lemma LivesForExact(answers: seq<DNSRecord>, seconds: int)
    requires answers != []
    ensures LivesFor(answers, seconds) <==> seconds == Max(10, Min(MinTtl(answers), 3600))
  {
    var i :| 0 <= i < |answers| && MinTtl(answers) == answers[i].ttl;
    ClampExact(MinTtl(answers), seconds);
  }

  /** A response is cacheable exactly if it parses and has answers, and these give its lifetime. */
  lemma LifetimeExact(response: seq<byte>, seconds: int)
    ensures Lifetime(response) == Some(seconds) <==>
              Parsed(response).Success? && Parsed(response).value.answers != [] && LivesFor(Parsed(response).value.answers, seconds)
  {
    if Parsed(response).Success? && Parsed(response).value.answers != [] {
      LivesForExact(Parsed(response).value.answers, seconds);
    }
  }

  /** An upstream that failed or said nothing. */
  predicate Silent(reply: Option<seq<byte>>) {
    reply == None || reply == Some([])
  }

  /** The reply comes from upstream `i`, and all upstreams asked before were silent. */
  predicate FirstToReply(replies: seq<Option<seq<byte>>>, i: nat) {
    i < |replies| && !Silent(replies[i]) && forall k :: 0 <= k < i ==> Silent(replies[k])
  }

  lemma {:induction false} FirstReplyOf(replies: seq<Option<seq<byte>>>, i: nat)
    requires FirstToReply(replies, i)
    ensures FirstReply(replies) == replies[i]
  {
    if i > 0 {
      assert Silent(replies[0]);
      assert forall k :: 0 <= k < i - 1 ==> replies[1..][k] == replies[k + 1];
      FirstReplyOf(replies[1..], i - 1);
    }
  }

  lemma {:induction false} NoReplyExact(replies: seq<Option<seq<byte>>>)
    ensures FirstReply(replies) == None <==> forall i :: 0 <= i < |replies| ==> Silent(replies[i])
  {
    if replies != [] {
      NoReplyExact(replies[1..]);
      assert forall i :: 0 < i < |replies| ==> replies[i] == replies[1..][i - 1];
      assert forall i :: 0 <= i < |replies| - 1 ==> replies[1..][i] == replies[i + 1];
    }
  }

  // ---------------------------------------------------------------- runs of the cache

  datatype Event =
    | Store(msg: DNSMessage, response: seq<byte>, at: real)
    | Lookup(msg: DNSMessage, at: real)

  /** The cache after a history of calls on an empty, enabled cache. */
  ghost function After(history: seq<Event>): Cache {
    if history == [] then map[]
    else
      var before := After(history[..|history| - 1]);
      match history[|history| - 1]
      case Store(msg, response, at) => AfterStore(before, msg, response, at)
      case Lookup(msg, at) => AfterLookup(before, msg, at)
  }

  /** A monotonic clock, read for the last time no later than `now`. */
  ghost predicate Monotonic(history: seq<Event>, now: real) {
    && (forall i, j :: 0 <= i < j < |history| ==> history[i].at <= history[j].at)
    && (forall i :: 0 <= i < |history| ==> history[i].at <= now)
  }

  /** Two messages ask first for the same name, in any case, and the same type. */
  ghost predicate SameQuestion(a: DNSMessage, b: DNSMessage) {
    && a.questions != [] && b.questions != []
    && Lower(a.questions[0].qname) == Lower(b.questions[0].qname) && a.questions[0].qtype == b.questions[0].qtype
  }

  /** The event stored a cacheable response to the question of `msg`. */
  ghost predicate Caches(e: Event, msg: DNSMessage) {
    e.Store? && SameQuestion(e.msg, msg) && Lifetime(e.response).Some?
  }

  /** The latest cacheable store for the question of `msg`, if any. */
  ghost function LatestStore(history: seq<Event>, msg: DNSMessage): (e: Option<Event>)
    ensures e.Some? ==> e.value in history && Caches(e.value, msg)
  {
    if history == [] then None
    else
      var last := history[|history| - 1];
      if Caches(last, msg) then Some(last) else LatestStore(history[..|history| - 1], msg)
  }

  ghost function ExpiryOf(e: Event): real
    requires e.Store? && Lifetime(e.response).Some?
  {
    e.at + Lifetime(e.response).value as real
  }

  /** What a caller may expect, told by the history alone: the latest cacheable response to the same
      question while it is younger than its lifetime, and nothing otherwise. */
  ghost function Expected(history: seq<Event>, msg: DNSMessage, now: real): CacheAnswer {
    match LatestStore(history, msg)
    case None => Miss
    case Some(e) => if now < ExpiryOf(e) then Readdressed(e.response, msg.id) else Miss
  }

  lemma SameQuestionSameKey(a: DNSMessage, b: DNSMessage)
    ensures SameQuestion(a, b) <==> CacheKeyOf(a).Some? && CacheKeyOf(a) == CacheKeyOf(b)
  {
  }

  lemma {:induction false} NoQuestionNoStore(history: seq<Event>, msg: DNSMessage)
    requires msg.questions == []
    ensures LatestStore(history, msg) == None
  {
    if history != [] {
      NoQuestionNoStore(history[..|history| - 1], msg);
    }
  }

  /** The cache holds the latest store, unless a lookup has already seen it expire. */
  lemma {:induction false} CacheHoldsLatest(history: seq<Event>, msg: DNSMessage, now: real)
    requires Monotonic(history, now) && CacheKeyOf(msg).Some?
    ensures var key, cache, e := CacheKeyOf(msg).value, After(history), LatestStore(history, msg);
            && (key in cache ==> e.Some? && cache[key] == CacheEntry(e.value.response, ExpiryOf(e.value)))
            && (key !in cache && e.Some? ==> ExpiryOf(e.value) <= now)
  {
    if history != [] {
      var last := history[|history| - 1];
      CacheHoldsLatest(history[..|history| - 1], msg, last.at);
      SameQuestionSameKey(last.msg, msg);
    }
  }

  /** The cache refines its history: whatever was stored and looked up before, under a monotonic
      clock a lookup answers exactly what the history promises. */
  lemma CacheRefinesHistory(history: seq<Event>, msg: DNSMessage, now: real)
    requires Monotonic(history, now)
    ensures Answer(After(history), msg, now) == Expected(history, msg, now)
  {
    if CacheKeyOf(msg).Some? {
      CacheHoldsLatest(history, msg, now);
    } else {
      NoQuestionNoStore(history, msg);
    }
  }

  /** The event may answer a lookup for `msg`: it stored a response to the same question, which is
      still alive. */
  ghost predicate Answers(e: Event, msg: DNSMessage, now: real) {
    Caches(e, msg) && now < ExpiryOf(e)
  }

  /** No lookup is ever answered with what was stored for another name or type, or has expired; not
      even if the clock goes backwards. */
  lemma {:induction false} HitWasStored(history: seq<Event>, msg: DNSMessage, now: real) returns (e: Event)
    requires Answer(After(history), msg, now) != Miss
    ensures e in history && Answers(e, msg, now)
    ensures Answer(After(history), msg, now) == Readdressed(e.response, msg.id)
  {
    var n := |history| - 1;
    var last := history[n];
    SameQuestionSameKey(last.msg, msg);
    if Caches(last, msg) {
      e := last;
    } else {
      e := HitWasStored(history[..n], msg, now);
    }
  }

  /** The case of the name makes no difference. */
  lemma LookupIgnoresCase(cache: Cache, a: DNSMessage, b: DNSMessage, now: real)
    requires SameQuestion(a, b) && a.id == b.id
    ensures Answer(cache, a, now) == Answer(cache, b, now)
  {
    SameQuestionSameKey(a, b);
  }

  ghost function StoresOnly(history: seq<Event>): seq<Event> {
    if history == [] then []
    else
      var n := |history| - 1;
      if history[n].Store? then StoresOnly(history[..n]) + [history[n]] else StoresOnly(history[..n])
  }

  lemma {:induction false} StoresOnlyLatest(history: seq<Event>, msg: DNSMessage)
    ensures LatestStore(StoresOnly(history), msg) == LatestStore(history, msg)
  {
    if history != [] {
      var n := |history| - 1;
      StoresOnlyLatest(history[..n], msg);
      if history[n].Store? {
        var stores := StoresOnly(history[..n]);
        assert (stores + [history[n]])[..|stores|] == stores;
      }
    }
  }

  lemma {:induction false} StoresOnlyMonotonic(history: seq<Event>, now: real)
    requires Monotonic(history, now)
    ensures Monotonic(StoresOnly(history), now)
  {
    if history != [] {
      StoresOnlyMonotonic(history[..|history| - 1], history[|history| - 1].at);
    }
  }

  /** Lookups, and the deletions they make, cannot be observed by later lookups. */
  lemma LookupsAreUnobservable(history: seq<Event>, msg: DNSMessage, now: real)
    requires Monotonic(history, now)
    ensures Answer(After(history), msg, now) == Answer(After(StoresOnly(history)), msg, now)
  {
    StoresOnlyLatest(history, msg);
    StoresOnlyMonotonic(history, now);
    CacheRefinesHistory(history, msg, now);
    CacheRefinesHistory(StoresOnly(history), msg, now);
  }

  /** A hit is the stored message with only its id replaced exactly if its items survive being written
      again; without type 0, exactly if its names are canonical. A response with an OPT record, whose
      name is the root, is not what a client gets from the cache. */
  lemma HitIsStoredMessage(history: seq<Event>, msg: DNSMessage, now: real)
    requires Monotonic(history, now) && Fits16(msg.id)
    requires LatestStore(history, msg).Some? && now < ExpiryOf(LatestStore(history, msg).value)
    ensures var stored := Parsed(LatestStore(history, msg).value.response).value.(id := msg.id);
            var answer := Answer(After(history), msg, now);
            && (answer.Hit? && Parsed(answer.bytes) == Success(stored) <==> SurvivesWire(Items(stored)))
            && (Typed(stored) ==> (SurvivesWire(Items(stored)) <==> CanonicalNames(stored)))
  {
    CacheRefinesHistory(history, msg, now);
    ParsedReencodes(LatestStore(history, msg).value.response, msg.id);
  }

  /** Without a monotonic clock the deletion shows: a lookup in the future loses an entry that would
      still be fresh when the clock is set back. */
  lemma ClockSetBackLosesEntry(msg: DNSMessage, response: seq<byte>)
    requires msg.questions != [] && Lifetime(response) == Some(10)
    ensures var history := [Store(msg, response, 0.0), Lookup(msg, 10.0)];
            && Answer(After(history), msg, 5.0) == Miss
            && Expected(history, msg, 5.0) == Readdressed(response, msg.id)
  {
    var history := [Store(msg, response, 0.0), Lookup(msg, 10.0)];
    var stored := [Store(msg, response, 0.0)];
    assert history[..1] == stored;
    assert stored[..0] == [];
    assert After(stored) == AfterStore(map[], msg, response, 0.0);
    assert LatestStore(history, msg) == LatestStore(stored, msg) == Some(stored[0]);
  }
}
