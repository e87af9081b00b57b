// Turning what a user types into a canonical domain name, and deciding what is one.
module Normalizer {
  import opened Wrappers
  import opened Sequences
  import opened Text

  predicate IsAlnum(c: char) {
    'a' <= c <= 'z' || IsDigit(c)
  }

  /** `[a-z0-9]([a-z0-9-]{0,61}[a-z0-9])?`, all of it. */
  predicate LabelCore(text: string) {
    && 0 < |text| <= 63 && IsAlnum(text[0]) && IsAlnum(text[|text| - 1])
    && forall i :: 0 <= i < |text| ==> IsAlnum(text[i]) || text[i] == '-'
  }

  /** The label expression ends in `$`, which also matches before a final newline. */
  predicate ValidLabel(text: string) {
    && 0 < |text| <= 63
    && (LabelCore(text) || (text[|text| - 1] == '\n' && LabelCore(text[..|text| - 1])))
  }

  /** The last label is a number, as in an IP address. */
  predicate NumericName(name: string) {
    var labels := Split(name, '.');
    AllDigits(labels[|labels| - 1])
  }

  predicate ValidDomain(domain: string) {
    var labels := Split(domain, '.');
    && |domain| <= 253 && |labels| >= 2 && !NumericName(domain)
    && forall i :: 0 <= i < |labels| ==> ValidLabel(labels[i])
  }

  predicate EndsInNewline(s: string) {
    s != [] && s[|s| - 1] == '\n'
  }

  /** What is known of the IDNA encoder: valid domains encode to themselves, and any ASCII text is
      returned as it is or refused. */
  ghost predicate IsIdna(f: string -> Option<string>) {
    && (forall s :: ValidDomain(s) ==> f(s) == Some(s))
    && (forall s :: IsAscii(s) && f(s).Some? ==> f(s) == Some(s))
  }

  type Idna = f: string -> Option<string> | IsIdna(f) witness (s: string) => Some(s)

  method ValidateDomain(domain: string) returns (ok: bool)
    ensures ok <==> ValidDomain(domain)
  {
    if |domain| > 253 {
      return false;
    }
    var labels := Split(domain, '.');
    if |labels| < 2 || AllDigits(labels[|labels| - 1]) {
      return false;
    }
    for i := 0 to |labels|
      invariant forall k :: 0 <= k < i ==> ValidLabel(labels[k])
    {
      if !ValidLabel(labels[i]) {
        return false;
      }
    }
    return true;
  }

  /** `s.split(c, 1)[0]` */
  function Before(s: string, c: char): string {
    if s == [] || s[0] == c then [] else [s[0]] + Before(s[1..], c)
  }

  /** `s` up to the first of the characters `stops`. */
  function Until(s: string, stops: set<char>): string {
    if s == [] || s[0] in stops then [] else [s[0]] + Until(s[1..], stops)
  }

  predicate HasPrefix(s: string, prefix: string) {
    prefix <= s
  }

  predicate HasAt(s: string, i: nat, part: string) {
    i + |part| <= |s| && s[i..i + |part|] == part
  }

  predicate Contains(s: string, part: string) {
    exists i: nat | i <= |s| :: HasAt(s, i, part)
  }

  predicate SchemeText(s: string) {
    s != [] && 'a' <= s[0] <= 'z'
    && forall i :: 0 <= i < |s| ==> IsAlnum(s[i]) || s[i] in {'+', '-', '.'}
  }

  /** The schemes, none included, whose last path segment may carry `;parameters`. */
  function ParamSchemes(): set<string> {
    { "", "ftp", "hdl", "prospero", "http", "https", "shttp", "rtsp", "rtspu", "sip", "sips", "mms", "sftp", "tel" }
  }

  /** A path without the parameters of its last segment. */
  function CutParams(path: string): string {
    if '/' in path then [path[0]] + CutParams(path[1..]) else Before(path, ';')
  }

  function UrlPath(scheme: string, text: string): string {
    var path := Until(text, {'?', '#'});
    if scheme in ParamSchemes() then CutParams(path) else path
  }

  /** Network location, or else path, of a URL whose scheme has been taken off. */
  function HostOrPath(scheme: string, rest: string): string {
    if HasPrefix(rest, "//") then
      var netloc := Until(rest[2..], {'/', '?', '#'});
      if netloc != [] then netloc else UrlPath(scheme, rest[2..])
    else UrlPath(scheme, rest)
  }

  /** `parsed.netloc or parsed.path` of `urlparse(url)`, for lower-case text with a "://". */
  function UrlHost(url: string): string {
    var scheme := Before(url, ':');
    if SchemeText(scheme) && |scheme| < |url| then HostOrPath(scheme, url[|scheme| + 1..]) else HostOrPath([], url)
  }

  function DropStar(s: string): string {
    if HasPrefix(s, "*.") then s[2..] else s
  }

  function HostPart(s: string): string {
    if Contains(s, "://") then UrlHost(s) else Before(s, '/')
  }

  function CutPort(s: string): string {
    Before(Before(Before(Before(s, ':'), '?'), '#'), '@')
  }

  /** A host without what may follow it, and without dots and blanks around it. */
  function BareHost(host: string): string {
    Strip(CutPort(host), DOTS_AND_BLANKS)
  }

  /** The text that is left of an input before it is encoded and validated. */
  function Candidate(raw: string): string {
    BareHost(HostPart(DropStar(Lower(Strip(raw, WHITE_SPACE)))))
  }

  /** The canonical domain of an input, or None where the program raises InvalidDomainError. */
  function Normalized(idna: Idna, raw: string): Option<string> {
    var candidate := Candidate(raw);
    if raw == [] || candidate == [] then None
    else
      match idna(candidate)
      case None => None
      case Some(encoded) => if ValidDomain(encoded) then Some(encoded) else None
  }

  method NormalizeDomain(idna: Idna, raw: string) returns (r: Option<string>)
    ensures r == Normalized(idna, raw)
  {
    if raw == [] {
      return None;
    }
    var candidate := Lower(Strip(raw, WHITE_SPACE));
    if HasPrefix(candidate, "*.") {
      candidate := candidate[2..];
    }
    if Contains(candidate, "://") {
      candidate := UrlHost(candidate);
    } else {
      candidate := Before(candidate, '/');
    }
    candidate := Before(candidate, ':');
    candidate := Before(candidate, '?');
    candidate := Before(candidate, '#');
    candidate := Before(candidate, '@');
    candidate := Strip(candidate, DOTS_AND_BLANKS);
    if candidate == [] {
      return None;
    }
    var encoded := idna(candidate);
    if encoded.None? {
      return None;
    }
    var ok := ValidateDomain(encoded.value);
    return if ok then encoded else None;
  }

  // ---------------------------------------------------------------- characters of a valid domain

  predicate DomainChar(c: char) {
    IsAlnum(c) || c in {'-', '.', '\n'}
  }

  lemma {:induction false} PiecesHoldChars(s: string)
    requires forall i :: 0 <= i < |Split(s, '.')| ==> ValidLabel(Split(s, '.')[i])
    ensures forall i :: 0 <= i < |s| ==> DomainChar(s[i])
  {
    JoinSplit(s, '.');
    JoinHoldsChars(Split(s, '.'));
  }

  lemma {:induction false} JoinHoldsChars(labels: seq<string>)
    requires forall i :: 0 <= i < |labels| ==> ValidLabel(labels[i])
    ensures forall i :: 0 <= i < |Join(labels, '.')| ==> DomainChar(Join(labels, '.')[i])
  {
    if labels != [] {
      ValidLabelChars(labels[0]);
      JoinHoldsChars(labels[1..]);
    }
  }

  lemma ValidLabelChars(text: string)
    requires ValidLabel(text)
    ensures forall i :: 0 <= i < |text| ==> DomainChar(text[i])
    ensures IsAlnum(text[0]) && (text[|text| - 1] == '\n' || IsAlnum(text[|text| - 1]))
  {
    if !LabelCore(text) {
      assert forall i :: 0 <= i < |text| - 1 ==> text[..|text| - 1][i] == text[i];
    }
  }

  /** The first and last character of a text are those of its first and last piece. */
  lemma {:induction false} JoinEnds(labels: seq<string>)
    requires labels != [] && labels[0] != [] && labels[|labels| - 1] != []
    ensures var s, last := Join(labels, '.'), labels[|labels| - 1];
            s != [] && s[0] == labels[0][0] && s[|s| - 1] == last[|last| - 1]
  {
    if |labels| > 1 {
      if |labels| > 2 {
        JoinAppend(labels[..|labels| - 1], labels[|labels| - 1..], '.');
        assert labels == labels[..|labels| - 1] + labels[|labels| - 1..];
      }
    }
  }

  /** Text that looks like a host name: nothing around it is ever stripped, nothing in it cut. */
  predicate HostText(d: string) {
    && d != [] && IsAlnum(d[0]) && IsAlnum(d[|d| - 1])
    && forall c :: c in d ==> DomainChar(c)
  }

  lemma ValidDomainShape(d: string)
    requires ValidDomain(d)
    ensures d != [] && IsAlnum(d[0]) && forall c :: c in d ==> DomainChar(c)
    ensures !EndsInNewline(d) <==> HostText(d)
    ensures IsAscii(d)
  {
    var labels := Split(d, '.');
    PiecesHoldChars(d);
    ValidLabelChars(labels[0]);
    ValidLabelChars(labels[|labels| - 1]);
    JoinSplit(d, '.');
    JoinEnds(labels);
  }

  lemma StripHost(d: string)
    requires HostText(d)
    ensures Strip(d, DOTS_AND_BLANKS) == d && Strip(d, WHITE_SPACE) == d && Lower(d) == d
  {
    StripTrims(d, DOTS_AND_BLANKS);
    StripTrims(d, WHITE_SPACE);
    HostIsPlain(d);
    LowerIdentity(d);
  }

  // ---------------------------------------------------------------- cutting

  lemma {:induction false} BeforeWhole(s: string, c: char)
    requires c !in s
    ensures Before(s, c) == s
  {
    if s != [] {
      BeforeWhole(s[1..], c);
    }
  }

  lemma {:induction false} BeforeCut(s: string, c: char, tail: string)
    requires c !in s
    requires tail == [] || tail[0] == c
    ensures Before(s + tail, c) == s
  {
    if s == [] {
      assert s + tail == tail;
    } else {
      assert (s + tail)[1..] == s[1..] + tail;
      BeforeCut(s[1..], c, tail);
    }
  }

  lemma {:induction false} UntilCut(s: string, stops: set<char>, tail: string)
    requires forall c :: c in s ==> c !in stops
    requires tail == [] || tail[0] in stops
    ensures Until(s + tail, stops) == s
  {
    if s == [] {
      assert s + tail == tail;
    } else {
      assert (s + tail)[1..] == s[1..] + tail;
      UntilCut(s[1..], stops, tail);
    }
  }

  lemma {:induction false} BeforeTail(s: string, c: char, tail: string)
    requires c !in s
    ensures Before(s + tail, c) == s + Before(tail, c)
  {
    if s == [] {
      assert s + tail == tail;
    } else {
      assert (s + tail)[1..] == s[1..] + tail;
      BeforeTail(s[1..], c, tail);
    }
  }

  lemma {:induction false} UntilTail(s: string, stops: set<char>, tail: string)
    requires forall c :: c in s ==> c !in stops
    ensures Until(s + tail, stops) == s + Until(tail, stops)
  {
    if s == [] {
      assert s + tail == tail;
    } else {
      assert (s + tail)[1..] == s[1..] + tail;
      UntilTail(s[1..], stops, tail);
    }
  }

  lemma CutHeads(s: string, c: char, stops: set<char>)
    ensures Before(s, c) == [] <==> s == [] || s[0] == c
    ensures Before(s, c) != [] ==> Before(s, c)[0] == s[0]
    ensures Until(s, stops) == [] <==> s == [] || s[0] in stops
    ensures Until(s, stops) != [] ==> Until(s, stops)[0] == s[0]
  {
  }

  /** Cutting a port, query, fragment or user info leaves a host alone, and cuts all behind it that
      starts with one of their marks. */
  lemma PortTail(d: string, tail: string)
    requires forall c :: c in d ==> DomainChar(c)
    ensures CutPort(d + tail) == d + CutPort(tail)
    ensures CutPort(tail) == [] <==> tail == [] || tail[0] in {':', '?', '#', '@'}
    ensures CutPort(tail) != [] ==> CutPort(tail)[0] == tail[0]
  {
    var t1 := Before(tail, ':');
    var t2 := Before(t1, '?');
    var t3 := Before(t2, '#');
    BeforeTail(d, ':', tail);
    BeforeTail(d, '?', t1);
    BeforeTail(d, '#', t2);
    BeforeTail(d, '@', t3);
    CutHeads(tail, ':', {});
    CutHeads(t1, '?', {});
    CutHeads(t2, '#', {});
    CutHeads(t3, '@', {});
  }

  lemma {:induction false} ParamsTail(d: string, tail: string)
    requires forall c :: c in d ==> DomainChar(c)
    ensures CutParams(d + tail) == d + CutParams(tail)
  {
    if d == [] {
      assert d + tail == tail;
    } else {
      var s := d + tail;
      assert s[1..] == d[1..] + tail;
      ParamsTail(d[1..], tail);
      assert s == [d[0]] + s[1..] && DomainChar(d[0]);
    }
  }

  /** What parameters are: all from the first ';' behind the last '/'. */
  lemma {:induction false} CutParamsExact(dirs: string, last: string, params: string)
    requires dirs == [] || dirs[|dirs| - 1] == '/'
    requires '/' !in last && ';' !in last && '/' !in params && (params != [] ==> params[0] == ';')
    ensures CutParams(dirs + last + params) == dirs + last
  {
    var path := dirs + last + params;
    if dirs == [] {
      assert path == last + params;
      BeforeCut(last, ';', params);
    } else {
      assert path[|dirs| - 1] == '/' && path[0] == dirs[0];
      assert path[1..] == dirs[1..] + last + params;
      CutParamsExact(dirs[1..], last, params);
    }
  }

  /** A URL without network location: its path is kept, up to query and fragment, and if the scheme has
      parameters without those of the last segment. */
  lemma PathIsKept(scheme: string, path: string, tail: string)
    requires SchemeText(scheme) && !HasPrefix(path + tail, "//")
    requires '?' !in path && '#' !in path && (tail != [] ==> tail[0] in {'?', '#'})
    ensures UrlHost(scheme + [':'] + (path + tail)) == if scheme in ParamSchemes() then CutParams(path) else path
  {
    var url := scheme + [':'] + (path + tail);
    assert url == scheme + ([':'] + (path + tail));
    BeforeCut(scheme, ':', [':'] + (path + tail));
    assert url[|scheme| + 1..] == path + tail;
    UntilCut(path, {'?', '#'}, tail);
  }

  lemma ParamsHead(tail: string)
    requires tail == [] || tail[0] != ';'
    ensures CutParams(tail) == [] <==> tail == []
    ensures tail != [] ==> CutParams(tail)[0] == tail[0]
  {
    CutHeads(tail, ';', {});
  }

  lemma {:induction false} StripKeeps(s: string, cut: set<char>, c: char)
    requires c in s && c !in cut
    ensures c in Strip(s, cut)
  {
    StripLeftKeeps(s, cut, c);
    StripRightKeeps(StripLeft(s, cut), cut, c);
  }

  lemma {:induction false} StripLeftKeeps(s: string, cut: set<char>, c: char)
    requires c in s && c !in cut
    ensures c in StripLeft(s, cut)
  {
    if s[0] in cut {
      StripLeftKeeps(s[1..], cut, c);
    }
  }

  lemma {:induction false} StripRightKeeps(s: string, cut: set<char>, c: char)
    requires c in s && c !in cut
    ensures c in StripRight(s, cut)
  {
    if s[|s| - 1] in cut {
      StripRightKeeps(s[..|s| - 1], cut, c);
    }
  }

  // ---------------------------------------------------------------- hosts and what may surround them

  /** What may follow a host: nothing, or a path, port, query, fragment or the end of user info. */
  predicate Decoration(tail: string) {
    tail == [] || tail[0] in {'/', ':', '?', '#', '@'}
  }

  lemma SeparatorIsInTail(d: string, tail: string, i: nat)
    requires forall c :: c in d ==> DomainChar(c)
    requires HasAt(d + tail, i, "://")
    ensures i >= |d| && HasAt(tail, i - |d|, "://")
  {
    var s := d + tail;
    assert s[i] == s[i..i + 3][0] == ':';
    assert forall k :: 0 <= k < |d| ==> s[k] in d;
    assert tail[i - |d|..i - |d| + 3] == s[i..i + 3];
  }

  lemma SeparatorHasColon(s: string)
    requires Contains(s, "://")
    ensures ':' in s
  {
    var i: nat :| i <= |s| && HasAt(s, i, "://");
    assert s[i..i + 3][0] == ':';
  }

  /** A host does not hide or make a "://". */
  lemma SeparatorsOfTail(d: string, tail: string)
    requires forall c :: c in d ==> DomainChar(c)
    ensures Contains(d + tail, "://") <==> Contains(tail, "://")
  {
    if Contains(d + tail, "://") {
      var i: nat :| i <= |d + tail| && HasAt(d + tail, i, "://");
      SeparatorIsInTail(d, tail, i);
    }
    if Contains(tail, "://") {
      var i: nat :| i <= |tail| && HasAt(tail, i, "://");
      assert (d + tail)[|d| + i..|d| + i + 3] == tail[i..i + 3];
      assert HasAt(d + tail, |d| + i, "://");
    }
  }

  /** Without a "://" the host is all that is left. */
  lemma PlainHost(d: string, tail: string)
    requires HostText(d) && Decoration(tail) && !Contains(tail, "://")
    ensures BareHost(HostPart(d + tail)) == d
  {
    SeparatorsOfTail(d, tail);
    BeforeTail(d, '/', tail);
    CutHeads(tail, '/', {});
    PortTail(d, Before(tail, '/'));
    assert d + [] == d;
    StripHost(d);
  }

  /** With a "://" somewhere behind it, and no scheme in front, host and tail are read as a path. */
  lemma HostAsPath(d: string, tail: string)
    requires HostText(d) && Decoration(tail) && tail != []
    requires tail[0] == ':' ==> !SchemeText(d)
    ensures var v := CutParams(Until(tail, {'?', '#'}));
            && UrlHost(d + tail) == d + v
            && (v == [] <==> tail[0] in {'?', '#'}) && (v != [] ==> v[0] == tail[0])
  {
    var s, u := d + tail, Until(tail, {'?', '#'});
    BeforeTail(d, ':', tail);
    CutHeads(tail, ':', {'?', '#'});
    if tail[0] == ':' {
      assert d + [] == d;
    } else {
      assert Before(s, ':')[|d|] == tail[0];
    }
    assert !SchemeText(Before(s, ':'));
    assert !HasPrefix(s, "//") by { assert s[0] == d[0]; }
    UntilTail(d, {'?', '#'}, tail);
    ParamsTail(d, u);
    ParamsHead(u);
  }

  /** A host in front of a port, or whatever a ':' begins, becomes the scheme of a URL. */
  lemma HostAsScheme(d: string, tail: string)
    requires HostText(d) && tail != [] && tail[0] == ':' && SchemeText(d)
    ensures UrlHost(d + tail) == HostOrPath(d, tail[1..])
  {
    BeforeCut(d, ':', tail);
    assert (d + tail)[|d| + 1..] == tail[1..];
  }

  /** A host with a decoration comes out as it is: always without "://" in the decoration, and else
      if it begins a query, a fragment or ends user info, or if it cannot be taken for a scheme. Taken
      for one, what follows the colon decides alone. */
  predicate Survives(d: string, tail: string) {
    || !Contains(tail, "://")
    || tail[0] in {'?', '#', '@'}
    || (tail[0] == ':' && (SchemeText(d) ==> BareHost(HostOrPath(d, tail[1..])) == d))
  }

  lemma HostSurvives(d: string, tail: string)
    requires HostText(d) && Decoration(tail)
    ensures BareHost(HostPart(d + tail)) == d <==> Survives(d, tail)
    ensures !Survives(d, tail) && tail[0] == '/' ==> '/' in BareHost(HostPart(d + tail))
  {
    if !Contains(tail, "://") {
      PlainHost(d, tail);
    } else {
      SeparatorsOfTail(d, tail);
      assert tail != [] by { assert !HasAt([], 0, "://"); }
      if tail[0] == ':' && SchemeText(d) {
        HostAsScheme(d, tail);
      } else {
        var v := CutParams(Until(tail, {'?', '#'}));
        HostAsPath(d, tail);
        PortTail(d, v);
        PathSurvives(d, v);
      }
    }
  }

  lemma PathSurvives(d: string, v: string)
    requires HostText(d) && CutPort(d + v) == d + CutPort(v)
    ensures CutPort(v) == [] ==> BareHost(d + v) == d
    ensures CutPort(v) != [] && CutPort(v)[0] == '/' ==> '/' in BareHost(d + v) && BareHost(d + v) != d
  {
    StripHost(d);
    if CutPort(v) == [] {
      assert d + [] == d;
    } else if CutPort(v)[0] == '/' {
      assert (d + CutPort(v))[|d|] == '/';
      StripKeeps(d + CutPort(v), DOTS_AND_BLANKS, '/');
    }
  }

  // ---------------------------------------------------------------- ASCII stays ASCII

  lemma {:induction false} BeforeChars(s: string, c: char)
    ensures Before(s, c) <= s
  {
    if s != [] && s[0] != c {
      BeforeChars(s[1..], c);
    }
  }

  lemma {:induction false} UntilChars(s: string, stops: set<char>)
    ensures Until(s, stops) <= s
  {
    if s != [] && s[0] !in stops {
      UntilChars(s[1..], stops);
    }
  }

  lemma {:induction false} ParamsChars(s: string)
    ensures CutParams(s) <= s
  {
    if '/' in s {
      ParamsChars(s[1..]);
    } else {
      BeforeChars(s, ';');
    }
  }

  lemma PathIsAscii(scheme: string, text: string)
    requires IsAscii(text)
    ensures IsAscii(UrlPath(scheme, text))
  {
    UntilChars(text, {'?', '#'});
    ParamsChars(Until(text, {'?', '#'}));
  }

  lemma HostOrPathIsAscii(scheme: string, rest: string)
    requires IsAscii(rest)
    ensures IsAscii(HostOrPath(scheme, rest))
  {
    PathIsAscii(scheme, rest);
    if HasPrefix(rest, "//") {
      UntilChars(rest[2..], {'/', '?', '#'});
      PathIsAscii(scheme, rest[2..]);
    }
  }

  lemma HostPartIsAscii(s: string)
    requires IsAscii(s)
    ensures IsAscii(HostPart(s))
  {
    var scheme := Before(s, ':');
    HostOrPathIsAscii([], s);
    if |scheme| < |s| {
      HostOrPathIsAscii(scheme, s[|scheme| + 1..]);
    }
    BeforeChars(s, '/');
  }

  lemma BareHostIsAscii(host: string)
    requires IsAscii(host)
    ensures IsAscii(BareHost(host))
  {
    var t1 := Before(host, ':');
    var t2 := Before(t1, '?');
    BeforeChars(host, ':');
    BeforeChars(t1, '?');
    BeforeChars(t2, '#');
    BeforeChars(Before(t2, '#'), '@');
    StripTrims(CutPort(host), DOTS_AND_BLANKS);
    CharsAreAscii(CutPort(host), BareHost(host));
  }

  lemma CharsAreAscii(s: string, t: string)
    requires IsAscii(s) && forall c :: c in t ==> c in s
    ensures IsAscii(t)
  {
    forall i | 0 <= i < |t|
      ensures (t[i] as int) < 128
    {
      assert t[i] in s;
    }
  }

  lemma CandidateIsAscii(raw: string)
    requires IsAscii(raw)
    ensures IsAscii(Candidate(raw))
  {
    StripTrims(raw, WHITE_SPACE);
    CharsAreAscii(raw, Strip(raw, WHITE_SPACE));
    HostPartIsAscii(DropStar(Lower(Strip(raw, WHITE_SPACE))));
    BareHostIsAscii(HostPart(DropStar(Lower(Strip(raw, WHITE_SPACE)))));
  }

  // ---------------------------------------------------------------- what normalization guarantees

  /** Every result is a valid domain. Only the encoder can leave a newline at its end, and only for
      input that is not ASCII. */
  lemma NormalizedIsValid(idna: Idna, raw: string)
    requires Normalized(idna, raw).Some?
    ensures ValidDomain(Normalized(idna, raw).value)
    ensures IsAscii(raw) ==> Normalized(idna, raw).value == Candidate(raw)
    ensures EndsInNewline(Normalized(idna, raw).value) ==> !IsAscii(raw)
  {
    StripTrims(CutPort(HostPart(DropStar(Lower(Strip(raw, WHITE_SPACE))))), DOTS_AND_BLANKS);
    if IsAscii(raw) {
      CandidateIsAscii(raw);
    }
  }

  lemma CleanInputNormalizes(idna: Idna, raw: string, d: string)
    requires ValidDomain(d) && Candidate(raw) == d && raw != []
    ensures Normalized(idna, raw) == Some(d)
  {
    ValidDomainShape(d);
  }

  lemma BlankHasNoText(raw: string)
    ensures Lower(Strip(raw, WHITE_SPACE)) != [] ==> raw != []
  {
  }

  lemma DropStarOf(star: string, s: string)
    requires star == [] || star == "*."
    requires s != [] && s[0] != '*'
    ensures DropStar(star + s) == s
  {
    if star == [] {
      assert star + s == s;
    } else {
      assert (star + s)[2..] == s;
    }
  }

  lemma HostCandidate(raw: string, star: string, d: string, tail: string)
    requires HostText(d) && Decoration(tail)
    requires star == [] || star == "*."
    requires Lower(Strip(raw, WHITE_SPACE)) == star + (d + tail)
    ensures raw != []
    ensures Candidate(raw) == d <==> Survives(d, tail)
    ensures !Survives(d, tail) && tail[0] == '/' ==> '/' in Candidate(raw)
  {
    DropStarOf(star, d + tail);
    HostSurvives(d, tail);
    BlankHasNoText(raw);
  }

  /** Host names in any case, with white space around them, a wildcard before or a port, path, query,
      fragment or user info mark behind them: exactly which of them name the domain. Where the input
      is not ASCII, the encoder might still turn another host into this one. */
  lemma DecoratedHostNormalizes(idna: Idna, raw: string, star: string, d: string, tail: string)
    requires ValidDomain(d) && !EndsInNewline(d) && Decoration(tail)
    requires star == [] || star == "*."
    requires Lower(Strip(raw, WHITE_SPACE)) == star + (d + tail)
    ensures Candidate(raw) == d <==> Survives(d, tail)
    ensures Survives(d, tail) ==> Normalized(idna, raw) == Some(d)
    ensures IsAscii(raw) ==> (Normalized(idna, raw) == Some(d) <==> Survives(d, tail))
  {
    ValidDomainShape(d);
    HostCandidate(raw, star, d, tail);
    if Survives(d, tail) {
      CleanInputNormalizes(idna, raw, d);
    } else if IsAscii(raw) && Normalized(idna, raw) == Some(d) {
      NormalizedIsValid(idna, raw);
    }
  }

  /** A path with a "://" in it, as in a link that carries another one, makes the input fail. */
  lemma LinkInPathIsRefused(idna: Idna, raw: string, star: string, d: string, tail: string)
    requires ValidDomain(d) && !EndsInNewline(d) && IsAscii(raw)
    requires star == [] || star == "*."
    requires tail != [] && tail[0] == '/' && Contains(tail, "://")
    requires Lower(Strip(raw, WHITE_SPACE)) == star + (d + tail)
    ensures Normalized(idna, raw) == None
  {
    ValidDomainShape(d);
    HostCandidate(raw, star, d, tail);
    if Normalized(idna, raw).Some? {
      NormalizedIsValid(idna, raw);
      ValidDomainShape(Normalized(idna, raw).value);
    }
  }

  lemma SplitTwo(a: string, b: string)
    requires '.' !in a && '.' !in b
    ensures Split(a + ['.'] + b, '.') == [a, b]
  {
    SplitAround(a, '.', b);
    SplitPlain(a, '.');
    SplitPlain(b, '.');
  }

  /** Two ordinary labels make a domain. */
  lemma TwoLabels(name: string, tld: string)
    requires LabelCore(name) && LabelCore(tld) && !AllDigits(tld)
    ensures var d := name + ['.'] + tld; ValidDomain(d) && !EndsInNewline(d)
  {
    var d := name + ['.'] + tld;
    SplitTwo(name, tld);
    assert d[|d| - 1] == tld[|tld| - 1];
  }

  /** Lower-case ASCII text with nothing around it. */
  lemma TidyText(raw: string)
    requires IsLower(raw) && Trimmed(raw, WHITE_SPACE)
    ensures Lower(Strip(raw, WHITE_SPACE)) == raw
  {
    LowerIdentity(raw);
    StripTrims(raw, WHITE_SPACE);
  }

  lemma HostIsPlain(d: string)
    requires HostText(d)
    ensures IsLower(d) && IsAscii(d)
  {
    assert forall i :: 0 <= i < |d| ==> d[i] in d;
  }

  lemma TidyLink(d: string, tail: string)
    requires HostText(d) && tail != []
    requires IsLower(tail) && IsAscii(tail) && tail[|tail| - 1] !in WHITE_SPACE
    ensures IsAscii(d + tail) && Lower(Strip(d + tail, WHITE_SPACE)) == [] + (d + tail)
  {
    HostIsPlain(d);
    CharsOfConcat(d, tail);
    TidyText(d + tail);
    assert [] + (d + tail) == d + tail;
  }

  lemma RedirectPath(tail: string)
    requires tail == "/redirect?q=https://example.com"
    ensures tail[0] == '/' && Contains(tail, "://")
    ensures IsLower(tail) && IsAscii(tail) && tail[|tail| - 1] !in WHITE_SPACE
  {
    assert tail[17..20] == "://";
    assert HasAt(tail, 17, "://");
  }

  lemma RedirectLinkIsRefused(idna: Idna, d: string, tail: string)
    requires d == "youtube" + ['.'] + "com" && tail == "/redirect?q=https://example.com"
    ensures Normalized(idna, d + tail) == None
  {
    TwoLabels("youtube", "com");
    RedirectPath(tail);
    ValidDomainShape(d);
    TidyLink(d, tail);
    LinkInPathIsRefused(idna, d + tail, [], d, tail);
  }

  /** The network location of `scheme://d...` is `d` and whatever follows before the path. */
  lemma UrlHostOf(scheme: string, d: string, tail: string)
    requires SchemeText(scheme) && HostText(d)
    ensures UrlHost(scheme + ("://" + (d + tail))) == d + Until(tail, {'/', '?', '#'})
    ensures Contains(scheme + ("://" + (d + tail)), "://")
  {
    var rest := "://" + (d + tail);
    var url := scheme + rest;
    assert HasAt(url, |scheme|, "://") by { assert url[|scheme|..|scheme| + 3] == rest[..3]; }
    BeforeCut(scheme, ':', rest);
    assert url[|scheme| + 1..] == rest[1..];
    assert rest[1..][2..] == d + tail;
    assert HasPrefix(rest[1..], "//");
    UntilTail(d, {'/', '?', '#'}, tail);
  }

  /** URLs: the scheme, and whatever follows the first name behind it, are cut away. That name is the
      host of the URL, unless an '@' follows: then it is the user, and kept nevertheless. */
  lemma UrlNormalizes(idna: Idna, raw: string, scheme: string, d: string, tail: string)
    requires ValidDomain(d) && !EndsInNewline(d)
    requires SchemeText(scheme) && Decoration(tail)
    requires Lower(Strip(raw, WHITE_SPACE)) == scheme + ("://" + (d + tail))
    ensures Normalized(idna, raw) == Some(d)
  {
    var url := scheme + ("://" + (d + tail));
    ValidDomainShape(d);
    DropStarOf([], url);
    assert [] + url == url;
    UrlHostOf(scheme, d, tail);
    CutHeads(tail, ':', {'/', '?', '#'});
    PortTail(d, Until(tail, {'/', '?', '#'}));
    assert d + [] == d;
    StripHost(d);
    BlankHasNoText(raw);
    CleanInputNormalizes(idna, raw, d);
  }

  /** White space around an input does not matter. */
  lemma PaddingDoesNotMatter(idna: Idna, pre: string, core: string, post: string)
    requires Trimmed(core, WHITE_SPACE) && core != []
    requires forall c :: c in pre + post ==> c in WHITE_SPACE
    ensures Normalized(idna, pre + core + post) == Normalized(idna, core)
  {
    StripPadding(pre, core, post, WHITE_SPACE);
    StripTrims(core, WHITE_SPACE);
  }

  predicate Caseless(cut: set<char>) {
    forall c :: c in cut ==> !('A' <= c <= 'Z') && !('a' <= c <= 'z')
  }

  lemma {:induction false} LowerStripLeft(s: string, cut: set<char>)
    requires Caseless(cut)
    ensures StripLeft(Lower(s), cut) == Lower(StripLeft(s, cut))
  {
    if s != [] {
      assert Lower(s)[0] in cut <==> s[0] in cut;
      if s[0] in cut {
        LowerStripLeft(s[1..], cut);
        assert Lower(s)[1..] == Lower(s[1..]);
      }
    }
  }

  lemma {:induction false} LowerStripRight(s: string, cut: set<char>)
    requires Caseless(cut)
    ensures StripRight(Lower(s), cut) == Lower(StripRight(s, cut))
  {
    if s != [] {
      var n := |s| - 1;
      assert Lower(s)[n] in cut <==> s[n] in cut;
      if s[n] in cut {
        LowerStripRight(s[..n], cut);
        assert Lower(s)[..n] == Lower(s[..n]);
      }
    }
  }

  /** Stripping and lower-casing can be exchanged, so that lower-casing first makes no difference. */
  lemma LowerStrip(s: string, cut: set<char>)
    requires Caseless(cut)
    ensures Strip(Lower(s), cut) == Lower(Strip(s, cut))
    ensures Lower(Strip(Lower(s), cut)) == Lower(Strip(s, cut))
  {
    LowerStripLeft(s, cut);
    LowerStripRight(StripLeft(s, cut), cut);
    LowerIdentity(Strip(s, cut));
    LowerIdentity(Lower(Strip(s, cut)));
  }

  /** Neither does its case. */
  lemma CaseDoesNotMatter(idna: Idna, raw: string)
    ensures Normalized(idna, Lower(raw)) == Normalized(idna, raw)
  {
    LowerStrip(raw, WHITE_SPACE);
  }

  /** Normalization is the identity on valid domains, except on those the label expression accepts
      only because they end in a newline. */
  lemma NormalizeFixpoint(idna: Idna, d: string)
    requires ValidDomain(d)
    ensures Normalized(idna, d) == Some(d) <==> !EndsInNewline(d)
  {
    ValidDomainShape(d);
    if EndsInNewline(d) {
      if Normalized(idna, d) == Some(d) {
        NormalizedIsValid(idna, d);
      }
    } else {
      StripHost(d);
      assert [] + (d + []) == d;
      assert !Contains([], "://");
      DecoratedHostNormalizes(idna, d, [], d, []);
    }
  }

  // ---------------------------------------------------------------- domains that end in a newline

  /** A valid domain with a final newline is a host text and the newline; without it, all that can be
      wrong with the domain is a number as its last label. */
  lemma NewlineDomain(d: string) returns (core: string)
    requires ValidDomain(d) && EndsInNewline(d)
    ensures d == core + ['\n'] && HostText(core)
    ensures ValidDomain(core) <==> !NumericName(core)
  {
    core := d[..|d| - 1];
    assert d == core + ['\n'];
    NewlineLabels(core);
    NewlineHost(core);
  }

  /** The final newline belongs to the last label. */
  lemma NewlineLabels(core: string)
    requires ValidDomain(core + ['\n'])
    ensures forall i :: 0 <= i < |Split(core, '.')| ==> ValidLabel(Split(core, '.')[i])
    ensures LabelCore(Split(core, '.')[|Split(core, '.')| - 1])
    ensures |Split(core, '.')| == |Split(core + ['\n'], '.')|
  {
    var labels, d := Split(core, '.'), core + ['\n'];
    var k := |labels| - 1;
    var last := labels[k] + ['\n'];
    SplitAppend(core, '.', ['\n']);
    SplitPlain(last, '.');
    assert Split(d, '.') == labels[..k] + [last];
    assert ValidLabel(Split(d, '.')[k]);
    NewlineLabel(labels[k]);
    assert forall i :: 0 <= i < k ==> labels[i] == Split(d, '.')[i];
  }

  lemma NewlineLabel(text: string)
    requires ValidLabel(text + ['\n'])
    ensures LabelCore(text)
  {
    var all := text + ['\n'];
    assert all[|all| - 1] == '\n' && all[..|all| - 1] == text;
  }

  lemma NewlineHost(core: string)
    requires forall i :: 0 <= i < |Split(core, '.')| ==> ValidLabel(Split(core, '.')[i])
    requires LabelCore(Split(core, '.')[|Split(core, '.')| - 1])
    ensures HostText(core)
  {
    var labels := Split(core, '.');
    PiecesHoldChars(core);
    ValidLabelChars(labels[0]);
    JoinSplit(core, '.');
    JoinEnds(labels);
  }

  /** The domain of a rule made from a normalized name: what is left of it when it is normalized or
      looked up once more. */
  function Clean(domain: string): string {
    Lower(Strip(domain, DOTS_AND_BLANKS))
  }

  lemma CleanOfValid(d: string)
    requires ValidDomain(d)
    ensures HostText(Clean(d)) && Clean(d) == if EndsInNewline(d) then d[..|d| - 1] else d
    ensures ValidDomain(Clean(d)) <==> !NumericName(Clean(d))
    ensures !EndsInNewline(d) ==> !NumericName(Clean(d))
  {
    ValidDomainShape(d);
    if EndsInNewline(d) {
      var core := NewlineDomain(d);
      assert Trimmed(core, DOTS_AND_BLANKS);
      StripPadding([], core, ['\n'], DOTS_AND_BLANKS);
      assert [] + core + ['\n'] == d;
      StripHost(core);
    } else {
      StripHost(d);
    }
  }

  lemma CandidateOfValid(d: string)
    requires ValidDomain(d)
    ensures Candidate(d) == Clean(d)
  {
    var core := Clean(d);
    CleanOfValid(d);
    StripHost(core);
    if EndsInNewline(d) {
      StripPadding([], core, ['\n'], WHITE_SPACE);
      assert [] + core + ['\n'] == d;
    }
    assert [] + (core + []) == core;
    assert !Contains([], "://");
    HostCandidate(d, [], core, []);
  }

  /** What a result becomes when it is normalized again: itself, unless it ends in a newline; then the
      newline goes, and if that leaves a number as the last label, the name is refused. */
  lemma NormalizedAgain(idna: Idna, d: string)
    requires ValidDomain(d)
    ensures Normalized(idna, d) == if NumericName(Clean(d)) then None else Some(Clean(d))
  {
    CleanOfValid(d);
    CandidateOfValid(d);
    ValidDomainShape(d);
    if NumericName(Clean(d)) {
      if Normalized(idna, d).Some? {
        NormalizedIsValid(idna, d);
      }
    } else {
      CleanInputNormalizes(idna, d, Clean(d));
    }
  }

  /** Normalizing twice is normalizing once exactly if the encoder left no newline at the end; it leaves
      none for ASCII input. */
  lemma NormalizeIdempotent(idna: Idna, raw: string)
    requires Normalized(idna, raw).Some?
    ensures Normalized(idna, Normalized(idna, raw).value) == Normalized(idna, raw)
        <==> !EndsInNewline(idna(Candidate(raw)).value)
    ensures IsAscii(raw) ==> Normalized(idna, Normalized(idna, raw).value) == Normalized(idna, raw)
  {
    NormalizedIsValid(idna, raw);
    NormalizeFixpoint(idna, Normalized(idna, raw).value);
  }

  /** The exception is real: two labels and a newline make a valid domain, which normalization
      changes. "a.com\n" is one of them. */
  lemma NewlineIsValidButCut(idna: Idna, name: string, tld: string)
    requires LabelCore(name) && LabelCore(tld) && |tld| < 63 && !AllDigits(tld)
    ensures var d := name + ['.'] + tld;
            ValidDomain(d + ['\n']) && Normalized(idna, d + ['\n']) == Some(d)
  {
    var d := name + ['.'] + tld;
    TwoLabels(name, tld);
    WithNewline(name, tld);
    CleanOfValid(d + ['\n']);
    assert (d + ['\n'])[..|d|] == d;
    NormalizedAgain(idna, d + ['\n']);
  }

  lemma WithNewline(name: string, tld: string)
    requires LabelCore(name) && LabelCore(tld) && |tld| < 63
    ensures ValidDomain(name + ['.'] + tld + ['\n'])
  {
    var last := tld + ['\n'];
    assert name + ['.'] + last == name + ['.'] + tld + ['\n'];
    NewlineAfterLabel(tld);
    SplitTwo(name, last);
  }

  lemma NewlineAfterLabel(text: string)
    requires LabelCore(text) && |text| < 63
    ensures ValidLabel(text + ['\n']) && !AllDigits(text + ['\n']) && '.' !in text + ['\n']
  {
    var all := text + ['\n'];
    assert all[..|text|] == text && all[|text|] == '\n';
  }

  lemma TheNewlineExample(idna: Idna)
    ensures Normalized(idna, "a" + ['.'] + "com" + ['\n']) == Some("a" + ['.'] + "com")
  {
    NewlineIsValidButCut(idna, "a", "com");
  }

  const SOFT_HYPHEN: char := '\U{AD}'

  /** The part of name preparation that matters here: soft hyphens are deleted. */
  function Unhyphened(s: string): string {
    if s == [] then []
    else if s[0] == SOFT_HYPHEN then Unhyphened(s[1..])
    else [s[0]] + Unhyphened(s[1..])
  }

  lemma {:induction false} UnhyphenedAscii(s: string)
    requires IsAscii(s)
    ensures Unhyphened(s) == s
  {
    if s != [] {
      assert (s[0] as int) < 128;
      assert IsAscii(s[1..]);
      UnhyphenedAscii(s[1..]);
    }
  }

  lemma {:induction false} UnhyphenedEnd(s: string)
    requires IsAscii(s)
    ensures Unhyphened(s + [SOFT_HYPHEN]) == s
  {
    var t := s + [SOFT_HYPHEN];
    if s != [] {
      assert t[1..] == s[1..] + [SOFT_HYPHEN];
      assert (s[0] as int) < 128;
      assert IsAscii(s[1..]);
      UnhyphenedEnd(s[1..]);
    }
  }

  lemma SoftHyphenEncoder() returns (idna: Idna)
    ensures forall s :: idna(s) == Some(Unhyphened(s))
  {
    var f := (s: string) => Some(Unhyphened(s));
    forall s | IsAscii(s)
      ensures f(s) == Some(s)
    {
      UnhyphenedAscii(s);
    }
    forall s | ValidDomain(s)
      ensures f(s) == Some(s)
    {
      ValidDomainShape(s);
    }
    assert IsIdna(f);
    idna := f;
  }

  /** Neither strip removes a soft hyphen, and name preparation deletes it only after them: any valid
      domain with a newline and a soft hyphen behind it normalizes to a name that ends in a newline,
      and that name normalizes to another one, or to none. */
  lemma SoftHyphenLeavesNewline(core: string) returns (idna: Idna)
    requires HostText(core) && ValidDomain(core + ['\n'])
    ensures Normalized(idna, core + ['\n', SOFT_HYPHEN]) == Some(core + ['\n'])
    ensures Normalized(idna, core + ['\n']) == if NumericName(core) then None else Some(core)
  {
    var d := core + ['\n'];
    idna := SoftHyphenEncoder();
    ValidDomainShape(d);
    assert d + [SOFT_HYPHEN] == core + ['\n', SOFT_HYPHEN];
    UnhyphenedEnd(d);
    BehindHost(core, ['\n', SOFT_HYPHEN]);
    TidyHostText(core + ['\n', SOFT_HYPHEN]);
    UnmarkedCandidate(core + ['\n', SOFT_HYPHEN]);
    CleanOfValid(d);
    assert d[..|core|] == core;
    NormalizedAgain(idna, d);
  }

  lemma TheSoftHyphenExample() returns (idna: Idna)
    ensures var core := "a" + ['.'] + "com";
            && Normalized(idna, core + ['\n', SOFT_HYPHEN]) == Some(core + ['\n'])
            && Normalized(idna, core + ['\n']) == Some(core)
  {
    var core := "a" + ['.'] + "com";
    TwoLabels("a", "com");
    WithNewline("a", "com");
    ValidDomainShape(core);
    idna := SoftHyphenLeavesNewline(core);
  }

  lemma UnmarkedPort(s: string)
    requires ':' !in s && '?' !in s && '#' !in s && '@' !in s
    ensures CutPort(s) == s
  {
    BeforeWhole(s, ':');
    BeforeWhole(s, '?');
    BeforeWhole(s, '#');
    BeforeWhole(s, '@');
  }

  lemma UnmarkedHost(s: string)
    requires s != [] && s[0] != '*' && ':' !in s && '/' !in s
    ensures HostPart(DropStar(s)) == s
  {
    if Contains(s, "://") {
      SeparatorHasColon(s);
    }
    BeforeWhole(s, '/');
  }

  predicate Marked(s: string) {
    ':' in s || '/' in s || '?' in s || '#' in s || '@' in s
  }

  /** Text without marks, and with nothing around it, stays as it is. */
  lemma UnmarkedCandidate(raw: string)
    requires raw != [] && raw[0] != '*' && !Marked(raw)
    requires Strip(raw, WHITE_SPACE) == raw && Strip(raw, DOTS_AND_BLANKS) == raw && Lower(raw) == raw
    ensures Candidate(raw) == raw
  {
    UnmarkedHost(raw);
    UnmarkedPort(raw);
  }

  lemma BehindHost(core: string, tail: string)
    requires HostText(core) && tail == ['\n', SOFT_HYPHEN]
    ensures var raw := core + tail;
            && raw != [] && raw[0] != '*' && raw[0] !in WHITE_SPACE + DOTS_AND_BLANKS
            && raw[|raw| - 1] == SOFT_HYPHEN && forall c :: c in raw ==> DomainChar(c) || c == SOFT_HYPHEN
  {
    var raw := core + tail;
    assert raw[0] == core[0] && raw[|raw| - 1] == SOFT_HYPHEN;
    assert forall c :: c in raw ==> c in core || c in tail;
  }

  lemma TidyHostText(raw: string)
    requires raw != [] && raw[0] !in WHITE_SPACE + DOTS_AND_BLANKS && raw[|raw| - 1] == SOFT_HYPHEN
    requires forall c :: c in raw ==> DomainChar(c) || c == SOFT_HYPHEN
    ensures Strip(raw, WHITE_SPACE) == raw && Strip(raw, DOTS_AND_BLANKS) == raw && Lower(raw) == raw && !Marked(raw)
  {
    StripTrims(raw, WHITE_SPACE);
    StripTrims(raw, DOTS_AND_BLANKS);
    assert forall i :: 0 <= i < |raw| ==> raw[i] in raw;
    LowerIdentity(raw);
  }
}
