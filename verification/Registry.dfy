// The tables that ship with the program, and that the sinkhole enforces all of them.
module Registry {
  import opened Wrappers
  import opened Sequences
  import opened Text
  import opened Normalizer
  import opened Sinkhole
  import opened Bypass
  import opened Session
  import opened Policy
  import opened PolicyRuns

  // ---------------------------------------------------------------- table entries

  type Label = s: string | LabelCore(s) && |s| <= 30 witness "a"

  type TopLabel = s: Label | 'a' <= s[0] <= 'z' witness "a"

  type Digits = s: string | AllDigits(s) && |s| <= 3 witness "0"

  /** A domain by its labels. */
  datatype Entry =
    | Two(a: Label, tld: TopLabel)
    | Three(a: Label, b: Label, tld: TopLabel)
    | Four(a: Label, b: Label, c: Label, tld: TopLabel)
    | Five(a: Label, b: Label, c: Label, d: Label, tld: TopLabel)
    | Six(a: Label, b: Label, c: Label, d: Label, e: Label, tld: TopLabel)
  {
    function Labels(): (labels: seq<string>)
      ensures 2 <= |labels| <= 6 && labels[|labels| - 1] == tld
      ensures forall i :: 0 <= i < |labels| ==> LabelCore(labels[i]) && |labels[i]| <= 30
    {
      match this
      case Two(a, t) => [a, t]
      case Three(a, b, t) => [a, b, t]
      case Four(a, b, c, t) => [a, b, c, t]
      case Five(a, b, c, d, t) => [a, b, c, d, t]
      case Six(a, b, c, d, e, t) => [a, b, c, d, e, t]
    }

    function Domain(): string {
      Join(Labels(), '.')
    }
  }

  /** An IP address. */
  datatype Address = Address(a: Digits, b: Digits, c: Digits, d: Digits) {
    function Dotted(): string {
      Join([a, b, c, d], '.')
    }
  }

  /** An entry with an inner star, below a plain one. */
  datatype Wildcard = Wildcard(head: string, parent: Entry) {
    function Domain(): string {
      head + ['.'] + parent.Domain()
    }
  }

  function Domains(entries: seq<Entry>): (r: seq<string>)
    ensures |r| == |entries| && forall i :: 0 <= i < |r| ==> r[i] == entries[i].Domain()
  {
    seq(|entries|, i requires 0 <= i < |entries| => entries[i].Domain())
  }

  function Addresses(entries: seq<Address>): (r: seq<string>)
    ensures |r| == |entries| && forall i :: 0 <= i < |r| ==> r[i] == entries[i].Dotted()
  {
    seq(|entries|, i requires 0 <= i < |entries| => entries[i].Dotted())
  }

  function Wildcards(entries: seq<Wildcard>): (r: seq<string>)
    ensures |r| == |entries| && forall i :: 0 <= i < |r| ==> r[i] == entries[i].Domain()
  {
    seq(|entries|, i requires 0 <= i < |entries| => entries[i].Domain())
  }

  lemma {:induction false} JoinLength(parts: seq<string>, n: nat)
    requires forall i :: 0 <= i < |parts| ==> |parts[i]| <= n
    ensures |Join(parts, '.')| <= |parts| * (n + 1)
  {
    if parts != [] {
      JoinLength(parts[1..], n);
    }
  }

  lemma LabelsAreValid(labels: seq<string>)
    requires forall i :: 0 <= i < |labels| ==> LabelCore(labels[i])
    ensures forall i :: 0 <= i < |labels| ==> ValidLabel(labels[i]) && labels[i] != [] && '.' !in labels[i]
  {
  }

  lemma {:induction false} JoinEndsWith(labels: seq<string>)
    requires labels != [] && labels[|labels| - 1] != []
    ensures var s, last := Join(labels, '.'), labels[|labels| - 1]; s != [] && s[|s| - 1] == last[|last| - 1]
  {
    if |labels| > 1 {
      JoinEndsWith(labels[1..]);
    }
  }

  lemma LabelsAreOrdinary(labels: seq<string>, tld: TopLabel)
    requires 2 <= |labels| <= 6 && labels[|labels| - 1] == tld
    requires forall i :: 0 <= i < |labels| ==> LabelCore(labels[i]) && |labels[i]| <= 30
    ensures Ordinary(Join(labels, '.'))
  {
    LabelsMakeValid(labels, tld);
    EndsWithoutNewline(labels);
  }

  lemma LabelsMakeValid(labels: seq<string>, tld: TopLabel)
    requires 2 <= |labels| <= 6 && labels[|labels| - 1] == tld
    requires forall i :: 0 <= i < |labels| ==> LabelCore(labels[i]) && |labels[i]| <= 30
    ensures ValidDomain(Join(labels, '.'))
  {
    LabelsAreValid(labels);
    JoinLength(labels, 30);
    SplitJoin(labels, '.');
    assert !AllDigits(tld) by { assert !IsDigit(tld[0]); }
  }

  lemma EndsWithoutNewline(labels: seq<string>)
    requires labels != [] && LabelCore(labels[|labels| - 1])
    ensures !EndsInNewline(Join(labels, '.'))
  {
    JoinEndsWith(labels);
  }

  lemma EntryIsOrdinary(e: Entry)
    ensures Ordinary(e.Domain())
  {
    LabelsAreOrdinary(e.Labels(), e.tld);
  }

  lemma {:induction false} DigitsAreAscii(parts: seq<string>)
    requires forall i :: 0 <= i < |parts| ==> AllDigits(parts[i])
    ensures IsAscii(Join(parts, '.'))
  {
    if |parts| > 1 {
      DigitsAreAscii(parts[1..]);
      CharsOfConcat(parts[0] + ['.'], Join(parts[1..], '.'));
      CharsOfConcat(parts[0], ['.']);
    }
  }

  lemma AddressIsNumeric(a: Address)
    ensures IsAscii(a.Dotted()) && NumericName(a.Dotted())
  {
    var parts := [a.a, a.b, a.c, a.d];
    DigitsAreAscii(parts);
    SplitJoin(parts, '.');
  }

  // ---------------------------------------------------------------- tables

  function Aliases(): map<string, string> {
    map["x" := "twitter", "x.com" := "twitter", "psn" := "playstation", "playstation5" := "playstation",
        "playstation4" := "playstation", "ps4" := "playstation", "ps5" := "playstation",
        "xboxlive" := "xbox", "gamepass" := "xbox", "gplay" := "googleplay", "playstore" := "googleplay",
        "google-play" := "googleplay", "valve" := "steam", "fortnite" := "epicgames", "epic" := "epicgames",
        "switch" := "nintendo"]
  }

  /** The identifier of a service, which is no alias of another one. */
  type ServiceId = s: Label | s !in Aliases() witness "a"

  /** A provider whose endpoints are all enforced or addresses. */
  type Vendor = p: Provider | SoundProvider(p) witness Provider("", [])

  /** A service whose domains are all enforced, and which is known by its identifier. */
  type Platform = s: ServiceDefinition | SoundService(s) && AsciiDomains(s.AllDomains()) && KnownAs(s.id)
    ghost witness Nothing()

  function Nothing(): ServiceDefinition {
    ServiceDefinition("a", "", [], [], [], [], [])
  }

  predicate KnownAs(id: string) {
    Trim(id) == id && id !in Aliases()
  }

  lemma IdIsKnown(id: ServiceId)
    ensures KnownAs(id)
  {
    LowerIdentity(id);
    StripTrims(id, WHITE_SPACE);
  }

  lemma ResolverIsSound(name: string, entries: seq<Entry>, addresses: seq<Address>)
    ensures SoundProvider(Provider(name, Domains(entries) + Addresses(addresses)))
  {
    forall e | e in Domains(entries)
      ensures Ordinary(e)
    {
      var i :| 0 <= i < |entries| && e == Domains(entries)[i];
      EntryIsOrdinary(entries[i]);
    }
    forall e | e in Addresses(addresses)
      ensures IsAscii(e) && NumericName(e)
    {
      var i :| 0 <= i < |addresses| && e == Addresses(addresses)[i];
      AddressIsNumeric(addresses[i]);
    }
  }

  /** The entries of a provider, names and addresses. */
  function Resolver(name: string, entries: seq<Entry>, addresses: seq<Address>): Vendor {
    ResolverIsSound(name, entries, addresses);
    Provider(name, Domains(entries) + Addresses(addresses))
  }

  lemma EntriesAreOrdinary(entries: seq<Entry>)
    ensures forall d :: d in Domains(entries) ==> Ordinary(d) && IsAscii(d)
  {
    forall d | d in Domains(entries)
      ensures Ordinary(d) && IsAscii(d)
    {
      var i :| 0 <= i < |entries| && d == Domains(entries)[i];
      EntryIsOrdinary(entries[i]);
      ValidDomainShape(d);
    }
  }

  predicate SoundWildcard(w: Wildcard, parents: seq<Entry>) {
    w.parent in parents && w.head != [] && w.head[0] != '*' && IsAscii(w.head)
  }

  lemma WildcardsAreSubsumed(wildcards: seq<Wildcard>, parents: seq<Entry>, all: set<string>)
    requires forall w :: w in wildcards ==> SoundWildcard(w, parents)
    requires forall d :: d in Domains(parents) ==> d in all
    ensures forall d :: d in Wildcards(wildcards) ==> Subsumed(all, d) && IsAscii(d)
  {
    forall d | d in Wildcards(wildcards)
      ensures Subsumed(all, d) && IsAscii(d)
    {
      var i :| 0 <= i < |wildcards| && d == Wildcards(wildcards)[i];
      WildcardIsSubsumed(wildcards[i], parents, all);
    }
  }

  lemma WildcardIsSubsumed(w: Wildcard, parents: seq<Entry>, all: set<string>)
    requires SoundWildcard(w, parents)
    requires forall d :: d in Domains(parents) ==> d in all
    ensures Subsumed(all, w.Domain()) && IsAscii(w.Domain())
  {
    var parent := w.parent.Domain();
    var i :| 0 <= i < |parents| && parents[i] == w.parent;
    assert Domains(parents)[i] == parent;
    EntriesAreOrdinary(parents);
    EndsWithIsUnder(w.Domain(), w.head, parent, '.');
    CharsOfConcat(w.head + ['.'], parent);
    CharsOfConcat(w.head, ['.']);
  }

  lemma ServiceIsSoundlyBuilt(id: string, name: string, primary: seq<Entry>, companions: seq<Entry>,
                              mobile: seq<Entry>, cdn: seq<Entry>, wildcards: seq<Wildcard>)
    requires forall w :: w in wildcards ==> SoundWildcard(w, companions)
    ensures var s := ServiceDefinition(id, name, Domains(primary), Domains(companions), Domains(mobile),
                                       Domains(cdn) + Wildcards(wildcards), []);
            SoundService(s) && AsciiDomains(s.AllDomains())
  {
    var s := ServiceDefinition(id, name, Domains(primary), Domains(companions), Domains(mobile),
                               Domains(cdn) + Wildcards(wildcards), []);
    EntriesAreOrdinary(primary);
    EntriesAreOrdinary(companions);
    EntriesAreOrdinary(mobile);
    EntriesAreOrdinary(cdn);
    WildcardsAreSubsumed(wildcards, companions, s.AllDomains());
  }

  /** The four lists of a service; an entry with an inner star must lie under one of its companions. */
  function Service(id: ServiceId, name: string, primary: seq<Entry>, companions: seq<Entry>,
                   mobile: seq<Entry>, cdn: seq<Entry>, wildcards: seq<Wildcard>): Platform
    requires forall w :: w in wildcards ==> SoundWildcard(w, companions)
  {
    ServiceIsSoundlyBuilt(id, name, primary, companions, mobile, cdn, wildcards);
    IdIsKnown(id);
    ServiceDefinition(id, name, Domains(primary), Domains(companions), Domains(mobile),
                      Domains(cdn) + Wildcards(wildcards), [])
  }

  function NordVpn(): Vendor {
    Resolver("NordVPN",
      [Two("nordvpn", "com"), Two("nordsec", "com"), Two("nordcdn", "com"), Three("api", "nordvpn", "com"),
       Three("la", "nordvpn", "com")],
      [])
  }

  function ExpressVpn(): Vendor {
    Resolver("ExpressVPN",
      [Two("expressvpn", "com"), Two("expvpn", "com"), Two("expressvpn", "net"), Two("xv-api", "com")],
      [])
  }

  function Surfshark(): Vendor {
    Resolver("Surfshark", [Two("surfshark", "com"), Two("shark-api", "com"), Two("surfsharkdns", "com")], [])
  }

  function ProtonVpn(): Vendor {
    Resolver("ProtonVPN",
      [Two("protonvpn", "com"), Two("proton", "me"), Two("protonvpn", "net"), Three("api", "protonvpn", "ch")],
      [])
  }

  function Mullvad(): Vendor {
    Resolver("Mullvad", [Two("mullvad", "net"), Three("api", "mullvad", "net")], [])
  }

  function CyberGhost(): Vendor {
    Resolver("CyberGhost", [Two("cyberghostvpn", "com"), Two("cyberghost", "ro")], [])
  }

  function PrivateInternetAccess(): Vendor {
    Resolver("Private Internet Access", [Two("privateinternetaccess", "com"), Two("piavpn", "com")], [])
  }

  function Windscribe(): Vendor {
    Resolver("Windscribe", [Two("windscribe", "com"), Two("windscribe", "net")], [])
  }

  function IPVanish(): Vendor {
    Resolver("IPVanish", [Two("ipvanish", "com")], [])
  }

  function TunnelBear(): Vendor {
    Resolver("TunnelBear", [Two("tunnelbear", "com")], [])
  }

  function HotspotShield(): Vendor {
    Resolver("Hotspot Shield", [Two("hotspotshield", "com"), Two("anchorfree", "com")], [])
  }

  function VpnProviders(): seq<Vendor> {
    [NordVpn(), ExpressVpn(), Surfshark(), ProtonVpn(), Mullvad(), CyberGhost(),
     PrivateInternetAccess(), Windscribe(), IPVanish(), TunnelBear(), HotspotShield()]
  }

  function CloudflareDoh(): Vendor {
    Resolver("Cloudflare DoH",
      [Two("cloudflare-dns", "com"), Four("one", "one", "one", "one")],
      [Address("1", "1", "1", "1"), Address("1", "0", "0", "1")])
  }

  function GoogleDoh(): Vendor {
    Resolver("Google DoH",
      [Two("dns", "google"), Three("dns", "google", "com")],
      [Address("8", "8", "8", "8"), Address("8", "8", "4", "4")])
  }

  function Quad9Doh(): Vendor {
    Resolver("Quad9 DoH",
      [Three("dns", "quad9", "net"), Three("dns9", "quad9", "net")],
      [Address("9", "9", "9", "9")])
  }

  function NextDNSDoh(): Vendor {
    Resolver("NextDNS DoH", [Three("dns", "nextdns", "io"), Two("nextdns", "io")], [])
  }

  function AdGuardDoh(): Vendor {
    Resolver("AdGuard DoH", [Three("dns", "adguard", "com"), Two("adguard-dns", "com")], [])
  }

  function OpenDNSDoh(): Vendor {
    Resolver("OpenDNS DoH", [Three("doh", "opendns", "com")], [])
  }

  function CleanBrowsingDoh(): Vendor {
    Resolver("CleanBrowsing DoH", [Three("doh", "cleanbrowsing", "org")], [])
  }

  function DohProviders(): seq<Vendor> {
    [CloudflareDoh(), GoogleDoh(), Quad9Doh(), NextDNSDoh(),
     AdGuardDoh(), OpenDNSDoh(), CleanBrowsingDoh()]
  }

  function YouTubeCompanions(): seq<Entry> {
    [Two("youtube-nocookie", "com"), Three("youtubei", "googleapis", "com"), Two("yt", "be"), Two("ytimg", "com")]
  }

  function YouTubeMobile(): seq<Entry> {
    [Three("yt3", "ggpht", "com"), Three("yt4", "ggpht", "com"), Three("youtubei", "googleapis", "com"),
     Four("wide-youtube", "l", "google", "com")]
  }

  function YouTubeSites(): seq<Entry> {
    [Two("youtube", "com"), Two("youtu", "be")]
  }

  function YouTubeCdn(): seq<Entry> {
    [Two("googlevideo", "com"), Three("redirector", "googlevideo", "com")]
  }

  function YouTube(): Platform {
    Service("youtube", "YouTube",
      YouTubeSites(), YouTubeCompanions(), YouTubeMobile(), YouTubeCdn(), [])
  }

  function InstagramCompanions(): seq<Entry> {
    [Two("cdninstagram", "com"), Two("instagr", "am"), Two("igsonar", "com")]
  }

  function InstagramMobile(): seq<Entry> {
    [Three("i", "instagram", "com"), Three("graph", "instagram", "com"), Four("b", "i", "instagram", "com"),
     Three("edge-chat", "instagram", "com")]
  }

  function InstagramCdn(): seq<Entry> {
    [Three("scontent", "cdninstagram", "com"), Three("static", "cdninstagram", "com"),
     Three("z-p3-scontent", "cdninstagram", "com")]
  }

  function InstagramSites(): seq<Entry> {
    [Two("instagram", "com"), Two("ig", "me")]
  }

  function Instagram(): Platform {
    Service("instagram", "Instagram",
      InstagramSites(), InstagramCompanions(), InstagramMobile(), InstagramCdn(), [])
  }

  function FacebookPrimary(): seq<Entry> {
    [Two("facebook", "com"), Two("fb", "com"), Two("messenger", "com")]
  }

  function FacebookCompanions(): seq<Entry> {
    [Two("fb", "me"), Two("fbsbx", "com"), Two("facebook", "net"), Three("connect", "facebook", "net"),
     Two("fbcdn", "net")]
  }

  function FacebookMobile(): seq<Entry> {
    [Three("graph", "facebook", "com"), Three("api", "facebook", "com"), Three("edge-chat", "facebook", "com"),
     Three("b-graph", "facebook", "com"), Three("gateway", "facebook", "com")]
  }

  function FacebookCdn(): seq<Entry> {
    [Four("scontent", "xx", "fbcdn", "net"), Four("static", "xx", "fbcdn", "net"),
     Four("external", "xx", "fbcdn", "net")]
  }

  function Facebook(): Platform {
    Service("facebook", "Facebook & Messenger",
      FacebookPrimary(), FacebookCompanions(), FacebookMobile(), FacebookCdn(), [])
  }

  function TikTokCompanions(): seq<Entry> {
    [Two("musical", "ly"), Two("byteoversea", "com"), Two("ibytedtos", "com"), Two("tiktokcdn", "com"),
     Two("ibyteimg", "com")]
  }

  function FirstTikTokMobile(): seq<Entry> {
    [Three("api", "tiktokv", "com"), Three("api-h2", "tiktokv", "com"),
     Three("api16-normal-c-useast1a", "tiktokv", "com")]
  }

  function TikTokMobile(): seq<Entry> {
    FirstTikTokMobile() + [Three("log", "byteoversea", "com"), Three("mon", "byteoversea", "com")]
  }

  function TikTokCdn(): seq<Entry> {
    [Three("v16-webapp", "tiktok", "com"), Three("p16-va", "tiktokcdn", "com"),
     Three("p16-sign-va", "tiktokcdn", "com")]
  }

  function TikTokSites(): seq<Entry> {
    [Two("tiktok", "com"), Two("tiktokv", "com")]
  }

  function TikTok(): Platform {
    Service("tiktok", "TikTok",
      TikTokSites(), TikTokCompanions(), TikTokMobile(), TikTokCdn(), [])
  }

  function RedditCompanions(): seq<Entry> {
    [Two("redditmedia", "com"), Two("redditstatic", "com"), Two("redditmedia", "com"), Two("reddithelp", "com")]
  }

  function RedditMobile(): seq<Entry> {
    [Three("oauth", "reddit", "com"), Three("gateway", "reddit", "com"), Three("gql", "reddit", "com"),
     Three("v", "redd", "it"), Three("i", "redd", "it")]
  }

  function RedditSites(): seq<Entry> {
    [Two("reddit", "com"), Two("redd", "it")]
  }

  function RedditCdn(): seq<Entry> {
    [Three("preview", "redd", "it"), Three("external-preview", "redd", "it")]
  }

  function Reddit(): Platform {
    Service("reddit", "Reddit",
      RedditSites(), RedditCompanions(), RedditMobile(), RedditCdn(), [])
  }

  function TwitterCompanions(): seq<Entry> {
    [Two("t", "co"), Two("twimg", "com"), Two("x", "team")]
  }

  function TwitterMobile(): seq<Entry> {
    [Three("api", "twitter", "com"), Three("api", "x", "com"), Three("upload", "twitter", "com")]
  }

  function TwitterCdn(): seq<Entry> {
    [Three("pbs", "twimg", "com"), Three("video", "twimg", "com"), Three("ton", "twimg", "com")]
  }

  function TwitterSites(): seq<Entry> {
    [Two("twitter", "com"), Two("x", "com")]
  }

  function Twitter(): Platform {
    Service("twitter", "Twitter / X",
      TwitterSites(), TwitterCompanions(), TwitterMobile(), TwitterCdn(), [])
  }

  function NetflixCompanions(): seq<Entry> {
    [Two("nflxext", "com"), Two("nflximg", "net"), Two("nflxvideo", "net"), Two("nflxso", "net")]
  }

  function NetflixSites(): seq<Entry> {
    [Two("netflix", "com"), Two("netflix", "net")]
  }

  function NetflixMobile(): seq<Entry> {
    [Three("api-global", "netflix", "com"), Three("ichnaea", "netflix", "com")]
  }

  function Netflix(): Platform {
    Service("netflix", "Netflix",
      NetflixSites(), NetflixCompanions(), NetflixMobile(), [], [Wildcard("occ-0-*.1", Two("nflxso", "net"))])
  }

  function TwitchCompanions(): seq<Entry> {
    [Two("ttvnw", "net"), Two("jtvnw", "net"), Two("twitchcdn", "net")]
  }

  function TwitchMobile(): seq<Entry> {
    [Three("api", "twitch", "tv"), Three("gql", "twitch", "tv"), Four("irc", "chat", "twitch", "tv")]
  }

  function TwitchSites(): seq<Entry> {
    [Two("twitch", "tv")]
  }

  function TwitchCdn(): seq<Entry> {
    [Three("static-cdn", "jtvnw", "net")]
  }

  function Twitch(): Platform {
    Service("twitch", "Twitch",
      TwitchSites(), TwitchCompanions(), TwitchMobile(), TwitchCdn(), [Wildcard("video-edge-*.hls", Two("ttvnw", "net"))])
  }

  function XboxCompanions(): seq<Entry> {
    [Two("xboxservices", "com"), Two("xboxab", "com"), Two("gamepass", "com"), Two("xboxgamestudio", "com")]
  }

  function FirstXboxMobile(): seq<Entry> {
    [Four("xsts", "auth", "xboxlive", "com"), Four("title", "mgt", "xboxlive", "com"),
     Four("user", "auth", "xboxlive", "com")]
  }

  function XboxMobile(): seq<Entry> {
    FirstXboxMobile() + [Four("device", "auth", "xboxlive", "com"), Three("licensing", "xboxlive", "com")]
  }

  function XboxCdn(): seq<Entry> {
    [Three("assets1", "xboxlive", "com"), Three("images-eds", "xboxlive", "com"),
     Three("dlassets", "xboxlive", "com")]
  }

  function XboxSites(): seq<Entry> {
    [Two("xbox", "com"), Two("xboxlive", "com")]
  }

  function Xbox(): Platform {
    Service("xbox", "Xbox & Game Pass",
      XboxSites(), XboxCompanions(), XboxMobile(), XboxCdn(), [])
  }

  function PlayStationCompanions(): seq<Entry> {
    [Two("sonyentertainmentnetwork", "com"), Two("playstationnetwork", "com"), Two("psn", "net"),
     Two("sie", "com"), Two("playstation", "org")]
  }

  function FirstPlayStationMobile(): seq<Entry> {
    [Four("auth", "api", "sonyentertainmentnetwork", "com"), Four("ca", "account", "sony", "com")]
  }

  function PlayStationMobile(): seq<Entry> {
    FirstPlayStationMobile() + [Four("commerce", "api", "playstation", "com"), Three("status", "playstation", "com")]
  }

  function PlayStationCdn(): seq<Entry> {
    [Four("apollo2", "dl", "playstation", "net"), Six("gs2", "ww", "prod", "dl", "playstation", "net"),
     Five("static-resource", "np", "community", "playstation", "net")]
  }

  function PlayStationSites(): seq<Entry> {
    [Two("playstation", "com"), Two("playstation", "net")]
  }

  function PlayStation(): Platform {
    Service("playstation", "PlayStation & PSN",
      PlayStationSites(), PlayStationCompanions(), PlayStationMobile(), PlayStationCdn(), [])
  }

  function GooglePlayCompanions(): seq<Entry> {
    [Four("android", "clients", "google", "com"), Three("playgames", "google", "com"),
     Three("play-lh", "googleusercontent", "com")]
  }

  function GooglePlayMobile(): seq<Entry> {
    [Three("android", "googleapis", "com"), Three("play", "googleapis", "com")]
  }

  function GooglePlaySites(): seq<Entry> {
    [Three("play", "google", "com"), Three("market", "android", "com")]
  }

  function GooglePlayCdn(): seq<Entry> {
    [Three("lh3", "googleusercontent", "com")]
  }

  function GooglePlay(): Platform {
    Service("googleplay", "Google Play Store & Services",
      GooglePlaySites(), GooglePlayCompanions(), GooglePlayMobile(), GooglePlayCdn(), [])
  }

  function SteamCompanions(): seq<Entry> {
    [Two("steamgames", "com"), Two("steamstatic", "com"), Two("steamcontent", "com"), Two("steam-chat", "com"),
     Two("valvesoftware", "com")]
  }

  function SteamMobile(): seq<Entry> {
    [Three("api", "steampowered", "com"), Three("cm", "steampowered", "com")]
  }

  function SteamCdn(): seq<Entry> {
    [Three("steamcdn-a", "akamaihd", "net"), Three("cdn", "steamcommunity", "com")]
  }

  function SteamSites(): seq<Entry> {
    [Two("steampowered", "com"), Two("steamcommunity", "com")]
  }

  function Steam(): Platform {
    Service("steam", "Steam",
      SteamSites(), SteamCompanions(), SteamMobile(), SteamCdn(), [])
  }

  function DiscordCompanions(): seq<Entry> {
    [Two("discordapp", "com"), Two("discordapp", "net"), Two("discord", "media"), Two("discordstatus", "com")]
  }

  function DiscordSites(): seq<Entry> {
    [Two("discord", "com"), Two("discord", "gg")]
  }

  function DiscordMobile(): seq<Entry> {
    [Three("gateway", "discord", "gg"), Three("status", "discord", "com")]
  }

  function DiscordCdn(): seq<Entry> {
    [Three("cdn", "discordapp", "com"), Three("media", "discordapp", "net")]
  }

  function Discord(): Platform {
    Service("discord", "Discord",
      DiscordSites(), DiscordCompanions(), DiscordMobile(), DiscordCdn(), [])
  }

  function RobloxSites(): seq<Entry> {
    [Two("roblox", "com"), Two("rbxcdn", "com")]
  }

  function RobloxCompanions(): seq<Entry> {
    [Two("robloxlabs", "com"), Two("rbx", "com")]
  }

  function RobloxMobile(): seq<Entry> {
    [Three("api", "roblox", "com"), Three("auth", "roblox", "com")]
  }

  function RobloxCdn(): seq<Entry> {
    [Three("static", "rbxcdn", "com"), Three("setup", "rbxcdn", "com")]
  }

  function Roblox(): Platform {
    Service("roblox", "Roblox",
      RobloxSites(), RobloxCompanions(), RobloxMobile(), RobloxCdn(), [])
  }

  function EpicGamesMobile(): seq<Entry> {
    [Four("account-public-service-prod", "ol", "epicgames", "com")]
  }

  function EpicGamesCdn(): seq<Entry> {
    [Four("fastly-epicgames", "ol", "epicgames", "com")]
  }

  function EpicGamesSites(): seq<Entry> {
    [Two("epicgames", "com"), Two("fortnite", "com")]
  }

  function EpicGamesCompanions(): seq<Entry> {
    [Two("epicgames", "net"), Two("unrealengine", "com")]
  }

  function EpicGames(): Platform {
    Service("epicgames", "Epic Games & Fortnite",
      EpicGamesSites(), EpicGamesCompanions(), EpicGamesMobile(), EpicGamesCdn(), [])
  }

  function NintendoMobile(): seq<Entry> {
    [Four("api", "accounts", "nintendo", "com")]
  }

  function NintendoCdn(): seq<Entry> {
    [Six("atum", "hac", "lp1", "d4c", "nintendo", "net")]
  }

  function NintendoSites(): seq<Entry> {
    [Two("nintendo", "com"), Two("nintendo", "net")]
  }

  function NintendoCompanions(): seq<Entry> {
    [Two("nintendonetwork", "net"), Two("nintendo-europe", "com")]
  }

  function Nintendo(): Platform {
    Service("nintendo", "Nintendo & Switch Online",
      NintendoSites(), NintendoCompanions(), NintendoMobile(), NintendoCdn(), [])
  }

  function SpotifySites(): seq<Entry> {
    [Two("spotify", "com"), Two("spotifycdn", "com")]
  }

  function SpotifyCompanions(): seq<Entry> {
    [Two("spoti", "fi"), Two("scdn", "co")]
  }

  function SpotifyMobile(): seq<Entry> {
    [Three("api", "spotify", "com"), Three("ap", "spotify", "com")]
  }

  function SpotifyCdn(): seq<Entry> {
    [Three("audio-fa", "scdn", "co"), Three("audio4-fa", "scdn", "co")]
  }

  function Spotify(): Platform {
    Service("spotify", "Spotify",
      SpotifySites(), SpotifyCompanions(), SpotifyMobile(), SpotifyCdn(), [])
  }

  function Services(): seq<Platform> {
    [YouTube(), Instagram(), Facebook(), TikTok(), Reddit(), Twitter(), Netflix(), Twitch(), Xbox(),
     PlayStation(), GooglePlay(), Steam(), Discord(), Roblox(), EpicGames(), Nintendo(), Spotify()]
  }

  // ---------------------------------------------------------------- companions

  /** The domains that belong to a platform, besides its own. */
  datatype Companionship = Companionship(platform: Entry, companions: seq<Entry>)

  function OfYouTube(): seq<Companionship> {
    [
      Companionship(Two("youtube", "com"), [Two("googlevideo", "com"), Two("ytimg", "com"),
        Two("youtube-nocookie", "com"), Two("youtu", "be"), Three("yt3", "ggpht", "com")])
    ]
  }

  function OfFacebook(): seq<Companionship> {
    [
      Companionship(Two("facebook", "com"), [Two("fbcdn", "net"), Two("fbsbx", "com"), Two("fb", "com"),
        Two("messenger", "com")])
    ]
  }

  function OfPhotosAndClips(): seq<Companionship> {
    [
      Companionship(Two("instagram", "com"), [Two("cdninstagram", "com"), Two("ig", "me")]),
      Companionship(Two("tiktok", "com"), [Two("tiktokcdn", "com"), Two("byteoversea", "com"),
        Two("ibytedtos", "com"), Two("musical", "ly")])
    ]
  }

  function OfForums(): seq<Companionship> {
    [
      Companionship(Two("reddit", "com"), [Two("redd", "it"), Two("redditmedia", "com"),
        Two("redditstatic", "com")]),
      Companionship(Two("twitter", "com"), [Two("x", "com"), Two("twimg", "com"), Two("t", "co")]),
      Companionship(Two("x", "com"), [Two("twitter", "com"), Two("twimg", "com"), Two("t", "co")])
    ]
  }

  function OfStreams(): seq<Companionship> {
    [
      Companionship(Two("netflix", "com"), [Two("nflxext", "com"), Two("nflximg", "net"),
        Two("nflxvideo", "net")]),
      Companionship(Two("twitch", "tv"), [Two("ttvnw", "net"), Two("jtvnw", "net")])
    ]
  }

  function OfXbox(): seq<Companionship> {
    [
      Companionship(Two("xbox", "com"), [Two("xboxlive", "com"), Two("xboxservices", "com"),
        Two("gamepass", "com"), Two("xboxab", "com"), Two("xboxgamestudio", "com")]),
      Companionship(Two("xboxlive", "com"), [Two("xbox", "com"), Two("xboxservices", "com"),
        Two("gamepass", "com"), Two("xboxab", "com")])
    ]
  }

  function OfPlayStation(): seq<Companionship> {
    [
      Companionship(Two("playstation", "com"), [Two("playstation", "net"),
        Two("sonyentertainmentnetwork", "com"), Two("playstationnetwork", "com"), Two("psn", "net"),
        Two("sie", "com")]),
      Companionship(Two("playstation", "net"), [Two("playstation", "com"),
        Two("sonyentertainmentnetwork", "com"), Two("playstationnetwork", "com"), Two("psn", "net")])
    ]
  }

  function OfGooglePlay(): seq<Companionship> {
    [
      Companionship(Three("play", "google", "com"), [Four("android", "clients", "google", "com"),
        Three("playgames", "google", "com"), Three("market", "android", "com"),
        Three("play-lh", "googleusercontent", "com")])
    ]
  }

  function OfSteam(): seq<Companionship> {
    [
      Companionship(Two("steampowered", "com"), [Two("steamcommunity", "com"), Two("steamgames", "com"),
        Two("steamstatic", "com"), Two("steamcontent", "com"), Two("steam-chat", "com")]),
      Companionship(Two("steamcommunity", "com"), [Two("steampowered", "com"), Two("steamgames", "com"),
        Two("steamstatic", "com"), Two("steamcontent", "com")])
    ]
  }

  function OfDiscordAndRoblox(): seq<Companionship> {
    [
      Companionship(Two("discord", "com"), [Two("discord", "gg"), Two("discordapp", "com"),
        Two("discordapp", "net"), Two("discord", "media")]),
      Companionship(Two("discord", "gg"), [Two("discord", "com"), Two("discordapp", "com"),
        Two("discordapp", "net"), Two("discord", "media")]),
      Companionship(Two("roblox", "com"), [Two("rbxcdn", "com"), Two("robloxlabs", "com"), Two("rbx", "com")])
    ]
  }

  function OfGames(): seq<Companionship> {
    [
      Companionship(Two("epicgames", "com"), [Two("fortnite", "com"), Two("epicgames", "net"),
        Two("unrealengine", "com")]),
      Companionship(Two("fortnite", "com"), [Two("epicgames", "com"), Two("epicgames", "net"),
        Two("unrealengine", "com")])
    ]
  }

  function OfMusic(): seq<Companionship> {
    [
      Companionship(Two("nintendo", "com"), [Two("nintendo", "net"), Two("nintendonetwork", "net"),
        Two("nintendo-europe", "com")]),
      Companionship(Two("spotify", "com"), [Two("spoti", "fi"), Two("scdn", "co"), Two("spotifycdn", "com")])
    ]
  }

  function CompanionMap(pairs: seq<Companionship>): map<string, seq<string>> {
    if pairs == [] then map[]
    else
      var n := |pairs| - 1;
      CompanionMap(pairs[..n])[pairs[n].platform.Domain() := Domains(pairs[n].companions)]
  }

  lemma {:induction false} CompanionsAreOrdinary(pairs: seq<Companionship>)
    ensures forall d :: d in CompanionMap(pairs) ==> OrdinaryDomains(SetOf(CompanionMap(pairs)[d]))
  {
    if pairs != [] {
      var n := |pairs| - 1;
      CompanionsAreOrdinary(pairs[..n]);
      EntriesAreOrdinary(pairs[n].companions);
    }
  }

  function AllCompanions(): seq<Companionship> {
    OfYouTube() + OfFacebook() + OfPhotosAndClips() + OfForums() + OfStreams() + OfXbox() + OfPlayStation()
      + OfGooglePlay() + OfSteam() + OfDiscordAndRoblox() + OfGames() + OfMusic()
  }

  // ---------------------------------------------------------------- the catalog that ships

  function Shipped(): Catalog {
    Catalog(DohProviders(), VpnProviders(), Services(), Aliases(), CompanionMap(AllCompanions()))
  }

  lemma VendorsAreSound(vendors: seq<Vendor>)
    ensures SoundProviders(vendors)
  {
  }

  lemma PlatformsAreSound(platforms: seq<Platform>)
    ensures forall svc :: svc in platforms ==> SoundService(svc) && AsciiDomains(svc.AllDomains()) && KnownAs(svc.id)
  {
  }

  lemma CatalogIsSound(doh: seq<Vendor>, vpn: seq<Vendor>, services: seq<Platform>, pairs: seq<Companionship>)
    ensures Sound(Catalog(doh, vpn, services, Aliases(), CompanionMap(pairs)))
  {
    VendorsAreSound(doh);
    VendorsAreSound(vpn);
    PlatformsAreSound(services);
    CompanionsAreOrdinary(pairs);
  }

  /** Every entry of the shipped tables is a domain rule or lies under one of its own list, except for
      the addresses of the DoH table. */
  lemma ShippedIsSound()
    ensures Sound(Shipped())
  {
    CatalogIsSound(DohProviders(), VpnProviders(), Services(), AllCompanions());
  }

  /** The shipped program, in every state that a new installation can reach: a tidy, non-essential name
      that the classifier attributes to a VPN or DoH provider is blocked exactly if its last label is
      not a number. */
  lemma ShippedEndpointsAreBlocked(env: Env, now: int, cs: seq<Command>, query: string)
    requires env.catalog == Shipped()
    requires Tidy(query) && !Essential(Clean(query)) && IdentifyBypassAttempt(env.catalog, query).Some?
    ensures Decision(Run(env, Boot(env, None, now), cs).rules, query).0 <==> !NumericName(Clean(query))
  {
    ShippedIsSound();
    ClassifiedIsAlwaysEnforced(env, now, cs, query);
  }

  /** And while a session is locked, every tidy, non-essential name that matches one of its services is
      blocked. */
  lemma ShippedServicesAreBlocked(env: Env, now: int, cs: seq<Command>, id: string, query: string)
    requires env.catalog == Shipped() && GetService(env.catalog, id).Some?
    requires var s := Run(env, Boot(env, None, now), cs); s.session.status == LOCKED && id in s.session.services
    requires Tidy(query) && !Essential(Clean(query)) && MatchesService(GetService(env.catalog, id).value, Trim(query))
    ensures Decision(Run(env, Boot(env, None, now), cs).rules, query).0
  {
    ShippedIsSound();
    SessionServiceIsAlwaysBlocked(env, now, cs, id, query);
  }
}
