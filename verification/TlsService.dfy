/** The NGINX configuration of the TLS data plane: how it is rendered, and how the
    policy is read back from the file (quansec/protocols/tls/service.py).

    A configuration is the sequence of its lines, none of the values in it holds a line
    feed, and a directive is searched line by line. Ports are the text they print as. */
module TlsService {
  import opened Options
  import opened Text

  datatype Settings = Settings(
    host: string, port: string, hostname: string,
    runtimeDir: string, accessLog: string, errorLog: string, pidFile: string,
    caCert: string, serverCert: string, serverKey: string,
    protocols: string, groups: string, ciphersuites: string, hybridGroup: string,
    mtls: bool, earlyData: bool, upstream: string,
    portalEnabled: bool, portalPort: string, portalGroups: string, portalCiphersuites: string,
    portalAccessLog: string, uiUpstream: string)

  // What a throwaway instance may replace; an empty text replaces nothing.
  datatype Overrides = Overrides(
    port: Option<string>, mtls: Option<bool>, accessLog: string, pidFile: string, errorLog: string,
    protocols: string, groups: string, ciphersuites: string)

  const NO_OVERRIDES := Overrides(None, None, "", "", "", "", "", "")

  function Or(value: string, default: string): string {
    if value != "" then value else default
  }

  function Effective(s: Settings, o: Overrides): Settings {
    s.(port := if o.port.Some? then o.port.value else s.port,
       mtls := if o.mtls.Some? then o.mtls.value else s.mtls,
       accessLog := Or(o.accessLog, s.accessLog), pidFile := Or(o.pidFile, s.pidFile),
       errorLog := Or(o.errorLog, s.errorLog), protocols := Or(o.protocols, s.protocols),
       groups := Or(o.groups, s.groups), ciphersuites := Or(o.ciphersuites, s.ciphersuites))
  }

  // ----- Lines of a configuration

  // The directive and block names that occur.
  datatype Name =
    | WorkerProcesses | Daemon | Pid | ErrorLog | Events | WorkerConnections | Http | DefaultType
    | AccessLog | LogFormat | Map | Default | EmptyValue | ClientBodyTempPath | ProxyTempPath | FastcgiTempPath
    | UwsgiTempPath | ScgiTempPath | Server | Listen | ServerName | SslCertificate | SslCertificateKey
    | SslProtocols | SslConfCommand | SslEarlyData | SslPreferServerCiphers | SslSessionTickets | SslClientCertificate
    | SslVerifyClient | SslVerifyDepth | Location | ProxyPass | ProxyHttpVersion | ProxySetHeader
    | ProxyConnectTimeout | ProxyReadTimeout | Return | ClientMaxBodySize

  predicate IsGlobal(n: Name) {
    n.WorkerProcesses? || n.Daemon? || n.Pid? || n.ErrorLog? || n.Events? ||
    n.WorkerConnections? || n.Http? || n.DefaultType? || n.AccessLog? || n.LogFormat? ||
    n.Map? || n.Default? || n.EmptyValue?
  }

  predicate IsServer(n: Name) {
    n.Server? || n.Listen? || n.ServerName? || n.SslCertificate? || n.SslCertificateKey? ||
    n.SslProtocols? || n.SslConfCommand? || n.SslEarlyData? || n.SslPreferServerCiphers? || n.SslSessionTickets? ||
    n.SslClientCertificate? || n.SslVerifyClient? || n.SslVerifyDepth?
  }

  predicate IsLocation(n: Name) {
    n.ClientBodyTempPath? || n.ProxyTempPath? || n.FastcgiTempPath? || n.UwsgiTempPath? || n.ScgiTempPath? ||
    n.Location? || n.ProxyPass? || n.ProxyHttpVersion? || n.ProxySetHeader? || n.ProxyConnectTimeout? ||
    n.ProxyReadTimeout? || n.Return? || n.ClientMaxBodySize?
  }

  function GlobalKeyword(n: Name): (w: string)
    requires IsGlobal(n)
    ensures w != "" && !IsSpace(w[0])
  {
    match n
    case WorkerProcesses => "worker_processes"
    case Daemon => "daemon"
    case Pid => "pid"
    case ErrorLog => "error_log"
    case Events => "events"
    case WorkerConnections => "worker_connections"
    case Http => "http"
    case DefaultType => "default_type"
    case AccessLog => "access_log"
    case LogFormat => "log_format"
    case Map => "map"
    case Default => "default"
    case EmptyValue => "''"
  }

  function ServerKeyword(n: Name): (w: string)
    requires IsServer(n)
    ensures w != "" && !IsSpace(w[0])
  {
    match n
    case Server => "server"
    case Listen => "listen"
    case ServerName => "server_name"
    case SslCertificate => "ssl_certificate"
    case SslCertificateKey => "ssl_certificate_key"
    case SslProtocols => "ssl_protocols"
    case SslConfCommand => "ssl_conf_command"
    case SslEarlyData => "ssl_early_data"
    case SslPreferServerCiphers => "ssl_prefer_server_ciphers"
    case SslSessionTickets => "ssl_session_tickets"
    case SslClientCertificate => "ssl_client_certificate"
    case SslVerifyClient => "ssl_verify_client"
    case SslVerifyDepth => "ssl_verify_depth"
  }

  function LocationKeyword(n: Name): (w: string)
    requires IsLocation(n)
    ensures w != "" && !IsSpace(w[0])
  {
    match n
    case ClientBodyTempPath => "client_body_temp_path"
    case ProxyTempPath => "proxy_temp_path"
    case FastcgiTempPath => "fastcgi_temp_path"
    case UwsgiTempPath => "uwsgi_temp_path"
    case ScgiTempPath => "scgi_temp_path"
    case Location => "location"
    case ProxyPass => "proxy_pass"
    case ProxyHttpVersion => "proxy_http_version"
    case ProxySetHeader => "proxy_set_header"
    case ProxyConnectTimeout => "proxy_connect_timeout"
    case ProxyReadTimeout => "proxy_read_timeout"
    case Return => "return"
    case ClientMaxBodySize => "client_max_body_size"
  }

  function Keyword(n: Name): (w: string)
    ensures w != "" && !IsSpace(w[0])
  {
    if IsGlobal(n) then GlobalKeyword(n) else if IsLocation(n) then LocationKeyword(n) else ServerKeyword(n)
  }

  datatype Line =
    | Directive(indent: nat, name: Name, args: string)
    | Block(indent: nat, name: Name, args: string)
    | Close(indent: nat)
    | Comment(indent: nat, text: string)
    | Quoted(indent: nat, text: string)
    | Blank

  function Spaces(n: nat): (s: string)
    ensures |s| == n && forall i :: 0 <= i < n ==> s[i] == ' '
  {
    seq(n, i => ' ')
  }

  function Body(l: Line): string {
    match l
    case Directive(_, name, args) => Keyword(name) + " " + args + ";"
    case Block(_, name, args) => Keyword(name) + " " + args + "{"
    case Close(_) => "}"
    case Comment(_, text) => "# " + text
    case Quoted(_, text) => "'" + text
    case Blank => ""
  }

  function Print(l: Line): string {
    if l.Blank? then "" else Spaces(l.indent) + Body(l)
  }

  function PrintAll(lines: seq<Line>): seq<string> {
    seq(|lines|, i requires 0 <= i < |lines| => Print(lines[i]))
  }

  // ----- Rendering

  // The heading repeats the three enforcing directives in comments.
  function Heading(s: Settings): seq<Line> {
    [Comment(0, "GENERATED FILE, DO NOT EDIT"),
     Comment(0, "  ssl_protocols     " + s.protocols),
     Comment(0, "  Groups            " + s.groups),
     Comment(0, "  Ciphersuites      " + s.ciphersuites),
     Blank]
  }

  function Global(s: Settings): seq<Line> {
    [Directive(0, WorkerProcesses, "1"),
     Directive(0, Daemon, "on"),
     Directive(0, Pid, s.pidFile),
     Directive(0, ErrorLog, s.errorLog + " info"),
     Blank,
     Block(0, Events, ""),
     Directive(4, WorkerConnections, "256"),
     Close(0),
     Blank,
     Block(0, Http, ""),
     Directive(4, DefaultType, "application/json"),
     Directive(4, AccessLog, "off"),
     Blank]
  }

  // The fields the collector reads.
  function LogFormatLines(): seq<Line> {
    [Block(4, LogFormat, "quansec_tls escape=json '"),
     Quoted(8, "\"timestamp\":\"$time_iso8601\",'"),
     Quoted(8, "\"connection_id\":\"$connection\",'"),
     Quoted(8, "\"listener\":\"$server_port\",'"),
     Quoted(8, "\"tls_protocol\":\"$ssl_protocol\",'"),
     Quoted(8, "\"negotiated_group\":\"$ssl_curve\",'"),
     Quoted(8, "}';"),
     Blank]
  }

  function Shared(s: Settings): seq<Line> {
    [Block(4, Map, "$http_upgrade $connection_upgrade "),
     Directive(8, Default, "upgrade"),
     Directive(8, EmptyValue, "     close"),
     Close(4),
     Blank,
     Directive(4, ClientBodyTempPath, s.runtimeDir + "/tmp/client_body"),
     Directive(4, ProxyTempPath, "      " + s.runtimeDir + "/tmp/proxy"),
     Directive(4, FastcgiTempPath, "    " + s.runtimeDir + "/tmp/fastcgi"),
     Directive(4, UwsgiTempPath, "      " + s.runtimeDir + "/tmp/uwsgi"),
     Directive(4, ScgiTempPath, "       " + s.runtimeDir + "/tmp/scgi"),
     Blank,
     Block(4, Server, "")]
  }

  function Listener(s: Settings): seq<Line> {
    [Directive(8, Listen, s.host + ":" + s.port + " ssl"),
     Directive(8, ServerName, s.hostname),
     Directive(8, AccessLog, s.accessLog + " quansec_tls"),
     Directive(8, SslCertificate, "    " + s.serverCert),
     Directive(8, SslCertificateKey, s.serverKey),
     Directive(8, SslProtocols, s.protocols),
     Directive(8, SslConfCommand, "Groups" + " " + s.groups),
     Directive(8, SslConfCommand, "Ciphersuites" + " " + s.ciphersuites),
     Directive(8, SslEarlyData, if s.earlyData then "on" else "off"),
     Directive(8, SslPreferServerCiphers, "on"),
     Directive(8, SslSessionTickets, "off")]
  }

  function MutualTls(s: Settings): seq<Line> {
    if s.mtls then
      [Comment(8, "Mutual TLS"),
       Directive(8, SslClientCertificate, s.caCert),
       Directive(8, SslVerifyClient, "on"),
       Directive(8, SslVerifyDepth, "2")]
    else []
  }

  function Locations(s: Settings): seq<Line> {
    [Block(8, Location, "/dataplane/ "),
     Directive(12, ProxyPass, "http://" + s.upstream + "/api/tls/dataplane/"),
     Directive(12, ProxyHttpVersion, "1.1"),
     Directive(12, ProxySetHeader, "Host $host"),
     Directive(12, ProxyConnectTimeout, "5s"),
     Directive(12, ProxyReadTimeout, "10s"),
     Close(8),
     Block(8, Location, "/ "),
     Directive(12, Return, "404"),
     Close(8),
     Close(4)]
  }

  // The browser-facing listener, with a wider group list.
  function Portal(s: Settings): seq<Line> {
    if !s.portalEnabled then []
    else
      [Blank,
       Block(4, Server, ""),
       Directive(8, Listen, s.host + ":" + s.portalPort + " ssl"),
       Directive(8, ServerName, s.hostname),
       Directive(8, AccessLog, s.portalAccessLog + " quansec_tls"),
       Directive(8, SslCertificate, "    " + s.serverCert),
       Directive(8, SslCertificateKey, s.serverKey),
       Directive(8, SslProtocols, "TLSv1.3"),
       Directive(8, SslConfCommand, "Groups" + " " + s.portalGroups),
       Directive(8, SslConfCommand, "Ciphersuites" + " " + s.portalCiphersuites),
       Directive(8, SslEarlyData, "off"),
       Directive(8, SslSessionTickets, "off"),
       Directive(8, ClientMaxBodySize, "2m"),
       Block(8, Location, "/api/ "),
       Directive(12, ProxyPass, "http://" + s.upstream),
       Close(8),
       Block(8, Location, "/ "),
       Directive(12, ProxyPass, "http://" + s.uiUpstream),
       Close(8),
       Close(4)]
  }

  function ConfigLines(s: Settings, includePortal: bool): seq<Line> {
    Heading(s) + Global(s) + LogFormatLines() + Shared(s) + Listener(s) + MutualTls(s) + Locations(s)
    + (if includePortal then Portal(s) else []) + [Close(0)]
  }

  function RenderConfig(s: Settings, o: Overrides, includePortal: bool): seq<string> {
    PrintAll(ConfigLines(Effective(s, o), includePortal))
  }

  // ----- Reading the policy back

  // What follows the last keyword: white space, then the value up to a semicolon.
  function Value(rest: string): Option<string> {
    if rest == "" || !IsSpace(rest[0]) then None
    else
      match FirstPiece(rest[1..], ';')
      case None => None
      case Some(v) => if v == "" then None else Some(Trim(v))
  }

  // Keywords separated by white space, from the start of a text.
  function MatchFrom(s: string, words: seq<string>): Option<string>
    requires words != []
    decreases |words|
  {
    if !StartsWith(s, words[0]) then None
    else if |words| == 1 then Value(s[|words[0]|..])
    else if |s| == |words[0]| || !IsSpace(s[|words[0]|]) then None
    else MatchFrom(TrimLeft(s[|words[0]|..]), words[1..])
  }

  function Match(line: string, words: seq<string>): Option<string>
    requires words != []
  {
    MatchFrom(TrimLeft(line), words)
  }

  // The value in the first line that has the directive, or the empty text.
  function FirstMatch(lines: seq<string>, words: seq<string>): string
    requires words != []
  {
    if lines == [] then ""
    else match Match(lines[0], words)
         case Some(value) => value
         case None => FirstMatch(lines[1..], words)
  }

  datatype Policy = Policy(
    protocols: string, groups: string, ciphersuites: string, earlyData: bool, mtls: bool, listen: string)

  function RunningPolicy(lines: seq<string>): Policy {
    Policy(
      FirstMatch(lines, [Keyword(SslProtocols)]),
      FirstMatch(lines, [Keyword(SslConfCommand), "Groups"]),
      FirstMatch(lines, [Keyword(SslConfCommand), "Ciphersuites"]),
      FirstMatch(lines, [Keyword(SslEarlyData)]) == "on",
      FirstMatch(lines, [Keyword(SslVerifyClient)]) == "on",
      FirstMatch(lines, [Keyword(Listen)]))
  }

  // ----- What a printed line matches

  ghost predicate Word(w: string) {
    w != "" && forall i :: 0 <= i < |w| ==> !IsSpace(w[i])
  }

  lemma {:induction false} TrimLeftSpaces(n: nat, s: string)
    requires s == "" || !IsSpace(s[0])
    ensures TrimLeft(Spaces(n) + s) == s
  {
    if n > 0 {
      TrimLeftSpaces(n - 1, s);
      assert (Spaces(n) + s)[1..] == Spaces(n - 1) + s;
    } else {
      assert Spaces(n) + s == s;
    }
  }

  // A line that starts with another word does not match.
  lemma OtherWord(name: string, rest: string, words: seq<string>)
    requires words != [] && Word(words[0]) && !StartsWith(name, words[0]) && rest != "" && IsSpace(rest[0])
    ensures MatchFrom(name + rest, words) == None
  {
    var s, w := name + rest, words[0];
    if |w| <= |name| {
      assert s[..|w|] == name[..|w|];
    } else {
      assert s[|name|] == rest[0];
      NotAPrefix(s, w, |name|);
    }
  }

  lemma NotAPrefix(s: string, w: string, i: nat)
    requires i < |w| && i < |s| && s[i] != w[i]
    ensures !StartsWith(s, w)
  {
    assert |w| <= |s| ==> s[..|w|][i] == s[i];
  }

  lemma OtherStart(s: string, words: seq<string>)
    requires words != [] && Word(words[0]) && (s == "" || s[0] != words[0][0])
    ensures MatchFrom(s, words) == None
  {
    if s != "" {
      NotAPrefix(s, words[0], 0);
    }
  }

  ghost predicate PolicyText(v: string) {
    v != "" && ';' !in v
  }

  lemma ValueOf(v: string)
    requires PolicyText(v)
    ensures Value(" " + v + ";") == Some(Trim(v))
  {
    assert (" " + v + ";")[1..] == v + [';'] + [];
    FirstPieceOfJoin(v, ';', []);
  }

  lemma OneWord(name: string, v: string)
    requires Word(name) && PolicyText(v)
    ensures MatchFrom(name + " " + v + ";", [name]) == Some(Trim(v))
  {
    var s := name + " " + v + ";";
    assert s[..|name|] == name && s[|name|..] == " " + v + ";";
    ValueOf(v);
  }

  lemma TwoWords(name: string, second: string, v: string)
    requires Word(name) && Word(second) && PolicyText(v)
    ensures MatchFrom(name + " " + (second + " " + v) + ";", [name, second]) == Some(Trim(v))
  {
    var s := name + " " + (second + " " + v) + ";";
    var tail := second + " " + v + ";";
    assert s[..|name|] == name && s[|name|..] == Spaces(1) + tail;
    TrimLeftSpaces(1, tail);
    assert [name, second][1..] == [second];
    OneWord(second, v);
  }

  lemma OtherSecondWord(name: string, second: string, rest: string, wanted: string)
    requires Word(wanted) && second != "" && !IsSpace(second[0]) && !StartsWith(second, wanted)
    ensures MatchFrom(name + " " + (second + " " + rest) + ";", [name, wanted]) == None
  {
    var s := name + " " + (second + " " + rest) + ";";
    var tail := second + (" " + rest + ";");
    assert s[..|name|] == name && s[|name|..] == Spaces(1) + tail;
    TrimLeftSpaces(1, tail);
    assert [name, wanted][1..] == [wanted];
    OtherWord(second, " " + rest + ";", [wanted]);
  }

  // ----- Searching a rendered configuration

  ghost predicate PolicyName(n: Name) {
    n.SslProtocols? || n.SslConfCommand? || n.SslEarlyData? || n.SslVerifyClient? || n.Listen?
  }

  lemma PolicyNameIsWord(n: Name)
    requires PolicyName(n)
    ensures Word(Keyword(n))
  {
  }

  // No other name starts with the name of a policy directive: it is shorter, or
  // differs in one of the first seven characters.
  ghost predicate SoonDiffers(s: string, w: string) {
    |s| < |w| || (|w| >= 6 && (s[0] != w[0] || s[1] != w[1] || s[4] != w[4] || s[5] != w[5]))
    || (|w| >= 7 && s[6] != w[6])
  }

  lemma SoonDiffersNotPrefix(s: string, w: string)
    requires SoonDiffers(s, w)
    ensures !StartsWith(s, w)
  {
    if |w| <= |s| {
      NotAPrefix(s, w, if s[0] != w[0] then 0 else if s[1] != w[1] then 1 else if s[4] != w[4] then 4 else if s[5] != w[5] then 5 else 6);
    }
  }

  const POLICY_KEYWORDS := {"listen", "ssl_protocols", "ssl_conf_command", "ssl_early_data", "ssl_verify_client"}

  lemma GlobalDiffers(n: Name, w: string)
    requires IsGlobal(n)
    requires w in POLICY_KEYWORDS
    ensures SoonDiffers(GlobalKeyword(n), w)
  {
  }

  lemma LocationDiffers(n: Name, w: string)
    requires IsLocation(n)
    requires w in POLICY_KEYWORDS
    ensures SoonDiffers(LocationKeyword(n), w)
  {
  }

  lemma ListenDiffers(n: Name)
    requires IsServer(n) && !n.Listen?
    ensures SoonDiffers(ServerKeyword(n), "listen")
  {
  }

  lemma ProtocolsDiffers(n: Name)
    requires IsServer(n) && !n.SslProtocols?
    ensures SoonDiffers(ServerKeyword(n), "ssl_protocols")
  {
  }

  lemma ConfCommandDiffers(n: Name)
    requires IsServer(n) && !n.SslConfCommand?
    ensures SoonDiffers(ServerKeyword(n), "ssl_conf_command")
  {
  }

  lemma EarlyDataDiffers(n: Name)
    requires IsServer(n) && !n.SslEarlyData?
    ensures SoonDiffers(ServerKeyword(n), "ssl_early_data")
  {
  }

  lemma VerifyClientDiffers(n: Name)
    requires IsServer(n) && !n.SslVerifyClient?
    ensures SoonDiffers(ServerKeyword(n), "ssl_verify_client")
  {
  }

  lemma PolicyKeywords(policy: Name)
    requires PolicyName(policy)
    ensures Keyword(policy) == match policy
                               case Listen => "listen"
                               case SslProtocols => "ssl_protocols"
                               case SslConfCommand => "ssl_conf_command"
                               case SslEarlyData => "ssl_early_data"
                               case _ => "ssl_verify_client"
  {
  }

  lemma EveryGroup(n: Name)
    ensures IsGlobal(n) || IsServer(n) || IsLocation(n)
  {
  }

  lemma KeywordsDiffer(policy: Name, other: Name)
    requires PolicyName(policy) && policy != other
    ensures !StartsWith(Keyword(other), Keyword(policy))
  {
    PolicyKeywords(policy);
    EveryGroup(other);
    hide GlobalKeyword, ServerKeyword, LocationKeyword, SoonDiffers, StartsWith, IsGlobal, IsServer, IsLocation;
    if IsGlobal(other) {
      GlobalDiffers(other, Keyword(policy));
    } else if IsLocation(other) {
      LocationDiffers(other, Keyword(policy));
    } else {
      match policy {
        case Listen => ListenDiffers(other);
        case SslProtocols => ProtocolsDiffers(other);
        case SslConfCommand => ConfCommandDiffers(other);
        case SslEarlyData => EarlyDataDiffers(other);
        case SslVerifyClient => VerifyClientDiffers(other);
      }
    }
    SoonDiffersNotPrefix(Keyword(other), Keyword(policy));
  }

  // Why a line does not match a policy directive.
  ghost predicate Passes(l: Line, policy: Name, second: Option<string>) {
    match l
    case Directive(_, name, args) =>
      name != policy || (name.SslConfCommand? && second.Some? &&
        if second.value == "Groups" then exists rest :: args == "Ciphersuites" + " " + rest
        else second.value == "Ciphersuites" && exists rest :: args == "Groups" + " " + rest)
    case Block(_, name, _) => name != policy
    case _ => true
  }

  function Words(policy: Name, second: Option<string>): seq<string> {
    if second.Some? then [Keyword(policy), second.value] else [Keyword(policy)]
  }

  lemma BodyStart(l: Line)
    requires !l.Blank?
    ensures Body(l) != "" && !IsSpace(Body(l)[0])
    ensures TrimLeft(Print(l)) == Body(l)
  {
    hide Keyword;
    TrimLeftSpaces(l.indent, Body(l));
  }

  lemma OtherName(name: Name, args: string, end: string, policy: Name, second: Option<string>)
    requires PolicyName(policy) && name != policy
    ensures MatchFrom(Keyword(name) + " " + args + end, Words(policy, second)) == None
  {
    KeywordsDiffer(policy, name);
    PolicyNameIsWord(policy);
    hide Keyword, MatchFrom;
    var rest := " " + args + end;
    assert Keyword(name) + " " + args + end == Keyword(name) + rest;
    OtherWord(Keyword(name), rest, Words(policy, second));
  }

  lemma BlankLine()
    ensures TrimLeft(Print(Blank)) == ""
  {
  }

  lemma PassesNoMatch(l: Line, policy: Name, second: Option<string>)
    requires PolicyName(policy) && Passes(l, policy, second)
    ensures Match(Print(l), Words(policy, second)) == None
  {
    if l.Blank? {
      BlankLine();
    } else {
      BodyStart(l);
    }
    hide Keyword, TrimLeft, MatchFrom, Print, Word, PolicyName;
    if l.Directive? {
      hide Body;
      DirectiveNoMatch(l, policy, second);
    } else if l.Block? {
      OtherName(l.name, l.args, "{", policy, second);
    } else {
      PolicyNameIsWord(policy);
      OtherStart(Body(l), Words(policy, second));
    }
  }

  lemma DirectiveNoMatch(l: Line, policy: Name, second: Option<string>)
    requires PolicyName(policy) && l.Directive? && Passes(l, policy, second)
    ensures MatchFrom(Body(l), Words(policy, second)) == None
  {
    hide Keyword, MatchFrom, PolicyName;
    if l.name != policy {
      OtherName(l.name, l.args, ";", policy, second);
    } else {
      OtherSetting(l.args, second.value);
    }
  }

  lemma OtherSetting(args: string, wanted: string)
    requires Passes(Directive(0, SslConfCommand, args), SslConfCommand, Some(wanted))
    ensures MatchFrom(Keyword(SslConfCommand) + " " + args + ";", [Keyword(SslConfCommand), wanted]) == None
  {
    if wanted == "Groups" {
      var rest :| args == "Ciphersuites" + " " + rest;
      OtherSecondWord(Keyword(SslConfCommand), "Ciphersuites", rest, "Groups");
    } else {
      var rest :| args == "Groups" + " " + rest;
      OtherSecondWord(Keyword(SslConfCommand), "Groups", rest, "Ciphersuites");
    }
  }

  // ----- What is read back is what was rendered

  ghost predicate AllPass(lines: seq<Line>, policy: Name, second: Option<string>) {
    forall i :: 0 <= i < |lines| ==> Passes(lines[i], policy, second)
  }

  lemma AllPassAppend(a: seq<Line>, b: seq<Line>, policy: Name, second: Option<string>)
    requires AllPass(a, policy, second) && AllPass(b, policy, second)
    ensures AllPass(a + b, policy, second)
  {
    hide Passes;
  }

  // The first line that does not pass decides.
  lemma {:induction false} FirstMatchSkips(lines: seq<Line>, rest: seq<Line>, policy: Name, second: Option<string>)
    requires PolicyName(policy) && AllPass(lines, policy, second)
    ensures FirstMatch(PrintAll(lines + rest), Words(policy, second)) == FirstMatch(PrintAll(rest), Words(policy, second))
  {
    hide Passes, Print, Keyword, Match;
    if lines == [] {
      assert lines + rest == rest;
    } else {
      PassesNoMatch(lines[0], policy, second);
      FirstMatchSkips(lines[1..], rest, policy, second);
      var printed := PrintAll(lines + rest);
      assert printed[0] == Print(lines[0]);
      assert printed[1..] == PrintAll(lines[1..] + rest);
    }
  }

  lemma FirstMatchFinds(before: seq<Line>, line: Line, after: seq<Line>, policy: Name, second: Option<string>, v: string)
    requires PolicyName(policy) && AllPass(before, policy, second)
    requires Match(Print(line), Words(policy, second)) == Some(v)
    ensures FirstMatch(PrintAll(before + [line] + after), Words(policy, second)) == v
  {
    hide Passes, Print, Keyword, Match;
    assert before + [line] + after == before + ([line] + after);
    FirstMatchSkips(before, [line] + after, policy, second);
    assert PrintAll([line] + after)[0] == Print(line);
  }

  lemma FirstMatchMisses(lines: seq<Line>, policy: Name, second: Option<string>)
    requires PolicyName(policy) && AllPass(lines, policy, second)
    ensures FirstMatch(PrintAll(lines), Words(policy, second)) == ""
  {
    hide Passes;
    assert lines + [] == lines;
    FirstMatchSkips(lines, [], policy, second);
  }

  // The same for a directive in the second part of a configuration.
  lemma PartFinds(preamble: seq<Line>, part: seq<Line>, tail: seq<Line>, j: nat, policy: Name, second: Option<string>, v: string)
    requires j < |part| && PolicyName(policy)
    requires AllPass(preamble, policy, second) && AllPass(part[..j], policy, second)
    requires Match(Print(part[j]), Words(policy, second)) == Some(v)
    ensures FirstMatch(PrintAll(preamble + part + tail), Words(policy, second)) == v
  {
    hide Passes, Print, Keyword, Match;
    AllPassAppend(preamble, part[..j], policy, second);
    FirstMatchFinds(preamble + part[..j], part[j], part[j + 1..] + tail, policy, second, v);
    assert (preamble + part[..j]) + [part[j]] + (part[j + 1..] + tail) == preamble + part + tail;
  }

  function Preamble(s: Settings): seq<Line> {
    Heading(s) + Global(s) + LogFormatLines() + Shared(s)
  }

  function Tail(s: Settings, includePortal: bool): seq<Line> {
    Locations(s) + (if includePortal then Portal(s) else []) + [Close(0)]
  }

  lemma ConfigParts(s: Settings, includePortal: bool)
    ensures ConfigLines(s, includePortal) == Preamble(s) + Listener(s) + (MutualTls(s) + Tail(s, includePortal))
    ensures ConfigLines(s, includePortal) == (Preamble(s) + Listener(s)) + MutualTls(s) + Tail(s, includePortal)
  {
    hide Heading, Global, LogFormatLines, Shared, Listener, MutualTls, Locations, Portal;
  }

  lemma HeadingPasses(s: Settings, policy: Name, second: Option<string>)
    requires PolicyName(policy)
    ensures AllPass(Heading(s), policy, second) && AllPass(LogFormatLines(), policy, second)
  {
  }

  lemma GlobalPasses(s: Settings, policy: Name, second: Option<string>)
    requires PolicyName(policy)
    ensures AllPass(Global(s), policy, second)
  {
  }

  lemma SharedPasses(s: Settings, policy: Name, second: Option<string>)
    requires PolicyName(policy)
    ensures AllPass(Shared(s), policy, second)
  {
  }

  lemma PreamblePasses(s: Settings, policy: Name, second: Option<string>)
    requires PolicyName(policy)
    ensures AllPass(Preamble(s), policy, second)
  {
    hide Heading, Global, LogFormatLines, Shared, Passes, AllPass;
    HeadingPasses(s, policy, second);
    GlobalPasses(s, policy, second);
    SharedPasses(s, policy, second);
    AllPassAppend(Heading(s), Global(s), policy, second);
    AllPassAppend(Heading(s) + Global(s), LogFormatLines(), policy, second);
    AllPassAppend(Heading(s) + Global(s) + LogFormatLines(), Shared(s), policy, second);
  }

  // A policy directive of the strict listener is the first of its kind.
  lemma ListenerFinds(s: Settings, includePortal: bool, j: nat, policy: Name, second: Option<string>, v: string)
    requires j < |Listener(s)| && PolicyName(policy)
    requires AllPass(Listener(s)[..j], policy, second)
    requires Match(Print(Listener(s)[j]), Words(policy, second)) == Some(v)
    ensures FirstMatch(PrintAll(ConfigLines(s, includePortal)), Words(policy, second)) == v
  {
    hide Preamble, Listener, MutualTls, Tail, Passes, Print, Keyword, Match, ConfigLines, AllPass;
    PreamblePasses(s, policy, second);
    ConfigParts(s, includePortal);
    PartFinds(Preamble(s), Listener(s), MutualTls(s) + Tail(s, includePortal), j, policy, second, v);
  }

  lemma DirectiveMatches(indent: nat, name: Name, v: string)
    requires PolicyName(name) && PolicyText(v)
    ensures Match(Print(Directive(indent, name, v)), Words(name, None)) == Some(Trim(v))
  {
    PolicyNameIsWord(name);
    BodyStart(Directive(indent, name, v));
    hide Keyword;
    OneWord(Keyword(name), v);
  }

  lemma ConfCommandMatches(indent: nat, second: string, v: string)
    requires Word(second) && PolicyText(v)
    ensures Match(Print(Directive(indent, SslConfCommand, second + " " + v)), Words(SslConfCommand, Some(second))) == Some(Trim(v))
  {
    PolicyNameIsWord(SslConfCommand);
    BodyStart(Directive(indent, SslConfCommand, second + " " + v));
    hide Keyword;
    TwoWords(Keyword(SslConfCommand), second, v);
  }

  // The policy a configuration was rendered from.
  function Intended(s: Settings): Policy {
    Policy(s.protocols, s.groups, s.ciphersuites, s.earlyData, s.mtls, s.host + ":" + s.port + " ssl")
  }

  // Without white space at the ends of its values.
  function Stripped(p: Policy): Policy {
    p.(protocols := Trim(p.protocols), groups := Trim(p.groups), ciphersuites := Trim(p.ciphersuites), listen := Trim(p.listen))
  }

  // Policy values are nonempty and free of semicolons.
  ghost predicate WellFormed(s: Settings) {
    && PolicyText(s.protocols) && PolicyText(s.groups) && PolicyText(s.ciphersuites)
    && PolicyText(s.host + ":" + s.port + " ssl")
  }

  lemma ListenerPrefixPasses(s: Settings)
    ensures AllPass(Listener(s)[..5], SslProtocols, None)
    ensures AllPass(Listener(s)[..6], SslConfCommand, Some("Groups"))
    ensures AllPass(Listener(s)[..8], SslEarlyData, None)
    ensures AllPass(Listener(s), SslVerifyClient, None)
  {
  }

  lemma CiphersuitesPrefixPasses(s: Settings)
    ensures AllPass(Listener(s)[..7], SslConfCommand, Some("Ciphersuites"))
  {
    var part := Listener(s)[..7];
    forall i | 0 <= i < 7 ensures Passes(part[i], SslConfCommand, Some("Ciphersuites")) {
      if i == 6 {
        assert part[6] == Directive(8, SslConfCommand, "Groups" + " " + s.groups);
      } else {
        assert part[i].name != SslConfCommand;
      }
    }
  }

  lemma ListenFound(s: Settings, includePortal: bool)
    requires WellFormed(s)
    ensures FirstMatch(PrintAll(ConfigLines(s, includePortal)), Words(Listen, None)) == Trim(s.host + ":" + s.port + " ssl")
  {
    hide Passes, Keyword, Match, ConfigLines, AllPass;
    NothingPasses(Listener(s)[..0], Listen);
    var v := s.host + ":" + s.port + " ssl";
    DirectiveMatches(8, Listen, v);
    ListenerFinds(s, includePortal, 0, Listen, None, Trim(v));
  }

  lemma ProtocolsFound(s: Settings, includePortal: bool)
    requires WellFormed(s)
    ensures FirstMatch(PrintAll(ConfigLines(s, includePortal)), Words(SslProtocols, None)) == Trim(s.protocols)
  {
    hide Passes, Keyword, Match, ConfigLines, AllPass;
    ListenerPrefixPasses(s);
    DirectiveMatches(8, SslProtocols, s.protocols);
    ListenerFinds(s, includePortal, 5, SslProtocols, None, Trim(s.protocols));
  }

  lemma EarlyDataFound(s: Settings, includePortal: bool)
    ensures FirstMatch(PrintAll(ConfigLines(s, includePortal)), Words(SslEarlyData, None)) == (if s.earlyData then "on" else "off")
  {
    hide Passes, Keyword, Match, ConfigLines, AllPass;
    ListenerPrefixPasses(s);
    var v := if s.earlyData then "on" else "off";
    TrimTrimmed(v);
    DirectiveMatches(8, SslEarlyData, v);
    ListenerFinds(s, includePortal, 8, SslEarlyData, None, v);
  }

  lemma NothingPasses(lines: seq<Line>, policy: Name)
    requires lines == []
    ensures AllPass(lines, policy, None)
  {
  }

  lemma ConfCommandsFound(s: Settings, includePortal: bool)
    requires WellFormed(s)
    ensures var lines := PrintAll(ConfigLines(s, includePortal));
            && FirstMatch(lines, Words(SslConfCommand, Some("Groups"))) == Trim(s.groups)
            && FirstMatch(lines, Words(SslConfCommand, Some("Ciphersuites"))) == Trim(s.ciphersuites)
  {
    hide Passes, Keyword, Match, ConfigLines, AllPass;
    ListenerPrefixPasses(s);
    CiphersuitesPrefixPasses(s);
    ConfCommandMatches(8, "Groups", s.groups);
    ListenerFinds(s, includePortal, 6, SslConfCommand, Some("Groups"), Trim(s.groups));
    ConfCommandMatches(8, "Ciphersuites", s.ciphersuites);
    ListenerFinds(s, includePortal, 7, SslConfCommand, Some("Ciphersuites"), Trim(s.ciphersuites));
  }

  lemma LocationsPass(s: Settings)
    ensures AllPass(Locations(s), SslVerifyClient, None)
  {
  }

  lemma PortalPasses(s: Settings)
    ensures AllPass(Portal(s), SslVerifyClient, None) && AllPass([Close(0)], SslVerifyClient, None)
  {
  }

  lemma MutualTlsParts(s: Settings)
    requires s.mtls
    ensures |MutualTls(s)| > 2 && MutualTls(s)[2] == Directive(8, SslVerifyClient, "on")
    ensures AllPass(MutualTls(s)[..2], SslVerifyClient, None)
  {
  }

  lemma VerifyClientFound(s: Settings, includePortal: bool)
    ensures FirstMatch(PrintAll(ConfigLines(s, includePortal)), Words(SslVerifyClient, None)) == if s.mtls then "on" else ""
  {
    hide Preamble, Listener, Tail, Passes, Keyword, Match, ConfigLines, AllPass;
    PreamblePasses(s, SslVerifyClient, None);
    ListenerPrefixPasses(s);
    ConfigParts(s, includePortal);
    AllPassAppend(Preamble(s), Listener(s), SslVerifyClient, None);
    var before := Preamble(s) + Listener(s);
    if s.mtls {
      MutualTlsParts(s);
      DirectiveMatches(8, SslVerifyClient, "on");
      TrimTrimmed("on");
      PartFinds(before, MutualTls(s), Tail(s, includePortal), 2, SslVerifyClient, None, "on");
    } else {
      TailPasses(s, includePortal);
      AllPassAppend(before, Tail(s, includePortal), SslVerifyClient, None);
      FirstMatchMisses(before + Tail(s, includePortal), SslVerifyClient, None);
      assert before + MutualTls(s) + Tail(s, includePortal) == before + Tail(s, includePortal);
    }
  }

  lemma TailPasses(s: Settings, includePortal: bool)
    ensures AllPass(Tail(s, includePortal), SslVerifyClient, None)
  {
    LocationsPass(s);
    PortalPasses(s);
    hide Locations, Portal, Passes;
    var portal := if includePortal then Portal(s) else [];
    AllPassAppend(Locations(s), portal, SslVerifyClient, None);
    AllPassAppend(Locations(s) + portal, [Close(0)], SslVerifyClient, None);
  }

  /** Reading a rendered configuration returns exactly the policy it was rendered from,
      stripped of outer white space, with or without the portal block, which repeats the
      directives with other values. */
  lemma ParseOfRender(s: Settings, o: Overrides, includePortal: bool)
    requires WellFormed(Effective(s, o))
    ensures RunningPolicy(RenderConfig(s, o, includePortal)) == Stripped(Intended(Effective(s, o)))
  {
    var e := Effective(s, o);
    hide Effective, ConfigLines, FirstMatch, Keyword, WellFormed;
    ListenFound(e, includePortal);
    ProtocolsFound(e, includePortal);
    EarlyDataFound(e, includePortal);
    ConfCommandsFound(e, includePortal);
    VerifyClientFound(e, includePortal);
  }

  /** What a throwaway instance overrides is what is read back; the rest is the settings'. */
  lemma ParseWithOverrides(s: Settings, o: Overrides, includePortal: bool)
    requires WellFormed(Effective(s, o))
    ensures var running := RunningPolicy(RenderConfig(s, o, includePortal));
            && running.protocols == Trim(if o.protocols != "" then o.protocols else s.protocols)
            && running.groups == Trim(if o.groups != "" then o.groups else s.groups)
            && running.ciphersuites == Trim(if o.ciphersuites != "" then o.ciphersuites else s.ciphersuites)
            && running.mtls == (if o.mtls.Some? then o.mtls.value else s.mtls)
            && running.earlyData == s.earlyData
            && running.listen == Trim(s.host + ":" + (if o.port.Some? then o.port.value else s.port) + " ssl")
  {
    hide RenderConfig, RunningPolicy, WellFormed, Trim;
    ParseOfRender(s, o, includePortal);
  }

  // An instance has its own logs and process id, and every other setting unchanged.
  lemma OverridesKeepTheRest(s: Settings, o: Overrides)
    ensures var e := Effective(s, o);
            && e.accessLog == (if o.accessLog != "" then o.accessLog else s.accessLog)
            && e.errorLog == (if o.errorLog != "" then o.errorLog else s.errorLog)
            && e.pidFile == (if o.pidFile != "" then o.pidFile else s.pidFile)
            && e.(port := s.port, mtls := s.mtls, accessLog := s.accessLog, errorLog := s.errorLog, pidFile := s.pidFile,
                  protocols := s.protocols, groups := s.groups, ciphersuites := s.ciphersuites) == s
  {
  }

  // ----- The portal server on its own

  lemma FindAt(lines: seq<Line>, j: nat, policy: Name, second: Option<string>, v: string)
    requires j < |lines| && PolicyName(policy) && AllPass(lines[..j], policy, second)
    requires Match(Print(lines[j]), Words(policy, second)) == Some(v)
    ensures FirstMatch(PrintAll(lines), Words(policy, second)) == v
  {
    hide Passes, Print, Keyword, Match;
    assert lines == lines[..j] + [lines[j]] + lines[j + 1..];
    FirstMatchFinds(lines[..j], lines[j], lines[j + 1..], policy, second, v);
  }

  // Where the portal's own directives are, and that none of the same kind precedes them.
  lemma PortalListenAt(s: Settings)
    requires s.portalEnabled
    ensures |Portal(s)| > 10 && Portal(s)[2] == Directive(8, Listen, s.host + ":" + s.portalPort + " ssl")
    ensures AllPass(Portal(s)[..2], Listen, None)
  {
  }

  lemma PortalProtocolsAt(s: Settings)
    requires s.portalEnabled
    ensures |Portal(s)| > 10 && Portal(s)[7] == Directive(8, SslProtocols, "TLSv1.3")
    ensures AllPass(Portal(s)[..7], SslProtocols, None)
  {
  }

  lemma PortalGroupsAt(s: Settings)
    requires s.portalEnabled
    ensures |Portal(s)| > 10 && Portal(s)[8] == Directive(8, SslConfCommand, "Groups" + " " + s.portalGroups)
    ensures AllPass(Portal(s)[..8], SslConfCommand, Some("Groups"))
  {
  }

  lemma PortalEarlyDataAt(s: Settings)
    requires s.portalEnabled
    ensures |Portal(s)| > 10 && Portal(s)[10] == Directive(8, SslEarlyData, "off")
    ensures AllPass(Portal(s)[..10], SslEarlyData, None)
  {
  }

  lemma PortalCiphersuitesAt(s: Settings)
    requires s.portalEnabled
    ensures |Portal(s)| > 10
    ensures Portal(s)[9] == Directive(8, SslConfCommand, "Ciphersuites" + " " + s.portalCiphersuites)
    ensures AllPass(Portal(s)[..9], SslConfCommand, Some("Ciphersuites"))
  {
    var part := Portal(s)[..9];
    forall i | 0 <= i < 9 ensures Passes(part[i], SslConfCommand, Some("Ciphersuites")) {
      if i == 8 {
        assert part[8] == Directive(8, SslConfCommand, "Groups" + " " + s.portalGroups);
      } else {
        assert i in {0, 1, 2, 3, 4, 5, 6, 7};
      }
    }
  }

  /** The browser-facing server, taken by itself, reads as TLS 1.3 with the portal's own
      groups, never early data and never mutual TLS, whatever the strict listener has. */
  lemma PortalReads(s: Settings)
    requires s.portalEnabled && PolicyText(s.portalGroups) && PolicyText(s.portalCiphersuites)
    requires PolicyText(s.host + ":" + s.portalPort + " ssl")
    ensures RunningPolicy(PrintAll(Portal(s))) ==
            Stripped(Policy("TLSv1.3", s.portalGroups, s.portalCiphersuites, false, false, s.host + ":" + s.portalPort + " ssl"))
  {
    PortalListens(s);
    PortalProtocols(s);
    PortalEarlyData(s);
    PortalKeyExchange(s);
    PortalPasses(s);
    TrimTrimmed("TLSv1.3");
    hide Portal, Passes, Keyword, Match, AllPass, Print, FirstMatch, Trim, PolicyText;
    FirstMatchMisses(Portal(s), SslVerifyClient, None);
  }

  lemma PortalListens(s: Settings)
    requires s.portalEnabled && PolicyText(s.host + ":" + s.portalPort + " ssl")
    ensures FirstMatch(PrintAll(Portal(s)), Words(Listen, None)) == Trim(s.host + ":" + s.portalPort + " ssl")
  {
    hide Portal, Passes, Keyword, Match, AllPass, Print, PrintAll, FirstMatch, Trim, Words;
    PortalListenAt(s);
    DirectiveMatches(8, Listen, s.host + ":" + s.portalPort + " ssl");
    FindAt(Portal(s), 2, Listen, None, Trim(s.host + ":" + s.portalPort + " ssl"));
  }

  lemma PortalProtocols(s: Settings)
    requires s.portalEnabled
    ensures FirstMatch(PrintAll(Portal(s)), Words(SslProtocols, None)) == "TLSv1.3"
  {
    TrimTrimmed("TLSv1.3");
    hide Portal, Passes, Keyword, Match, AllPass, Print, PrintAll, FirstMatch, Trim, Words;
    PortalProtocolsAt(s);
    DirectiveMatches(8, SslProtocols, "TLSv1.3");
    FindAt(Portal(s), 7, SslProtocols, None, "TLSv1.3");
  }

  lemma PortalEarlyData(s: Settings)
    requires s.portalEnabled
    ensures FirstMatch(PrintAll(Portal(s)), Words(SslEarlyData, None)) == "off"
  {
    TrimTrimmed("off");
    hide Portal, Passes, Keyword, Match, AllPass, Print, PrintAll, FirstMatch, Trim, Words;
    PortalEarlyDataAt(s);
    DirectiveMatches(8, SslEarlyData, "off");
    FindAt(Portal(s), 10, SslEarlyData, None, "off");
  }

  lemma PortalKeyExchange(s: Settings)
    requires s.portalEnabled && PolicyText(s.portalGroups) && PolicyText(s.portalCiphersuites)
    ensures var lines := PrintAll(Portal(s));
            && FirstMatch(lines, Words(SslConfCommand, Some("Groups"))) == Trim(s.portalGroups)
            && FirstMatch(lines, Words(SslConfCommand, Some("Ciphersuites"))) == Trim(s.portalCiphersuites)
  {
    assert Word("Groups") && Word("Ciphersuites");
    hide Portal, Passes, Keyword, Match, AllPass, Print, PrintAll, FirstMatch, Trim, Words, Word;
    PortalGroupsAt(s);
    PortalCiphersuitesAt(s);
    ConfCommandMatches(8, "Groups", s.portalGroups);
    FindAt(Portal(s), 8, SslConfCommand, Some("Groups"), Trim(s.portalGroups));
    ConfCommandMatches(8, "Ciphersuites", s.portalCiphersuites);
    FindAt(Portal(s), 9, SslConfCommand, Some("Ciphersuites"), Trim(s.portalCiphersuites));
  }

  // The portal server is written only where it is asked for and enabled.
  lemma PortalOnlyIfEnabled(s: Settings, includePortal: bool)
    ensures ConfigLines(s, includePortal) ==
            Preamble(s) + Listener(s) + MutualTls(s) + Locations(s) + (if includePortal && s.portalEnabled then Portal(s) else []) + [Close(0)]
    ensures s.portalEnabled <==> Portal(s) != []
  {
    hide Heading, Global, LogFormatLines, Shared, Listener, MutualTls, Locations;
  }

  // ----- What the directives outside the policy say

  // A directive with its value, whatever white space separates them.
  predicate Says(l: Line, name: Name, value: string) {
    l.Directive? && l.name == name && Trim(l.args) == Trim(value)
  }

  // The words of these directives, as NGINX knows them.
  lemma DirectiveWords()
    ensures GlobalKeyword(Pid) == "pid"
    ensures GlobalKeyword(ErrorLog) == "error_log"
    ensures GlobalKeyword(AccessLog) == "access_log"
    ensures ServerKeyword(ServerName) == "server_name"
    ensures ServerKeyword(SslCertificate) == "ssl_certificate"
    ensures ServerKeyword(SslCertificateKey) == "ssl_certificate_key"
    ensures ServerKeyword(SslClientCertificate) == "ssl_client_certificate"
    ensures LocationKeyword(ProxyPass) == "proxy_pass"
    ensures LocationKeyword(Return) == "return"
    ensures LocationKeyword(Location) == "location"
  {
  }

  /** The strict listener presents the server certificate with its key, and logs in the
      format the collector reads. */
  lemma ListenerSays(s: Settings)
    ensures |Listener(s)| == 11
    ensures Says(Listener(s)[1], ServerName, s.hostname)
    ensures Says(Listener(s)[2], AccessLog, s.accessLog + " quansec_tls")
    ensures Says(Listener(s)[3], SslCertificate, "    " + s.serverCert)
    ensures Says(Listener(s)[4], SslCertificateKey, s.serverKey)
    ensures Says(Listener(s)[9], SslPreferServerCiphers, "on")
    ensures Says(Listener(s)[10], SslSessionTickets, "off")
  {
    hide Trim;
  }

  /** With mTLS, and only then, clients are verified against the configured authority. */
  lemma MutualTlsSays(s: Settings)
    ensures s.mtls <==> MutualTls(s) != []
    ensures s.mtls ==>
              && |MutualTls(s)| == 4
              && Says(MutualTls(s)[1], SslClientCertificate, s.caCert)
              && Says(MutualTls(s)[2], SslVerifyClient, "on")
              && Says(MutualTls(s)[3], SslVerifyDepth, "2")
  {
    hide Trim;
  }

  /** The portal server presents the same certificate, and logs to its own file. */
  lemma PortalSays(s: Settings)
    requires s.portalEnabled
    ensures |Portal(s)| == 20
    ensures Says(Portal(s)[3], ServerName, s.hostname)
    ensures Says(Portal(s)[4], AccessLog, s.portalAccessLog + " quansec_tls")
    ensures Says(Portal(s)[5], SslCertificate, "    " + s.serverCert)
    ensures Says(Portal(s)[6], SslCertificateKey, s.serverKey)
  {
    hide Trim;
  }

  /** It passes the API to the backend and everything else to the user interface. */
  lemma PortalForwards(s: Settings)
    requires s.portalEnabled
    ensures |Portal(s)| == 20
    ensures Portal(s)[13].Block? && Portal(s)[13].args == "/api/ " && Says(Portal(s)[14], ProxyPass, "http://" + s.upstream)
    ensures Portal(s)[16].Block? && Portal(s)[16].args == "/ " && Says(Portal(s)[17], ProxyPass, "http://" + s.uiUpstream)
  {
    hide Trim;
  }

  /** The strict server passes only the data plane's path to the backend. */
  lemma LocationsSay(s: Settings)
    ensures |Locations(s)| == 11
    ensures Locations(s)[0].Block? && Locations(s)[0].args == "/dataplane/ "
    ensures Says(Locations(s)[1], ProxyPass, "http://" + s.upstream + "/api/tls/dataplane/")
    ensures Locations(s)[7].Block? && Locations(s)[7].args == "/ " && Says(Locations(s)[8], Return, "404")
    ensures forall i :: 0 <= i < 11 && Locations(s)[i].Directive? && Locations(s)[i].name.ProxyPass? ==> i == 1
  {
    hide Trim;
  }

  lemma GlobalSays(s: Settings)
    ensures |Global(s)| == 13
    ensures Says(Global(s)[2], Pid, s.pidFile)
    ensures Says(Global(s)[3], ErrorLog, s.errorLog + " info")
    ensures Says(Global(s)[11], AccessLog, "off")
  {
    hide Trim;
  }
}
