/** The Apache-style configuration parser of src/config.rs, with the helpers of src/parse.rs. */
module Config {
  import opened Text

  datatype Directive = CacheSize | DocumentRoot | ListenPort | ServerName | ThreadPoolSize

  type Directives = map<Directive, string>

  datatype VirtualHost = VirtualHost(directives: Directives)

  datatype ServerConfig = ServerConfig(directives: Directives, virtualHosts: seq<VirtualHost>)

  const CACHE_SIZE := "CacheSize"
  const DOCUMENT_ROOT := "DocumentRoot"
  const LISTEN := "Listen"
  const SERVER_NAME := "ServerName"
  const THREAD_POOL_SIZE := "ThreadPoolSize"
  const VIRTUAL_HOST := "VirtualHost"

  const EMPTY := ServerConfig(map[], [])

  function DirectiveOf(name: string): Option<Directive> {
    if name == CACHE_SIZE then Some(CacheSize)
    else if name == DOCUMENT_ROOT then Some(DocumentRoot)
    else if name == LISTEN then Some(ListenPort)
    else if name == SERVER_NAME then Some(ServerName)
    else if name == THREAD_POOL_SIZE then Some(ThreadPoolSize)
    else None
  }

  // ---------- lines ----------

  function DiscardString(toFind: string, s: string): Option<string> {
    if toFind <= s then Some(s[|toFind|..]) else None
  }

  function DiscardChar(toFind: char, s: string): Option<string> {
    if s != "" && s[0] == toFind then Some(s[1..]) else None
  }

  /** What a line sets, if it is a directive. */
  function Setting(line: string): Option<(Directive, string)> {
    match SplitOnce(Trim(line), ' ')
    case None => None
    case Some((field, value)) =>
      match DirectiveOf(field)
      case None => None
      case Some(directive) => Some((directive, value))
  }

  function ParseDirective(s: string): (r: Option<((Directive, string), string)>)
    ensures r.Some? ==> |r.value.1| < |s|
  {
    match SplitOnce(s, '\n')
    case None => None
    case Some((line, rest)) =>
      match Setting(line)
      case None => None
      case Some(setting) => Some((setting, rest))
  }

  predicate EndsBlockTag(s: string) {
    s != "" && s[|s| - 1] == '>'
  }

  predicate IsOpenLine(blockName: string, line: string) {
    match DiscardChar('<', line)
    case None => false
    case Some(s) =>
      match DiscardString(blockName, s)
      case None => false
      case Some(s) => EndsBlockTag(s)
  }

  predicate IsCloseLine(blockName: string, line: string) {
    match DiscardChar('<', line)
    case None => false
    case Some(s) =>
      match DiscardChar('/', s)
      case None => false
      case Some(s) =>
        match DiscardString(blockName, s)
        case None => false
        case Some(s) => EndsBlockTag(s)
  }

  function ParseOpenBlock(blockName: string, s: string): (r: Option<string>)
    ensures r.Some? ==> |r.value| < |s|
  {
    match SplitOnce(s, '\n')
    case None => None
    case Some((line, rest)) => if IsOpenLine(blockName, line) then Some(rest) else None
  }

  function ParseCloseBlock(blockName: string, s: string): (r: Option<string>)
    ensures r.Some? ==> |r.value| < |s|
  {
    match SplitOnce(s, '\n')
    case None => None
    case Some((line, rest)) => if IsCloseLine(blockName, line) then Some(rest) else None
  }

  // ---------- blocks and files ----------

  /** Directives as long as there are any, collected over `directives`. */
  function ParseDirectives(s: string, directives: Directives): (r: (Directives, string))
    ensures |r.1| <= |s|
    decreases |s|
  {
    match ParseDirective(s)
    case None => (directives, s)
    case Some(((directive, value), rest)) => ParseDirectives(rest, directives[directive := value])
  }

  function ParseVirtualHost(s: string): (r: Option<(VirtualHost, string)>)
    ensures r.Some? ==> |r.value.1| < |s|
  {
    match ParseOpenBlock(VIRTUAL_HOST, s)
    case None => None
    case Some(inside) =>
      var (directives, rest) := ParseDirectives(inside, map[]);
      match ParseCloseBlock(VIRTUAL_HOST, rest)
      case None => None
      case Some(after) => Some((VirtualHost(directives), after))
  }

  /** Parses `s` into additions to `config`. */
  function ParseInto(s: string, config: ServerConfig): Option<ServerConfig>
    decreases |s|
  {
    if s == "" then Some(config)
    else if DiscardChar('\n', s).Some? then ParseInto(DiscardChar('\n', s).value, config)
    else if ParseDirective(s).Some? then
      var ((directive, value), rest) := ParseDirective(s).value;
      ParseInto(rest, config.(directives := config.directives[directive := value]))
    else if ParseVirtualHost(s).Some? then
      var (host, rest) := ParseVirtualHost(s).value;
      ParseInto(rest, config.(virtualHosts := config.virtualHosts + [host]))
    else None
  }

  method ParseServerConfig(text: string) returns (config: Option<ServerConfig>)
    ensures config == ParseInto(text, EMPTY)
  {
    hide DiscardChar, ParseDirective, ParseVirtualHost;
    var s := text;
    var directives: Directives := map[];
    var virtualHosts: seq<VirtualHost> := [];
    while s != ""
      invariant ParseInto(s, ServerConfig(directives, virtualHosts)) == ParseInto(text, EMPTY)
      decreases |s|
    {
      if DiscardChar('\n', s).Some? {
        assert |DiscardChar('\n', s).value| < |s| by { DiscardedIsShorter(s); }
        s := DiscardChar('\n', s).value;
      } else if ParseDirective(s).Some? {
        var ((directive, value), rest) := ParseDirective(s).value;
        directives, s := directives[directive := value], rest;
      } else {
        var host := ReadVirtualHost(s);
        if host.None? {
          return None;
        }
        virtualHosts, s := virtualHosts + [host.value.0], host.value.1;
      }
    }
    return Some(ServerConfig(directives, virtualHosts));
  }

  lemma DiscardedIsShorter(s: string)
    requires DiscardChar('\n', s).Some?
    ensures |DiscardChar('\n', s).value| < |s|
  {
  }

  method ReadVirtualHost(text: string) returns (host: Option<(VirtualHost, string)>)
    ensures host == ParseVirtualHost(text)
  {
    hide ParseDirective, ParseOpenBlock, ParseCloseBlock;
    var inside := ParseOpenBlock(VIRTUAL_HOST, text);
    if inside.None? {
      return None;
    }
    var s := inside.value;
    var directives: Directives := map[];
    while ParseDirective(s).Some?
      invariant ParseDirectives(s, directives) == ParseDirectives(inside.value, map[])
      decreases |s|
    {
      var ((directive, value), rest) := ParseDirective(s).value;
      directives, s := directives[directive := value], rest;
    }
    var after := ParseCloseBlock(VIRTUAL_HOST, s);
    host := if after.Some? then Some((VirtualHost(directives), after.value)) else None;
  }
}
