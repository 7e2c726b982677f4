/** The configuration record `AppiumServiceBuilder` accumulates and the setters
    that change it: `usingPort`, `withIPAddress`, `withLogFile`, both
    `withArgument` overloads with their flag interception and base-path
    sanitising, both `withCapabilities` overloads, and the three-tier lookup
    of the main server script. */
module ServiceBuilder {
  import opened Wrappers
  import opened JavaStrings
  import opened Capabilities

  /** The exceptions the builder's operations can end in. */
  datatype Error =
    | NullValue              // a required value was null
    | BlankBasePath          // a base path that is blank after trimming
    | MalformedPort          // `Integer.parseInt` rejected the port text
    | NegativePort           // `usingPort` rejected a negative port
    | MissingFile(path: string)  // a configured path does not exist
    | DiscoveryFailed        // the script could not be found through npm

  const BroadcastIp4Address: string := "0.0.0.0"
  const DefaultAppiumPort: nat := 4723

  /** Flag spellings `withArgument` redirects to dedicated fields. */
  const PortFlag: string := "--port"
  const PortAlias: string := "-p"
  const AddressFlag: string := "--address"
  const AddressAlias: string := "-a"
  const LogFlag: string := "--log"
  const LogAlias: string := "-g"
  const BasePathFlag: string := "--base-path"

  const InterceptedFlags: set<string> :=
    {PortFlag, PortAlias, AddressFlag, AddressAlias, LogFlag, LogAlias}

  /** The flag spellings are pairwise different strings. */
  lemma InterceptedFlagsDistinct()
    ensures BasePathFlag !in InterceptedFlags
    ensures PortFlag != AddressFlag && PortFlag != AddressAlias && PortFlag != LogFlag && PortFlag != LogAlias
    ensures PortAlias != AddressFlag && PortAlias != AddressAlias && PortAlias != LogFlag && PortAlias != LogAlias
    ensures AddressFlag != LogFlag && AddressFlag != LogAlias && AddressAlias != LogFlag && AddressAlias != LogAlias
  {
  }

  /** The builder's state: the port and log file kept by the driver-service
      base class, and the fields this class declares. `serverArguments` maps
      a flag to its value, the empty string marking a flag without value and
      `None` a null value. */
  datatype Builder = Builder(
    port: nat,
    ipAddress: Option<string>,
    logFile: Option<string>,
    appiumJS: Option<string>,
    serverArguments: map<string, Option<string>>,
    capabilities: Option<Caps>,
    autoQuoteCapabilitiesOnWindows: bool)

  /** A freshly constructed builder: the default port, the IPv4 broadcast
      address, and nothing else configured. */
  function NewBuilder(): (r: Builder)
    ensures r.port == DefaultAppiumPort && r.ipAddress == Some(BroadcastIp4Address)
    ensures r.logFile.None? && r.appiumJS.None? && r.capabilities.None?
    ensures r.serverArguments == map[] && !r.autoQuoteCapabilitiesOnWindows
  {
    Builder(DefaultAppiumPort, Some(BroadcastIp4Address), None, None, map[], None, false)
  }

  /** `usingPort`: the base class refuses a negative port. */
  function UsingPort(b: Builder, port: int): (r: Result<Builder, Error>)
    ensures r.Ok? <==> port >= 0
    ensures r.Err? ==> r.error == NegativePort
    ensures r.Ok? ==> r.value.port == port && r.value.(port := b.port) == b
  {
    if port < 0 then Err(NegativePort) else Ok(b.(port := port))
  }

  /** `withIPAddress` stores the address as given, null and empty included. */
  function WithIPAddress(b: Builder, address: Option<string>): (r: Builder)
    ensures r.ipAddress == address
    ensures r.(ipAddress := b.ipAddress) == b
  {
    b.(ipAddress := address)
  }

  /** `withLogFile`: the log file is set to the given path, null clearing
      it, and nothing else changes. */
  function WithLogFile(b: Builder, path: Option<string>): (r: Builder)
    ensures r.logFile == path
    ensures r.(logFile := b.logFile) == b
  {
    b.(logFile := path)
  }

  /** `withAppiumJS`: the main script is set to the given path, null
      clearing it, and nothing else changes. */
  function WithAppiumJS(b: Builder, path: Option<string>): (r: Builder)
    ensures r.appiumJS == path
    ensures r.(appiumJS := b.appiumJS) == b
  {
    b.(appiumJS := path)
  }

  /** `sanitizeBasePath`: null is refused, a value that is blank after
      trimming is refused, and otherwise the trimmed value is returned with a
      `/` appended unless it already ends in one. */
  function SanitizeBasePath(value: Option<string>): (r: Result<string, Error>)
    ensures value.None? ==> r == Err(NullValue)
    ensures value.Some? ==> (r.Err? <==> Trim(value.value) == [])
    ensures value.Some? && r.Err? ==> r.error == BlankBasePath
    ensures r.Ok? ==> EndsWith(r.value, "/")
    ensures r.Ok? ==> var t := Trim(value.value);
                      if EndsWith(t, "/") then r.value == t else r.value == t + "/"
  {
    if value.None? then Err(NullValue)
    else
      var t := Trim(value.value);
      if t == [] then Err(BlankBasePath)
      else if EndsWith(t, "/") then Ok(t)
      else Ok(t + "/")
  }

  /** A sanitised base path is a fixed point of sanitising. */
  lemma SanitizeBasePathIdempotent(value: string)
    requires SanitizeBasePath(Some(value)).Ok?
    ensures var p := SanitizeBasePath(Some(value)).value;
            SanitizeBasePath(Some(p)) == Ok(p)
  {
    var t := Trim(value);
    TrimSpec(value);
    var p := SanitizeBasePath(Some(value)).value;
    assert p[0] == t[0];
    assert p[|p| - 1] == '/';
    TrimFixpoint(p);
  }

  /** Sanitising adds a missing slash. */
  lemma SanitizeBasePathAddsSlash()
    ensures SanitizeBasePath(Some("foo")) == Ok("foo/")
  {
    TrimFixpoint("foo");
    assert !EndsWith("foo", "/");
    assert "foo" + "/" == "foo/";
  }

  /** Sanitising keeps an existing slash. */
  lemma SanitizeBasePathKeepsSlash()
    ensures SanitizeBasePath(Some("foo/")) == Ok("foo/")
  {
    TrimFixpoint("foo/");
  }

  /** Sanitising keeps a doubled trailing slash as it is. */
  lemma SanitizeBasePathKeepsDoubleSlash()
    ensures SanitizeBasePath(Some("foo//")) == Ok("foo//")
  {
    TrimFixpoint("foo//");
  }

  /** Sanitising refuses a blank value. */
  lemma SanitizeBasePathBlankExample()
    ensures SanitizeBasePath(Some("  ")) == Err(BlankBasePath)
  {
  }

  /** Sanitising trims surrounding blanks before adding the slash. */
  lemma SanitizeBasePathTrimExample()
    ensures SanitizeBasePath(Some(" /wd/hub ")) == Ok("/wd/hub/")
  {
    TrimExample();
    SanitizeAppendsSlash(" /wd/hub ", "/wd/hub");
  }

  lemma SanitizeAppendsSlash(value: string, t: string)
    requires Trim(value) == t && t != [] && !EndsWith(t, "/")
    ensures SanitizeBasePath(Some(value)) == Ok(t + "/")
  {
  }

  lemma TrimExample()
    ensures Trim(" /wd/hub ") == "/wd/hub"
    ensures !EndsWith("/wd/hub", "/") && "/wd/hub" + "/" == "/wd/hub/"
  {
    assert TrimLeading(" /wd/hub ") == "/wd/hub " by {
      assert " /wd/hub "[1..] == "/wd/hub ";
    }
    assert TrimTrailing("/wd/hub ") == "/wd/hub" by {
      assert "/wd/hub "[..7] == "/wd/hub";
    }
  }

  /** `withArgument(argument)`: a flag without value is stored with the empty
      string, whatever its spelling. */
  function WithFlag(b: Builder, flag: string): (r: Builder)
    ensures r.serverArguments.Keys == b.serverArguments.Keys + {flag}
    ensures r.serverArguments[flag] == Some("")
    ensures forall k :: k in b.serverArguments && k != flag ==> r.serverArguments[k] == b.serverArguments[k]
    ensures r.(serverArguments := b.serverArguments) == b
  {
    b.(serverArguments := b.serverArguments[flag := Some("")])
  }

  /** `withArgument(argument, value)`. Port, address and log-file flags (long
      and short spellings) go to their dedicated fields and leave the argument
      map alone; `--base-path` stores its sanitised value; any other flag
      stores the value as given under exactly that key. */
  function WithArgument(b: Builder, flag: string, value: Option<string>): (r: Result<Builder, Error>)
    ensures flag in {PortFlag, PortAlias} ==>
              && (r.Ok? <==> ParseInt(value).Some? && ParseInt(value).value >= 0)
              && (r.Ok? ==> r.value.port == ParseInt(value).value && r.value.(port := b.port) == b)
    ensures flag in {AddressFlag, AddressAlias} ==>
              r.Ok? && r.value.ipAddress == value && r.value.(ipAddress := b.ipAddress) == b
    ensures flag in {LogFlag, LogAlias} ==>
              && (r.Ok? <==> value.Some?)
              && (r.Ok? ==> r.value.logFile == value && r.value.(logFile := b.logFile) == b)
    ensures flag == BasePathFlag ==>
              && (r.Ok? <==> SanitizeBasePath(value).Ok?)
              && (r.Ok? ==> r.value == b.(serverArguments := b.serverArguments[flag := Some(SanitizeBasePath(value).value)]))
    ensures flag !in InterceptedFlags && flag != BasePathFlag ==>
              r == Ok(b.(serverArguments := b.serverArguments[flag := value]))
    ensures flag in InterceptedFlags && r.Ok? ==> r.value.serverArguments == b.serverArguments
    ensures flag in {PortFlag, PortAlias} && r.Err? ==>
              r.error == (if ParseInt(value).None? then MalformedPort else NegativePort)
    ensures flag in {LogFlag, LogAlias} && r.Err? ==> r.error == NullValue
    ensures flag == BasePathFlag && r.Err? ==> r == Err(SanitizeBasePath(value).error)
  {
    InterceptedFlagsDistinct();
    if flag == PortFlag || flag == PortAlias then
      match ParseInt(value)
      case None => Err(MalformedPort)
      case Some(n) => UsingPort(b, n)
    else if flag == AddressFlag || flag == AddressAlias then
      Ok(WithIPAddress(b, value))
    else if flag == LogFlag || flag == LogAlias then
      if value.None? then Err(NullValue) else Ok(WithLogFile(b, value))
    else if flag == BasePathFlag then
      match SanitizeBasePath(value)
      case Err(e) => Err(e)
      case Ok(p) => Ok(b.(serverArguments := b.serverArguments[flag := Some(p)]))
    else
      Ok(b.(serverArguments := b.serverArguments[flag := value]))
  }

  /** Passing the port as a flag is the same as setting it directly: the
      builders are equal, so everything built from them is too. */
  lemma PortFlagIsUsingPort(b: Builder, n: nat)
    requires n <= MaxInt
    ensures WithArgument(b, PortAlias, Some(NatToString(n))) == UsingPort(b, n)
    ensures WithArgument(b, PortFlag, Some(NatToString(n))) == UsingPort(b, n)
  {
    ParseIntOfNatToString(n);
  }

  /** The ways a port flag fails: a null or non-numeric value, and a value
      beyond the 32-bit range, are malformed; a negative number is parsed
      and then refused by `usingPort`. */
  lemma PortFlagErrors(b: Builder)
    ensures WithArgument(b, PortFlag, None) == Err(MalformedPort)
    ensures WithArgument(b, PortFlag, Some("")) == Err(MalformedPort)
    ensures WithArgument(b, PortFlag, Some("-")) == Err(MalformedPort)
    ensures WithArgument(b, PortAlias, Some("47a3")) == Err(MalformedPort)
    ensures WithArgument(b, PortFlag, Some("2147483648")) == Err(MalformedPort)
    ensures WithArgument(b, PortFlag, Some("-1")) == Err(NegativePort)
  {
    ParseIntExamples();
  }

  /** No intercepted flag sits in the argument map: the dedicated fields are
      the only record of port, address and log file. */
  predicate NoInterceptedArguments(b: Builder) {
    forall k :: k in b.serverArguments ==> k !in InterceptedFlags
  }

  /** The two-argument `withArgument` keeps intercepted flags out of the map,
      and so do the dedicated setters, which leave the map alone. */
  lemma WithArgumentKeepsInterception(b: Builder, flag: string, value: Option<string>,
                                      port: int, path: Option<string>, caps: Option<Caps>,
                                      merge: (Caps, Option<Caps>) -> Caps)
    requires NoInterceptedArguments(b)
    ensures NoInterceptedArguments(NewBuilder())
    ensures WithArgument(b, flag, value).Ok? ==> NoInterceptedArguments(WithArgument(b, flag, value).value)
    ensures UsingPort(b, port).Ok? ==> NoInterceptedArguments(UsingPort(b, port).value)
    ensures NoInterceptedArguments(WithIPAddress(b, value))
    ensures NoInterceptedArguments(WithLogFile(b, path)) && NoInterceptedArguments(WithAppiumJS(b, path))
    ensures WithCapabilities(b, caps, merge).Ok? ==> NoInterceptedArguments(WithCapabilities(b, caps, merge).value)
  {
  }

  /** The value-less `withArgument` does not intercept: a port flag given
      without value lands in the argument map. */
  lemma WithFlagDoesNotIntercept(b: Builder)
    ensures !NoInterceptedArguments(WithFlag(b, PortFlag))
  {
    assert PortFlag in WithFlag(b, PortFlag).serverArguments;
  }

  /** `withCapabilities(capabilities)`: the new set, possibly null, is merged
      into the stored one, or into itself when none is stored; with neither
      present the call dereferences null. `merge` stands for Selenium's
      `Capabilities.merge`, whose argument may be null. */
  function WithCapabilities(b: Builder, caps: Option<Caps>,
                            merge: (Caps, Option<Caps>) -> Caps): (r: Result<Builder, Error>)
    ensures r.Err? <==> b.capabilities.None? && caps.None?
    ensures r.Err? ==> r.error == NullValue
    ensures r.Ok? && b.capabilities.None? ==> r.value.capabilities == Some(merge(caps.value, caps))
    ensures r.Ok? && b.capabilities.Some? ==> r.value.capabilities == Some(merge(b.capabilities.value, caps))
    ensures r.Ok? ==> r.value.(capabilities := b.capabilities) == b
  {
    if b.capabilities.Some? then Ok(b.(capabilities := Some(merge(b.capabilities.value, caps))))
    else if caps.Some? then Ok(b.(capabilities := Some(merge(caps.value, caps))))
    else Err(NullValue)
  }

  /** `withCapabilities(capabilities, autoQuoteCapabilitiesOnWindows)`: the
      flag is overwritten, not accumulated, then the capabilities are merged
      and fail exactly as with the one-argument overload. */
  function WithCapabilitiesQuoted(b: Builder, caps: Option<Caps>, autoQuote: bool,
                                  merge: (Caps, Option<Caps>) -> Caps): (r: Result<Builder, Error>)
    ensures r.Err? <==> WithCapabilities(b, caps, merge).Err?
    ensures r.Err? ==> r.error == NullValue
    ensures r.Ok? ==> r.value.autoQuoteCapabilitiesOnWindows == autoQuote
    ensures r.Ok? ==> r.value.capabilities == WithCapabilities(b, caps, merge).value.capabilities
    ensures r.Ok? ==> r.value.(autoQuoteCapabilitiesOnWindows := b.autoQuoteCapabilitiesOnWindows,
                               capabilities := b.capabilities) == b
  {
    WithCapabilities(b.(autoQuoteCapabilitiesOnWindows := autoQuote), caps, merge)
  }

  // ---------------------------------------------------------------------------
  // Locating the main script
  // ---------------------------------------------------------------------------

  /** `loadPathFromEnv`: the system property if it is set and non-empty,
      otherwise the environment variable if it is, otherwise nothing. */
  function LoadPathFromEnv(property: Option<string>, env: Option<string>): (r: Option<string>)
    ensures r.Some? ==> r.value != []
    ensures r.Some? ==> r == property || r == env
    ensures r.None? <==> IsNullOrEmpty(property) && IsNullOrEmpty(env)
    ensures !IsNullOrEmpty(property) ==> r == property
  {
    if !IsNullOrEmpty(property) then property
    else if !IsNullOrEmpty(env) then env
    else None
  }

  /** `validatePath` for a path that is known to be non-null. */
  function ValidatePath(path: string, fileExists: string -> bool): (r: Result<string, Error>)
    ensures r.Ok? <==> fileExists(path)
    ensures r.Ok? ==> r.value == path
    ensures r.Err? ==> r.error == MissingFile(path)
  {
    if fileExists(path) then Ok(path) else Err(MissingFile(path))
  }

  /** `loadPathToMainScript`: an explicitly configured script wins, then one
      named by the environment; both must exist. Only when neither is given
      is the discovered script used (discovery itself is outside the model
      and arrives as `discovered`). */
  function ResolveMainScript(explicit: Option<string>, property: Option<string>, env: Option<string>,
                             fileExists: string -> bool, discovered: Result<string, Error>): (r: Result<string, Error>)
    ensures explicit.Some? ==> r == ValidatePath(explicit.value, fileExists)
    ensures explicit.None? && LoadPathFromEnv(property, env).Some? ==>
              r == ValidatePath(LoadPathFromEnv(property, env).value, fileExists)
    ensures explicit.None? && LoadPathFromEnv(property, env).None? ==> r == discovered
  {
    if explicit.Some? then ValidatePath(explicit.value, fileExists)
    else match LoadPathFromEnv(property, env)
      case Some(p) => ValidatePath(p, fileExists)
      case None => discovered
  }

  /** A script found through an explicit or environment path exists; a
      configured script makes the environment and discovery irrelevant. */
  lemma ResolveMainScriptPrecedence(explicit: Option<string>, property: Option<string>, env: Option<string>,
                                    fileExists: string -> bool, discovered: Result<string, Error>,
                                    property': Option<string>, env': Option<string>, discovered': Result<string, Error>)
    ensures var r := ResolveMainScript(explicit, property, env, fileExists, discovered);
            r.Ok? && (explicit.Some? || LoadPathFromEnv(property, env).Some?) ==> fileExists(r.value)
    ensures explicit.Some? ==>
              ResolveMainScript(explicit, property, env, fileExists, discovered)
              == ResolveMainScript(explicit, property', env', fileExists, discovered')
    ensures explicit.None? && !IsNullOrEmpty(property) ==>
              ResolveMainScript(explicit, property, env, fileExists, discovered)
              == ResolveMainScript(explicit, property, env', fileExists, discovered')
  {
  }
}
