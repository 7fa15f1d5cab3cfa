/**
 * Validation of the XML configuration: a server port, client entries keyed by
 * their `type` attribute (each with an IP address, a port and optional
 * credentials), and the process-wide configuration instance.
 *
 * The XML document is replaced by records of optional strings: a child whose
 * text is absent is `None`. Every failure is an InvalidConfigurationException,
 * carrying a message and the name of the offending property ("undefined"
 * when there is none).
 */
module Configurations {
  import opened Wrappers
  import opened JavaLang
  import opened ErrorChecker

  /** `Configuration.MAXIMUM_PORT`. */
  const MaximumPort := 65535

  /** The property of an InvalidConfigurationException that names none. */
  const Undefined := "undefined"

  const IpTag := "ip"
  const PortTag := "port"
  const UsernameTag := "username"
  const PasswordTag := "password"
  const KeyFileTag := "keyfile"

  // ----- Integer.parseInt -----

  predicate IsDigit(c: char)
  {
    '0' <= c <= '9'
  }

  predicate AllDigits(s: string)
  {
    forall i :: 0 <= i < |s| ==> IsDigit(s[i])
  }

  /** The value of a string of decimal digits, most significant first. */
  function DigitsValue(s: string): nat
    requires AllDigits(s)
  {
    if s == [] then 0 else 10 * DigitsValue(s[..|s| - 1]) + (s[|s| - 1] - '0') as nat
  }

  /**
   * `Integer.parseInt`: an optional `+` or `-` followed by at least one
   * decimal digit, denoting a value in Java's `int` range; anything else,
   * including `null` and the empty string, is not a number.
   */
  function ParseInt(s: Option<string>): (r: Option<int32>)
    ensures r.Some? ==> s.Some? && |s.value| > 0
    ensures r.Some? && s.value[0] != '-' ==> r.value >= 0
    ensures r.Some? && s.value[0] == '-' ==> r.value <= 0
  {
    if s.None? || s.value == [] then None
    else
      var t := s.value;
      var digits := if t[0] == '-' || t[0] == '+' then t[1..] else t;
      if digits == [] || !AllDigits(digits) then None
      else
        var v := if t[0] == '-' then -(DigitsValue(digits) as int) else DigitsValue(digits) as int;
        if -0x8000_0000 <= v < 0x8000_0000 then Some(v as int32) else None
  }

  /** The decimal digits of `k`, without leading zeros. */
  function Digits(k: nat): (s: string)
    ensures |s| > 0 && AllDigits(s)
  {
    if k < 10 then [('0' as int + k) as char] else Digits(k / 10) + [('0' as int + k % 10) as char]
  }

  /** `Integer.toString`: a minus sign for negative values, then the digits. */
  function DecimalString(n: int): string
  {
    if n < 0 then "-" + Digits(-n) else Digits(n)
  }

  lemma {:induction false} DigitsValueOf(k: nat)
    ensures DigitsValue(Digits(k)) == k
  {
    if k >= 10 {
      DigitsValueOf(k / 10);
      var s := Digits(k);
      assert s[..|s| - 1] == Digits(k / 10);
    }
  }

  /** Every `int` written in decimal parses back to itself. */
  lemma ParseIntDecimal(n: int32)
    ensures ParseInt(Some(DecimalString(n as int))) == Some(n)
  {
    DigitsValueOf(if n < 0 then -(n as int) else n as int);
    if n < 0 {
      assert ("-" + Digits(-(n as int)))[1..] == Digits(-(n as int));
    } else {
      assert IsDigit(Digits(n as int)[0]);
    }
  }

  // ----- Configuration's checks -----

  /** `throwInvalidConfigIfNull`: fails iff the object is absent, naming it in the message. */
  function ThrowInvalidConfigIfNull<T>(value: Option<T>, name: string): (r: Outcome<Error>)
    ensures r.Fail? <==> value.None?
    ensures r.Fail? ==> r.error == InvalidConfiguration(name + " was null", Undefined)
  {
    if value.None? then Fail(InvalidConfiguration(name + " was null", Undefined)) else Pass
  }

  /** `throwInvalidConfigIfNonInteger`: fails iff the string is not a number, with `name` as the property. */
  function ThrowInvalidConfigIfNonInteger(integer: Option<string>, name: string): (r: Outcome<Error>)
    ensures r.Fail? <==> ParseInt(integer).None?
    ensures r.Fail? ==> r.error == InvalidConfiguration(name + " was not a number", name)
  {
    if ParseInt(integer).None? then Fail(InvalidConfiguration(name + " was not a number", name)) else Pass
  }

  /** `setPort(int)` of both clients and servers: a port outside [0, 65535] is refused. */
  function CheckPort(port: int): (r: Outcome<Error>)
    ensures r.Pass? <==> 0 <= port <= MaximumPort
    ensures r.Fail? ==> r.error == InvalidConfiguration("Port is out of range", PortTag)
  {
    if port < 0 || port > MaximumPort then Fail(InvalidConfiguration("Port is out of range", PortTag)) else Pass
  }

  /** `setPort(String)`: first a number, then in range; the port set is the number parsed. */
  function ParsePort(portString: Option<string>): (r: Result<int, Error>)
    ensures r.Ok? <==> ParseInt(portString).Some? && 0 <= ParseInt(portString).value as int <= MaximumPort
    ensures r.Ok? ==> r.value == ParseInt(portString).value as int
    ensures r.Err? && ParseInt(portString).None? ==> r.error == InvalidConfiguration("port was not a number", PortTag)
    ensures r.Err? && ParseInt(portString).Some? ==> r.error == InvalidConfiguration("Port is out of range", PortTag)
  {
    var number := ThrowInvalidConfigIfNonInteger(portString, PortTag);
    if number.Fail? then Err(number.error)
    else
      var port := ParseInt(portString).value as int;
      var range := CheckPort(port);
      if range.Fail? then Err(range.error) else Ok(port)
  }

  /**
   * Every `int` written in decimal is a port exactly when it lies in
   * [0, 65535]: then it is the port set, otherwise the range check refuses it.
   */
  lemma PortOfDecimal(n: int32)
    ensures ParsePort(Some(DecimalString(n as int)))
            == (if 0 <= n as int <= MaximumPort then Ok(n as int)
                else Err(InvalidConfiguration("Port is out of range", PortTag)))
  {
    ParseIntDecimal(n);
  }

  // ----- The element records -----

  /** The texts of an `auth` element's children. */
  datatype AuthElement = AuthElement(username: Option<string>, password: Option<string>, keyfile: Option<string>)

  /** A `client` element: its `type` attribute, the texts of its children, its `auth` child. */
  datatype ClientElement = ClientElement(typ: Option<string>, ip: Option<string>, port: Option<string>, auth: Option<AuthElement>)

  /** A `server` element: the text of its `port` child. */
  datatype ServerElement = ServerElement(port: Option<string>)

  /** The document's root: its `client` children in document order and its first `server` child. */
  datatype RootElement = RootElement(clients: seq<ClientElement>, server: Option<ServerElement>)

  // ----- AuthenticationConfiguration -----

  /** The three credentials, each possibly absent; absence is reported only when one is read. */
  datatype AuthenticationConfiguration = AuthenticationConfiguration(username: Option<string>, password: Option<string>, keyFileLocation: Option<string>)
  {
    function GetUsername(): (r: Result<string, Error>)
      ensures r.Err? <==> username.None?
      ensures r.Err? ==> r.error == InvalidConfiguration("username was null", Undefined)
      ensures r.Ok? ==> Some(r.value) == username
    {
      var check := ThrowInvalidConfigIfNull(username, UsernameTag);
      if check.Fail? then Err(check.error) else Ok(username.value)
    }

    function GetPassword(): (r: Result<string, Error>)
      ensures r.Err? <==> password.None?
      ensures r.Err? ==> r.error == InvalidConfiguration("password was null", Undefined)
      ensures r.Ok? ==> Some(r.value) == password
    {
      var check := ThrowInvalidConfigIfNull(password, PasswordTag);
      if check.Fail? then Err(check.error) else Ok(password.value)
    }

    function GetKeyFileLocation(): (r: Result<string, Error>)
      ensures r.Err? <==> keyFileLocation.None?
      ensures r.Err? ==> r.error == InvalidConfiguration("keyfile was null", Undefined)
      ensures r.Ok? ==> Some(r.value) == keyFileLocation
    {
      var check := ThrowInvalidConfigIfNull(keyFileLocation, KeyFileTag);
      if check.Fail? then Err(check.error) else Ok(keyFileLocation.value)
    }
  }

  /** `AuthenticationConfiguration.parseXMLRootElement`: never fails; each credential is read back as given. */
  function ParseAuthentication(e: AuthElement): (c: AuthenticationConfiguration)
    ensures c.GetUsername().Ok? <==> e.username.Some?
    ensures c.GetPassword().Ok? <==> e.password.Some?
    ensures c.GetKeyFileLocation().Ok? <==> e.keyfile.Some?
    ensures e.username.Some? ==> c.GetUsername() == Ok(e.username.value)
    ensures e.password.Some? ==> c.GetPassword() == Ok(e.password.value)
    ensures e.keyfile.Some? ==> c.GetKeyFileLocation() == Ok(e.keyfile.value)
  {
    AuthenticationConfiguration(e.username, e.password, e.keyfile)
  }

  // ----- ServerConfiguration and ClientConfiguration -----

  datatype ServerConfiguration = ServerConfiguration(port: int)

  /** `ServerConfiguration.parseXMLRootElement`: the port, validated. */
  function ParseServer(e: ServerElement): (r: Result<ServerConfiguration, Error>)
    ensures r.Ok? <==> ParsePort(e.port).Ok?
    ensures r.Ok? ==> r.value.port == ParsePort(e.port).value && 0 <= r.value.port <= MaximumPort
    ensures r.Err? ==> r.error.InvalidConfiguration? && r.error.property == PortTag
  {
    var port := ParsePort(e.port);
    if port.Err? then Err(port.error) else Ok(ServerConfiguration(port.value))
  }

  datatype ClientConfiguration = ClientConfiguration(ip: string, port: int, authenticationConfig: Option<AuthenticationConfiguration>)

  /** `setIPAddress`: an absent or empty address is refused. */
  function CheckIpAddress(ipAddress: Option<string>): (r: Outcome<Error>)
    ensures r.Pass? <==> ipAddress.Some? && |ipAddress.value| > 0
    ensures r.Fail? ==> r.error == InvalidConfiguration("Ip was empty or missing", IpTag)
  {
    if ipAddress.None? || |ipAddress.value| == 0 then Fail(InvalidConfiguration("Ip was empty or missing", IpTag)) else Pass
  }

  /**
   * `ClientConfiguration.parseXMLRootElement`: the address is checked
   * before the port, so an element bad in both is reported against "ip";
   * credentials are present iff the element has an `auth` child.
   */
  function ParseClient(e: ClientElement): (r: Result<ClientConfiguration, Error>)
    ensures r.Ok? <==> CheckIpAddress(e.ip).Pass? && ParsePort(e.port).Ok?
    ensures r.Err? ==> r.error.InvalidConfiguration?
    ensures CheckIpAddress(e.ip).Fail? ==> r.Err? && r.error.property == IpTag
    ensures CheckIpAddress(e.ip).Pass? && r.Err? ==> r.error.property == PortTag
    ensures r.Ok? ==> Some(r.value.ip) == e.ip && r.value.port == ParsePort(e.port).value
    ensures r.Ok? ==> 0 <= r.value.port <= MaximumPort
    ensures r.Ok? ==> (r.value.authenticationConfig.Some? <==> e.auth.Some?)
    ensures r.Ok? && e.auth.Some? ==> r.value.authenticationConfig == Some(ParseAuthentication(e.auth.value))
  {
    var ip := CheckIpAddress(e.ip);
    if ip.Fail? then Err(ip.error)
    else
      var port := ParsePort(e.port);
      if port.Err? then Err(port.error)
      else
        var auth := if e.auth.Some? then Some(ParseAuthentication(e.auth.value)) else None;
        Ok(ClientConfiguration(e.ip.value, port.value, auth))
  }

  // ----- Configuration -----

  /** The number of leading client elements that parse; the next one, if any, does not. */
  function ParsedClients(clients: seq<ClientElement>): (n: nat)
    ensures n <= |clients|
    ensures forall i :: 0 <= i < n ==> ParseClient(clients[i]).Ok?
    ensures n < |clients| ==> ParseClient(clients[n]).Err?
  {
    if clients == [] || ParseClient(clients[0]).Err? then 0
    else
      var n := 1 + ParsedClients(clients[1..]);
      assert forall i :: 1 <= i <= n && i < |clients| ==> clients[1..][i - 1] == clients[i];
      n
  }

  /** The map that putting each client under its type, in order, produces. */
  ghost function ClientMap(clients: seq<ClientElement>): map<Option<string>, ClientConfiguration>
    requires forall i :: 0 <= i < |clients| ==> ParseClient(clients[i]).Ok?
  {
    if clients == [] then map[]
    else
      var n := |clients| - 1;
      ClientMap(clients[..n])[clients[n].typ := ParseClient(clients[n]).value]
  }

  /** The types of `clients`. */
  function Types(clients: seq<ClientElement>): set<Option<string>>
  {
    set i | 0 <= i < |clients| :: clients[i].typ
  }

  lemma TypesSnoc(clients: seq<ClientElement>)
    requires clients != []
    ensures Types(clients) == Types(clients[..|clients| - 1]) + {clients[|clients| - 1].typ}
  {
    var n := |clients| - 1;
    forall t | t in Types(clients) ensures t in Types(clients[..n]) + {clients[n].typ} {
      var i :| 0 <= i < |clients| && clients[i].typ == t;
      if i < n {
        assert clients[..n][i].typ == t;
      }
    }
  }

  /** Clients are keyed by type: every type present is a key, and nothing else is; no clients, no keys. */
  lemma {:induction false} ClientMapKeys(clients: seq<ClientElement>)
    requires forall i :: 0 <= i < |clients| ==> ParseClient(clients[i]).Ok?
    ensures ClientMap(clients).Keys == Types(clients)
  {
    if clients != [] {
      ClientMapKeys(clients[..|clients| - 1]);
      TypesSnoc(clients);
    }
  }

  /** Under each type sits the last client of that type: a later client replaces an earlier one. */
  lemma {:induction false} ClientMapLast(clients: seq<ClientElement>, i: nat)
    requires forall j :: 0 <= j < |clients| ==> ParseClient(clients[j]).Ok?
    requires i < |clients| && forall j :: i < j < |clients| ==> clients[j].typ != clients[i].typ
    ensures clients[i].typ in ClientMap(clients)
    ensures ClientMap(clients)[clients[i].typ] == ParseClient(clients[i]).value
  {
    var n := |clients| - 1;
    if i < n {
      var front := clients[..n];
      assert front[i] == clients[i];
      forall j | i < j < |front| ensures front[j].typ != front[i].typ {
        assert front[j] == clients[j];
      }
      ClientMapLast(front, i);
    }
  }

  /** A parsed configuration: the clients by type and the server, if any. */
  class Configuration {
    var clientConfig: map<Option<string>, ClientConfiguration>
    var serverConfig: Option<ServerConfiguration>

    constructor ()
      ensures clientConfig == map[] && serverConfig == None
    {
      clientConfig, serverConfig := map[], None;
    }

    /** `getClientConfig(type)`: the client stored under `typ`, nothing for an unknown type. */
    function GetClientConfig(typ: Option<string>): (r: Option<ClientConfiguration>)
      reads this
      ensures r.Some? <==> typ in clientConfig
      ensures r.Some? ==> r.value == clientConfig[typ]
    {
      if typ in clientConfig then Some(clientConfig[typ]) else None
    }
  }

  /** The static `Configuration.instance`, held by one object. */
  class ConfigurationRegistry {
    var instance: Configuration?

    constructor ()
      ensures instance == null
    {
      instance := null;
    }

    /** `Configuration.get()`. */
    function Get(): (c: Configuration?)
      reads this
      ensures c == instance
    {
      instance
    }

    /**
     * `Configuration.parseXMLRootElement`. A missing root fails and changes
     * nothing. Otherwise a new configuration becomes the instance before any
     * child is checked, so after a failure the instance holds what was parsed
     * up to it: the clients before the first bad one, and no server. The
     * server element is parsed after every client.
     */
    method ParseXMLRootElement(root: Option<RootElement>) returns (r: Result<Configuration, Error>)
      modifies this
      ensures root.None? ==> r == Err(InvalidConfiguration("No rootNode found", Undefined)) && instance == old(instance)
      ensures root.Some? ==> instance != null && fresh(instance)
      ensures r.Ok? ==> r.value == instance
      ensures root.Some? ==>
        var clients := root.value.clients;
        var n := ParsedClients(clients);
        && instance.clientConfig == ClientMap(clients[..n])
        && (n < |clients| ==> r == Err(ParseClient(clients[n]).error) && instance.serverConfig == None)
        && (n == |clients| && root.value.server.None? ==> r.Ok? && instance.serverConfig == None)
        && (n == |clients| && root.value.server.Some? ==>
              var server := ParseServer(root.value.server.value);
              && (server.Err? ==> r == Err(server.error) && instance.serverConfig == None)
              && (server.Ok? ==> r.Ok? && instance.serverConfig == Some(server.value)))
    {
      if root.None? {
        return Err(InvalidConfiguration("No rootNode found", Undefined));
      }
      var result := new Configuration();
      instance := result;
      var clients := root.value.clients;
      ghost var n := ParsedClients(clients);
      for i := 0 to |clients|
        invariant i <= n && instance == result && fresh(result)
        invariant result.clientConfig == ClientMap(clients[..i]) && result.serverConfig == None
      {
        var parsed := ParseClient(clients[i]);
        if parsed.Err? {
          assert i == n;
          return Err(parsed.error);
        }
        assert clients[..i + 1][..i] == clients[..i];
        result.clientConfig := result.clientConfig[clients[i].typ := parsed.value];
      }
      assert clients[..|clients|] == clients;
      if root.value.server.Some? {
        var server := ParseServer(root.value.server.value);
        if server.Err? {
          return Err(server.error);
        }
        result.serverConfig := Some(server.value);
      }
      return Ok(result);
    }
  }
}
