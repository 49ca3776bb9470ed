/**
 * The client's Vite configuration: in development (`serve`) it reads the
 * server and client ports from the `dev.ports` table of `env.toml` and
 * proxies `/api` to the server; otherwise (`build`) it drops console calls
 * from the bundle.
 */
module ViteConfig {
  import opened Wrappers

  /** A value `smol-toml` produces. */
  datatype Toml =
    | TStr(s: string)
    | TNum(n: real)
    | TBool(b: bool)
    | TDate(text: string)
    | TArray(items: seq<Toml>)
    | TTable(entries: map<string, Toml>)

  /** JavaScript's `typeof` of a TOML value; a missing property is `undefined`. */
  function TypeOf(v: Option<Toml>): (r: string)
    ensures r == "object" <==> v.Some? && (v.value.TDate? || v.value.TArray? || v.value.TTable?)
    ensures r == "undefined" <==> v.None?
  {
    match v
    case None => "undefined"
    case Some(TStr(_)) => "string"
    case Some(TNum(_)) => "number"
    case Some(TBool(_)) => "boolean"
    case Some(TDate(_)) => "object"
    case Some(TArray(_)) => "object"
    case Some(TTable(_)) => "object"
  }

  /** Property access `table.key`. */
  function Get(table: map<string, Toml>, key: string): Option<Toml>
  {
    if key in table then Some(table[key]) else None
  }

  /** `isTomlRecord`: an object that is neither a TOML date nor an array. */
  function IsTomlRecord(prim: Option<Toml>): (r: bool)
    ensures r <==> prim.Some? && prim.value.TTable?
  {
    if TypeOf(prim) != "object" then false
    else if prim.value.TDate? then false
    else if prim.value.TArray? then false
    else true
  }

  datatype Ports = Ports(server: real, client: real)

  /** `getPorts`: the two numbers under `dev.ports`, or `undefined`. */
  function GetPorts(opts: map<string, Toml>): (r: Option<Ports>)
    ensures r.Some? <==>
              && Get(opts, "dev").Some? && Get(opts, "dev").value.TTable?
              && Get(opts["dev"].entries, "ports").Some? && Get(opts["dev"].entries, "ports").value.TTable?
              && Get(opts["dev"].entries["ports"].entries, "server").Some?
              && Get(opts["dev"].entries["ports"].entries, "server").value.TNum?
              && Get(opts["dev"].entries["ports"].entries, "client").Some?
              && Get(opts["dev"].entries["ports"].entries, "client").value.TNum?
    ensures r.Some? ==> && r.value.server == opts["dev"].entries["ports"].entries["server"].n
                        && r.value.client == opts["dev"].entries["ports"].entries["client"].n
  {
    var dev := Get(opts, "dev");
    if !IsTomlRecord(dev) then None
    else
      var ports := Get(dev.value.entries, "ports");
      if !IsTomlRecord(ports) then None
      else
        var server := Get(ports.value.entries, "server");
        var client := Get(ports.value.entries, "client");
        if TypeOf(server) != "number" then None
        else if TypeOf(client) != "number" then None
        else Some(Ports(server.value.n, client.value.n))
  }

  /** A well-formed `env.toml` yields its ports, whatever else it holds. */
  lemma PortsOfWellFormedEnv(opts: map<string, Toml>, server: real, client: real)
    requires "dev" in opts && opts["dev"].TTable?
    requires "ports" in opts["dev"].entries && opts["dev"].entries["ports"].TTable?
    requires Get(opts["dev"].entries["ports"].entries, "server") == Some(TNum(server))
    requires Get(opts["dev"].entries["ports"].entries, "client") == Some(TNum(client))
    ensures GetPorts(opts) == Some(Ports(server, client))
  {
  }

  const ApiPrefix := "/api"

  /** The proxy's `rewrite`: `path.replace(/^\/api/, "")`, one leading `/api` removed. */
  function RewriteApi(path: string): (r: string)
    ensures |path| >= 4 && path[..4] == ApiPrefix ==> r == path[4..]
    ensures !(|path| >= 4 && path[..4] == ApiPrefix) ==> r == path
  {
    if |path| >= 4 && path[..4] == ApiPrefix then path[4..] else path
  }

  /** The prefix is removed once: what follows it is forwarded as it is. */
  lemma RewriteStripsOnePrefix(rest: string)
    ensures RewriteApi(ApiPrefix + rest) == rest
  {
    assert (ApiPrefix + rest)[..4] == ApiPrefix;
    assert (ApiPrefix + rest)[4..] == rest;
  }

  /** The anchor is a plain prefix, not a path segment: `/apiary` loses its `/api` too. */
  lemma RewriteIsNotSegmentAware()
    ensures RewriteApi("/apiary") == "ary"
    ensures RewriteApi("/api/api/users") == "/api/users"
    ensures RewriteApi("/v1/api") == "/v1/api"
  {
    assert "/apiary"[..4] == ApiPrefix;
    assert "/api/api/users"[..4] == ApiPrefix;
    assert "/v1/api"[..4] != ApiPrefix by { assert "/v1/api"[1] == 'v'; }
  }

  /** The proxy entry for `/api`. */
  datatype Proxy = Proxy(prefix: string, targetPort: real, changeOrigin: bool, secure: bool, ws: bool)

  /** The two configurations, as far as they carry data of this project. */
  datatype UserConfig =
    | ServeConfig(proxy: Proxy, port: real, cssCamelCase: bool)
    | BuildConfig(esbuildDrop: seq<string>)

  /** `serve` reads properties of `undefined` when `env.toml` lacks the ports, and throws. */
  datatype ConfigError = PortsMissing

  /** `serve()`, given the parsed `env.toml`. */
  function Serve(opts: map<string, Toml>): (r: Result<UserConfig, ConfigError>)
    ensures r.Ok? <==> GetPorts(opts).Some?
    ensures r.Ok? ==> && r.value.ServeConfig?
                      && r.value.proxy == Proxy(ApiPrefix, GetPorts(opts).value.server, true, false, true)
                      && r.value.port == GetPorts(opts).value.client
                      && r.value.cssCamelCase
  {
    match GetPorts(opts)
    case None => Err(PortsMissing)
    case Some(ports) =>
      Ok(ServeConfig(Proxy(ApiPrefix, ports.server, true, false, true), ports.client, true))
  }

  /** `build()`. */
  function Build(): (r: UserConfig)
    ensures r.BuildConfig? && r.esbuildDrop == ["console"]
  {
    BuildConfig(["console"])
  }

  /** `defineConfig`'s choice: `serve()` for the `serve` command, `build()` for any other. */
  function DefineConfig(command: string, envToml: map<string, Toml>): (r: Result<UserConfig, ConfigError>)
    ensures command == "serve" ==> r == Serve(envToml)
    ensures command != "serve" ==> r == Ok(Build())
  {
    if command == "serve" then Serve(envToml) else Ok(Build())
  }

  /** Only `serve` can fail, and only for want of the ports; a build never looks at `env.toml`. */
  lemma ConfigFailsOnlyForServe(command: string, envToml: map<string, Toml>)
    ensures DefineConfig(command, envToml).Err? <==> command == "serve" && GetPorts(envToml).None?
    ensures DefineConfig(command, envToml).Ok? ==>
              (DefineConfig(command, envToml).value.ServeConfig? <==> command == "serve")
  {
  }
}
