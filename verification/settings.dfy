/**
 * `Settings`: the options collected from the command line and the environment,
 * and the getters that return an option's value or a fixed default. URIs and
 * addresses are kept as the text they were parsed from.
 */
module Settings {
  import opened Wrappers

  datatype SettingOption =
    | PublicUri(uri: string)
    | LichessUri(uri: string)
    | BindPort(port: int)
    | BindAddress(address: string)

  /** The four option records, as the `Class` that `find` filters on. */
  datatype Kind = PublicUriKind | LichessUriKind | BindPortKind | BindAddressKind

  function KindOf(o: SettingOption): Kind {
    match o
    case PublicUri(_) => PublicUriKind
    case LichessUri(_) => LichessUriKind
    case BindPort(_) => BindPortKind
    case BindAddress(_) => BindAddressKind
  }

  /** The environment variables `PORT`, `LICHESS_URI` and `BIND_ADDRESS`, already parsed; `None` when unset. */
  datatype Environment = Environment(port: Option<int>, lichessUri: Option<string>, bindAddress: Option<string>)

  /** The two versions differ only in the default public URI. */
  datatype Variant = TwoFutureVariant | OneFutureVariant

  const DefaultLichessUri: string := "https://lichess.org"
  const DefaultPort: int := 8000
  const DefaultBindAddress: string := "0.0.0.0"

  function DefaultPublicUri(v: Variant): string {
    match v
    case TwoFutureVariant => "http://localhost:8000/"
    case OneFutureVariant => "https://challengeaiexample.herokuapp.com"
  }

  /** `parseArgs`: a public URI only when there is exactly one argument. */
  function ParseArgs(args: seq<string>): (opts: seq<SettingOption>)
    ensures |opts| <= 1
    ensures |opts| == 1 <==> |args| == 1
    ensures forall i :: 0 <= i < |opts| ==> opts[i] == PublicUri(args[0])
  {
    if |args| == 1 then [PublicUri(args[0])] else []
  }

  /** `load`: the parsed arguments, then one option per environment variable that is set, in the order port, Lichess URI, address. */
  function Load(args: seq<string>, env: Environment): (opts: seq<SettingOption>)
    ensures |opts| <= 4
  {
    ParseArgs(args)
    + (if env.port.Some? then [BindPort(env.port.value)] else [])
    + (if env.lichessUri.Some? then [LichessUri(env.lichessUri.value)] else [])
    + (if env.bindAddress.Some? then [BindAddress(env.bindAddress.value)] else [])
  }

  /** `find(options, clazz)`: the first option of the kind, if any. */
  function Find(opts: seq<SettingOption>, kind: Kind): (r: Option<SettingOption>)
    ensures r.None? <==> forall i :: 0 <= i < |opts| ==> KindOf(opts[i]) != kind
    ensures r.Some? ==> KindOf(r.value) == kind && exists i :: 0 <= i < |opts| && opts[i] == r.value
    ensures r.Some? ==> forall i :: 0 <= i < |opts| && KindOf(opts[i]) == kind ==> opts[i] == r.value || exists j :: 0 <= j < i && opts[j] == r.value
  {
    if |opts| == 0 then None
    else if KindOf(opts[0]) == kind then Some(opts[0])
    else Find(opts[1..], kind)
  }

  /** No kind occurs twice in the options `load` builds, so which match `findAny` picks makes no difference. */
  lemma LoadKindsDistinct(args: seq<string>, env: Environment)
    ensures var opts := Load(args, env);
      forall i, j :: 0 <= i < j < |opts| ==> KindOf(opts[i]) != KindOf(opts[j])
  {
  }

  /** When options of one kind agree, `Find` returns that option whichever it meets first. */
  lemma {:induction false} FindUnique(opts: seq<SettingOption>, kind: Kind, o: SettingOption)
    requires o in opts && KindOf(o) == kind
    requires forall i :: 0 <= i < |opts| && KindOf(opts[i]) == kind ==> opts[i] == o
    ensures Find(opts, kind) == Some(o)
    decreases |opts|
  {
    if opts[0] != o {
      assert o in opts[1..];
      FindUnique(opts[1..], kind, o);
    }
  }

  /** `lichessURI()`: the URI of the option `find` picks, or `https://lichess.org` when there is none. */
  function LichessUriOf(opts: seq<SettingOption>): (u: string)
    ensures Find(opts, LichessUriKind) == None ==> u == DefaultLichessUri
    ensures Find(opts, LichessUriKind) != None ==> Find(opts, LichessUriKind) == Some(LichessUri(u))
  {
    match Find(opts, LichessUriKind)
    case Some(LichessUri(u)) => u
    case _ => DefaultLichessUri
  }

  /** `publicURI()`: the URI of the option `find` picks, or the version's default when there is none. */
  function PublicUriOf(opts: seq<SettingOption>, v: Variant): (u: string)
    ensures Find(opts, PublicUriKind) == None ==> u == DefaultPublicUri(v)
    ensures Find(opts, PublicUriKind) != None ==> Find(opts, PublicUriKind) == Some(PublicUri(u))
  {
    match Find(opts, PublicUriKind)
    case Some(PublicUri(u)) => u
    case _ => DefaultPublicUri(v)
  }

  /** `bindPort()`: the port of the option `find` picks, or 8000 when there is none. */
  function BindPortOf(opts: seq<SettingOption>): (p: int)
    ensures Find(opts, BindPortKind) == None ==> p == DefaultPort
    ensures Find(opts, BindPortKind) != None ==> Find(opts, BindPortKind) == Some(BindPort(p))
  {
    match Find(opts, BindPortKind)
    case Some(BindPort(p)) => p
    case _ => DefaultPort
  }

  /** `bindAddress()`: the address of the option `find` picks, or `0.0.0.0` when there is none. */
  function BindAddressOf(opts: seq<SettingOption>): (a: string)
    ensures Find(opts, BindAddressKind) == None ==> a == DefaultBindAddress
    ensures Find(opts, BindAddressKind) != None ==> Find(opts, BindAddressKind) == Some(BindAddress(a))
  {
    match Find(opts, BindAddressKind)
    case Some(BindAddress(a)) => a
    case _ => DefaultBindAddress
  }

  /** Where each option of the loaded list comes from. */
  lemma LoadSources(args: seq<string>, env: Environment)
    ensures var opts := Load(args, env);
      forall i :: 0 <= i < |opts| ==>
        match opts[i]
        case PublicUri(u) => |args| == 1 && u == args[0]
        case BindPort(p) => env.port == Some(p)
        case LichessUri(u) => env.lichessUri == Some(u)
        case BindAddress(a) => env.bindAddress == Some(a)
  {
  }

  /** The public URI is the single argument when there is exactly one, the default otherwise. */
  lemma LoadedPublicUri(args: seq<string>, env: Environment, v: Variant)
    ensures PublicUriOf(Load(args, env), v) == if |args| == 1 then args[0] else DefaultPublicUri(v)
  {
    var opts := Load(args, env);
    LoadSources(args, env);
    if |args| == 1 {
      assert opts[0] == PublicUri(args[0]);
      FindUnique(opts, PublicUriKind, PublicUri(args[0]));
    } else {
      assert Find(opts, PublicUriKind).None?;
    }
  }

  /** `LICHESS_URI`, when set, is the Lichess URI; otherwise the default. */
  lemma LoadedLichessUri(args: seq<string>, env: Environment)
    ensures LichessUriOf(Load(args, env)) == env.lichessUri.GetOr(DefaultLichessUri)
  {
    var opts := Load(args, env);
    LoadSources(args, env);
    if env.lichessUri.Some? {
      var o := LichessUri(env.lichessUri.value);
      assert o in opts;
      FindUnique(opts, LichessUriKind, o);
    } else {
      assert Find(opts, LichessUriKind).None?;
    }
  }

  /** `PORT`, when set, is the bind port; otherwise 8000. */
  lemma LoadedBindPort(args: seq<string>, env: Environment)
    ensures BindPortOf(Load(args, env)) == env.port.GetOr(DefaultPort)
  {
    var opts := Load(args, env);
    LoadSources(args, env);
    if env.port.Some? {
      var o := BindPort(env.port.value);
      assert o in opts;
      FindUnique(opts, BindPortKind, o);
    } else {
      assert Find(opts, BindPortKind).None?;
    }
  }

  /** `BIND_ADDRESS`, when set, is the bind address; otherwise `0.0.0.0`. */
  lemma LoadedBindAddress(args: seq<string>, env: Environment)
    ensures BindAddressOf(Load(args, env)) == env.bindAddress.GetOr(DefaultBindAddress)
  {
    var opts := Load(args, env);
    LoadSources(args, env);
    if env.bindAddress.Some? {
      var o := BindAddress(env.bindAddress.value);
      assert o in opts;
      FindUnique(opts, BindAddressKind, o);
    } else {
      assert Find(opts, BindAddressKind).None?;
    }
  }

  /** With no arguments and an empty environment every getter returns its default. */
  lemma Defaults(v: Variant)
    ensures var opts := Load([], Environment(None, None, None));
      && LichessUriOf(opts) == "https://lichess.org"
      && PublicUriOf(opts, v) == (if v == TwoFutureVariant then "http://localhost:8000/" else "https://challengeaiexample.herokuapp.com")
      && BindPortOf(opts) == 8000
      && BindAddressOf(opts) == "0.0.0.0"
  {
    var env := Environment(None, None, None);
    LoadedPublicUri([], env, v);
    LoadedLichessUri([], env);
    LoadedBindPort([], env);
    LoadedBindAddress([], env);
  }
}
