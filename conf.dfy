/**
 * cmd/conf.go: the launcher version that resolves every peer through DNS,
 * passes the user as the single token "-user <u>", names the port flag
 * `-nomad.port`, and adds the trailing separator to the install path before
 * locating java.
 */
module CmdConf {
  import opened Outcomes
  import opened GoStrings
  import opened GoStrconv
  import opened Topology

  /**
   * The DNS resolver (`net.LookupIP` followed by rendering each address):
   * for a host name, its addresses as strings, or the lookup error.
   */
  type Lookup = string -> Result<seq<string>>

  /** A successful lookup names at least one address, as `net.LookupIP` does. */
  ghost predicate AnswersNonEmpty(lookup: Lookup)
  {
    forall h :: lookup(h).Ok? ==> |lookup(h).value| > 0
  }

  /** Every node's lookup succeeds. */
  ghost predicate AllResolve(nodes: seq<Node>, lookup: Lookup)
  {
    forall i :: 0 <= i < |nodes| ==> lookup(nodes[i].Hostname).Ok?
  }

  /** `i` is the first node whose lookup fails. */
  predicate FirstFailureAt(nodes: seq<Node>, lookup: Lookup, i: int)
  {
    0 <= i < |nodes| && lookup(nodes[i].Hostname).Err? &&
    forall j :: 0 <= j < i ==> lookup(nodes[j].Hostname).Ok?
  }

  /**
   * Looks the nodes up one after the other: the first address of each, or
   * the error of the first lookup that fails (the later ones are not made).
   */
  function Resolve(nodes: seq<Node>, lookup: Lookup): (r: Result<seq<string>>)
    requires AnswersNonEmpty(lookup)
    ensures r.Ok? ==> |r.value| == |nodes|
  {
    if |nodes| == 0 then Ok([])
    else
      var init, last := nodes[..|nodes| - 1], nodes[|nodes| - 1];
      match Resolve(init, lookup)
      case Err(e) => Err(e)
      case Ok(ips) =>
        match lookup(last.Hostname)
        case Err(e) => Err(e)
        case Ok(answer) => Ok(ips + [answer[0]])
  }

  /**
   * The lookups all succeed exactly when every node resolves, and then each
   * node contributes the first address of its answer, in node order.
   */
  lemma {:induction false} ResolveSucceeds(nodes: seq<Node>, lookup: Lookup)
    requires AnswersNonEmpty(lookup)
    ensures Resolve(nodes, lookup).Ok? <==> AllResolve(nodes, lookup)
    ensures Resolve(nodes, lookup).Ok? ==>
      forall i :: 0 <= i < |nodes| ==> Resolve(nodes, lookup).value[i] == lookup(nodes[i].Hostname).value[0]
  {
    if |nodes| > 0 {
      var init := nodes[..|nodes| - 1];
      ResolveSucceeds(init, lookup);
    }
  }

  /** A failed resolution reports the error of the first node whose lookup fails. */
  lemma {:induction false} ResolveFails(nodes: seq<Node>, lookup: Lookup)
    requires AnswersNonEmpty(lookup)
    requires Resolve(nodes, lookup).Err?
    ensures exists i ::
      FirstFailureAt(nodes, lookup, i) && lookup(nodes[i].Hostname) == Err(Resolve(nodes, lookup).msg)
  {
    var init, last := nodes[..|nodes| - 1], nodes[|nodes| - 1];
    if Resolve(init, lookup).Err? {
      ResolveFails(init, lookup);
      var i :| FirstFailureAt(init, lookup, i) && lookup(init[i].Hostname) == Err(Resolve(init, lookup).msg);
      assert FirstFailureAt(nodes, lookup, i);
    } else {
      ResolveSucceeds(init, lookup);
      assert FirstFailureAt(nodes, lookup, |nodes| - 1);
    }
  }

  /** Once a lookup has failed, the nodes after it change nothing. */
  lemma {:induction false} ResolveStopsAtFailure(a: seq<Node>, b: seq<Node>, lookup: Lookup)
    requires AnswersNonEmpty(lookup)
    requires Resolve(a, lookup).Err?
    ensures Resolve(a + b, lookup) == Resolve(a, lookup)
  {
    if |b| == 0 {
      assert a + b == a;
    } else {
      var b' := b[..|b| - 1];
      assert (a + b)[..|a + b| - 1] == a + b';
      ResolveStopsAtFailure(a, b', lookup);
    }
  }

  /** Looking up one more node: its first address is added, or its error ends the lookups. */
  lemma ResolveOneMore(nodes: seq<Node>, node: Node, lookup: Lookup)
    requires AnswersNonEmpty(lookup)
    requires Resolve(nodes, lookup).Ok?
    ensures lookup(node.Hostname).Err? ==> Resolve(nodes + [node], lookup) == Err(lookup(node.Hostname).msg)
    ensures lookup(node.Hostname).Ok? ==>
      Resolve(nodes + [node], lookup) == Ok(Resolve(nodes, lookup).value + [lookup(node.Hostname).value[0]])
  {
    assert (nodes + [node])[..|nodes|] == nodes;
  }

  /** A lookup failure among the first `i` nodes is the outcome for the whole topology. */
  lemma LaterNodesIgnored(nodes: seq<Node>, host: string, i: int, lookup: Lookup)
    requires AnswersNonEmpty(lookup)
    requires 0 <= i <= |nodes| && Resolve(Remote(nodes[..i], host), lookup).Err?
    ensures Resolve(Remote(nodes, host), lookup) == Resolve(Remote(nodes[..i], host), lookup)
  {
    RemoteAppend(nodes[..i], nodes[i..], host);
    assert nodes[..i] + nodes[i..] == nodes;
    ResolveStopsAtFailure(Remote(nodes[..i], host), Remote(nodes[i..], host), lookup);
  }

  /**
   * `peers`: the first DNS address of every node not named `hostname`, in
   * topology order, joined by single spaces; or the first lookup error.
   */
  method Peers(cfg: Config, hostname: string, lookup: Lookup) returns (r: Result<string>)
    requires AnswersNonEmpty(lookup)
    ensures var resolved := Resolve(Remote(cfg.Nodes, hostname), lookup);
      (resolved.Ok? ==> r == Ok(Join(resolved.value, " "))) &&
      (resolved.Err? ==> r == Err(resolved.msg))
  {
    var nodes := cfg.Nodes;
    var peers: seq<string> := [];
    var i := 0;
    while i < |nodes|
      invariant 0 <= i <= |nodes|
      invariant Resolve(Remote(nodes[..i], hostname), lookup) == Ok(peers)
    {
      RemoteOneMore(nodes, hostname, i);
      if nodes[i].Hostname != hostname {
        var ips := lookup(nodes[i].Hostname);
        ResolveOneMore(Remote(nodes[..i], hostname), nodes[i], lookup);
        if ips.Err? {
          LaterNodesIgnored(nodes, hostname, i + 1, lookup);
          return Err(ips.msg);
        }
        peers := peers + [ips.value[0]];
      } else {
        assert Remote(nodes[..i], hostname) + [] == Remote(nodes[..i], hostname);
      }
      i := i + 1;
    }
    assert nodes[..i] == nodes;
    r := Ok(Join(peers, " "));
  }

  /** The node-specific values of `inv` are those of `node`. */
  predicate SelectedNode(inv: Invocation, node: Node)
  {
    inv.Tools == node.Tools && inv.Net == node.NetInterface && inv.Address == node.Address
  }

  /**
   * What `newArgs` puts on the command line: the first node named
   * `hostname`, the resolved peers and the jar, or the first of their errors
   * in the order the source meets them.
   */
  function Plan(cfg: Config, hostname: string, lookup: Lookup, jar: Result<string>): (r: Result<Invocation>)
    requires AnswersNonEmpty(lookup)
    ensures r.Ok? ==> jar.Ok? && r.value.Jar == jar.value && r.value.Install == cfg.Clarify.Install
  {
    match LocalNode(cfg.Nodes, hostname)
    case Err(e) => Err(e)
    case Ok(node) =>
      match Resolve(Remote(cfg.Nodes, hostname), lookup)
      case Err(e) => Err(e)
      case Ok(peers) =>
        match jar
        case Err(e) => Err(e)
        case Ok(path) =>
          Ok(Invocation(path, cfg.Clarify.User, node.Tools, cfg.Clarify.Install, cfg.Clarify.Share,
                        node.NetInterface, node.Address, cfg.Clarify.NomadPort, Join(peers, " ")))
  }

  /**
   * A command line is built exactly when a node is named `hostname`, every
   * other node resolves and the jar was found; it then carries the values
   * of the first node so named.
   */
  lemma PlanSucceeds(cfg: Config, hostname: string, lookup: Lookup, jar: Result<string>)
    requires AnswersNonEmpty(lookup)
    ensures Plan(cfg, hostname, lookup, jar).Ok? <==>
      (exists i :: 0 <= i < |cfg.Nodes| && cfg.Nodes[i].Hostname == hostname) &&
      AllResolve(Remote(cfg.Nodes, hostname), lookup) &&
      jar.Ok?
    ensures Plan(cfg, hostname, lookup, jar).Ok? ==>
      exists i :: FirstMatchAt(cfg.Nodes, hostname, i) && SelectedNode(Plan(cfg, hostname, lookup, jar).value, cfg.Nodes[i])
  {
    var remote := Remote(cfg.Nodes, hostname);
    ResolveSucceeds(remote, lookup);
    var local := LocalNode(cfg.Nodes, hostname);
    assert Plan(cfg, hostname, lookup, jar).Ok? <==> local.Ok? && Resolve(remote, lookup).Ok? && jar.Ok?;
    if Plan(cfg, hostname, lookup, jar).Ok? {
      var i :| FirstMatchAt(cfg.Nodes, hostname, i) && cfg.Nodes[i] == local.value;
      assert 0 <= i < |cfg.Nodes| && cfg.Nodes[i].Hostname == hostname;
      assert SelectedNode(Plan(cfg, hostname, lookup, jar).value, cfg.Nodes[i]);
    }
  }

  /**
   * Which error a failed plan reports, in the order the source meets them:
   * the missing local node, then the first remote node whose lookup fails,
   * then the jar search.
   */
  lemma PlanFails(cfg: Config, hostname: string, lookup: Lookup, jar: Result<string>)
    requires AnswersNonEmpty(lookup)
    ensures LocalNode(cfg.Nodes, hostname).Err? ==> Plan(cfg, hostname, lookup, jar) == Err(NodeNotFound)
    ensures LocalNode(cfg.Nodes, hostname).Ok? && Resolve(Remote(cfg.Nodes, hostname), lookup).Err? ==>
      Plan(cfg, hostname, lookup, jar).Err? &&
      exists i :: FirstFailureAt(Remote(cfg.Nodes, hostname), lookup, i) &&
        lookup(Remote(cfg.Nodes, hostname)[i].Hostname) == Err(Plan(cfg, hostname, lookup, jar).msg)
    ensures LocalNode(cfg.Nodes, hostname).Ok? && Resolve(Remote(cfg.Nodes, hostname), lookup).Ok? && jar.Err? ==>
      Plan(cfg, hostname, lookup, jar) == Err(jar.msg)
  {
    if LocalNode(cfg.Nodes, hostname).Ok? && Resolve(Remote(cfg.Nodes, hostname), lookup).Err? {
      ResolveFails(Remote(cfg.Nodes, hostname), lookup);
    }
  }

  /** When nothing failed, the plan carries the local node, the joined peers and the jar. */
  lemma PlanBuilt(cfg: Config, hostname: string, lookup: Lookup, jar: Result<string>, node: Node, peers: seq<string>)
    requires AnswersNonEmpty(lookup)
    requires LocalNode(cfg.Nodes, hostname) == Ok(node)
    requires Resolve(Remote(cfg.Nodes, hostname), lookup) == Ok(peers)
    requires jar.Ok?
    ensures Plan(cfg, hostname, lookup, jar) ==
      Ok(Invocation(jar.value, cfg.Clarify.User, node.Tools, cfg.Clarify.Install, cfg.Clarify.Share,
                    node.NetInterface, node.Address, cfg.Clarify.NomadPort, Join(peers, " ")))
  {
  }

  /** The command line as this version lays it out, group by group from the empty vector. */
  function Render(inv: Invocation): (argv: seq<string>)
    ensures |argv| == if inv.Address == "" then 15 else 17
  {
    [] + ["-jar", inv.Jar] + ["-user " + inv.User] + ["-install", inv.Tools] + ["-clarify", inv.Install]
    + ["-share", inv.Share] + ["-net", inv.Net]
    + (if inv.Address == "" then [] else ["-address", inv.Address])
    + ["-nomad.port", Itoa(inv.NomadPort)] + ["-hosts", inv.Hosts]
  }

  /**
   * The fixed layout: the six leading flag/value positions, `-address` and
   * its value right after them when there is an address, and the port and
   * hosts flags closing the line.
   */
  lemma RenderLayout(inv: Invocation)
    ensures Render(inv)[..11] == ["-jar", inv.Jar, "-user " + inv.User, "-install", inv.Tools,
                                   "-clarify", inv.Install, "-share", inv.Share, "-net", inv.Net]
    ensures inv.Address != "" ==> Render(inv)[11..13] == ["-address", inv.Address]
    ensures Render(inv)[|Render(inv)| - 4..] == ["-nomad.port", Itoa(inv.NomadPort), "-hosts", inv.Hosts]
  {
  }

  /**
   * This model's reader of the layout above, the inverse of `Render`: fixed
   * flags at fixed places, the user after "-user " in one token, `-address`
   * only with a non-empty value.
   */
  function Parse(argv: seq<string>): Option<Invocation>
  {
    if |argv| != 15 && |argv| != 17 then None
    else
      var k := |argv| - 4;
      if argv[0] == "-jar" && HasPrefix(argv[2], "-user ") && argv[3] == "-install" &&
         argv[5] == "-clarify" && argv[7] == "-share" && argv[9] == "-net" &&
         (k == 13 ==> argv[11] == "-address" && argv[12] != "") &&
         argv[k] == "-nomad.port" && ParseInt(argv[k + 1]).Some? && argv[k + 2] == "-hosts"
      then
        Some(Invocation(argv[1], argv[2][6..], argv[4], argv[6], argv[8], argv[10],
                        if k == 13 then argv[12] else "", ParseInt(argv[k + 1]).value, argv[k + 3]))
      else None
  }

  /** Every command line this version builds is read back as what it encodes. */
  lemma ParseRender(inv: Invocation)
    ensures Parse(Render(inv)) == Some(inv)
  {
    ParseItoa(inv.NomadPort);
    assert ("-user " + inv.User)[6..] == inv.User;
  }

  /** No two invocations render to the same command line. */
  lemma RenderInjective(a: Invocation, b: Invocation)
    ensures Render(a) == Render(b) ==> a == b
  {
    ParseRender(a);
    ParseRender(b);
  }

  /** The leading flag/value groups of an accepted command line are rendered back unchanged. */
  lemma RenderParseHead(argv: seq<string>)
    requires Parse(argv).Some?
    ensures |Render(Parse(argv).value)| == |argv|
    ensures Render(Parse(argv).value)[..11] == argv[..11]
  {
    assert "-user " + Parse(argv).value.User == argv[2];
    RenderLayout(Parse(argv).value);
  }

  /** So are the port and hosts groups that close it. */
  lemma RenderParseTail(argv: seq<string>)
    requires Parse(argv).Some?
    ensures |Render(Parse(argv).value)| == |argv|
    ensures Render(Parse(argv).value)[|argv| - 4..] == argv[|argv| - 4..]
  {
    ItoaParse(argv[|argv| - 3]);
    RenderLayout(Parse(argv).value);
  }

  /** Every command line `Parse` accepts is the rendering of what it reads. */
  lemma RenderParse(argv: seq<string>)
    requires Parse(argv).Some?
    ensures Render(Parse(argv).value) == argv
  {
    var k := |argv| - 4;
    var r := Render(Parse(argv).value);
    RenderParseHead(argv);
    RenderParseTail(argv);
    if k == 11 + 2 {
      RenderLayout(Parse(argv).value);
      assert r[11..k] == argv[11..k];
      assert r == r[..11] + r[11..k] + r[k..];
      assert argv == argv[..11] + argv[11..k] + argv[k..];
    } else {
      assert r == r[..11] + r[k..];
      assert argv == argv[..11] + argv[k..];
    }
  }

  /** The port flag and its decimal value are present for every port, 0 included. */
  lemma PortAlwaysEmitted(inv: Invocation)
    ensures var argv := Render(inv);
      argv[|argv| - 4] == "-nomad.port" && ParseInt(argv[|argv| - 3]) == Some(inv.NomadPort)
    ensures inv.NomadPort == 0 ==> Render(inv)[|Render(inv)| - 3] == "0"
  {
    ParseItoa(inv.NomadPort);
  }

  /** `args`: the argument vector, only ever extended at its end. */
  class Args {
    var Args: seq<string>

    constructor ()
      ensures Args == []
    {
      Args := [];
    }

    method Jar(jar: string)
      modifies this
      ensures Args == old(Args) + ["-jar", jar]
    {
      Args := Args + ["-jar", jar];
    }

    /** The flag and the user travel together in one token. */
    method User(user: string)
      modifies this
      ensures Args == old(Args) + ["-user " + user]
    {
      Args := Args + ["-user " + user];
    }

    method ToolsInstall(dir: string)
      modifies this
      ensures Args == old(Args) + ["-install", dir]
    {
      Args := Args + ["-install", dir];
    }

    method ClarifyInstall(dir: string)
      modifies this
      ensures Args == old(Args) + ["-clarify", dir]
    {
      Args := Args + ["-clarify", dir];
    }

    method ClarifyShare(dir: string)
      modifies this
      ensures Args == old(Args) + ["-share", dir]
    {
      Args := Args + ["-share", dir];
    }

    method NetInterface(net: string)
      modifies this
      ensures Args == old(Args) + ["-net", net]
    {
      Args := Args + ["-net", net];
    }

    /** Nothing at all for an empty address, never an empty value token. */
    method Address(address: string)
      modifies this
      ensures Args == old(Args) + (if address == "" then [] else ["-address", address])
    {
      if |address| == 0 {
        return;
      }
      Args := Args + ["-address", address];
    }

    method Nomad(port: int)
      modifies this
      ensures Args == old(Args) + ["-nomad.port", Itoa(port)]
    {
      var portStr := Itoa(port);
      Args := Args + ["-nomad.port", portStr];
    }

    method Hosts(peers: string)
      modifies this
      ensures Args == old(Args) + ["-hosts", peers]
    {
      Args := Args + ["-hosts", peers];
    }
  }

  /**
   * `newArgs`: the command line for this node, or the error that stopped
   * it (a missing local node or a failed lookup, on which the source exits
   * through `log.Fatal`, or a jar that could not be located).
   */
  method NewArgs(cfg: Config, hostname: string, lookup: Lookup, jar: Result<string>)
    returns (a: Args, err: Option<string>)
    requires AnswersNonEmpty(lookup)
    ensures var plan := Plan(cfg, hostname, lookup, jar);
      (plan.Err? ==> err == Some(plan.msg) && a.Args == []) &&
      (plan.Ok? ==> err == None && a.Args == Render(plan.value))
  {
    a := new Args();
    var node := FindLocalNode(cfg, hostname);
    if node.Err? {
      return a, Some(node.msg);
    }
    var peers := Peers(cfg, hostname, lookup);
    if peers.Err? {
      return a, Some(peers.msg);
    }
    if jar.Err? {
      return a, Some(jar.msg);
    }
    var c, n := cfg.Clarify, node.value;
    ghost var resolved := Resolve(Remote(cfg.Nodes, hostname), lookup);
    PlanBuilt(cfg, hostname, lookup, jar, n, resolved.value);
    a.Jar(jar.value);
    a.User(c.User);
    a.ToolsInstall(n.Tools);
    a.ClarifyInstall(c.Install);
    a.ClarifyShare(c.Share);
    a.NetInterface(n.NetInterface);
    a.Address(n.Address);
    a.Nomad(c.NomadPort);
    a.Hosts(peers.value);
    err := None;
  }

  /** The install directory with exactly one trailing path separator added if it lacked one. */
  function WithTrailingSeparator(install: string, separator: char): (r: string)
    ensures HasSuffix(r, [separator])
    ensures HasSuffix(install, [separator]) ==> r == install
    ensures |install| <= |r| <= |install| + 1 && r[..|install|] == install
  {
    if HasSuffix(install, [separator]) then install else install + [separator]
  }

  /** Fixing the install path up twice is fixing it once. */
  lemma TrailingSeparatorIdempotent(install: string, separator: char)
    ensures WithTrailingSeparator(WithTrailingSeparator(install, separator), separator)
         == WithTrailingSeparator(install, separator)
  {
  }

  /** The program to start and the arguments to give it. */
  datatype Command = Command(Path: string, Args: seq<string>)

  /**
   * `main` after parsing: builds the arguments, then gives the install path
   * its trailing separator and derives the java executable from it.
   */
  method Launch(cfg: Config, hostname: string, lookup: Lookup, jar: Result<string>, separator: char)
    returns (r: Result<Command>)
    requires AnswersNonEmpty(lookup)
    ensures var plan := Plan(cfg, hostname, lookup, jar);
      (plan.Err? ==> r == Err(plan.msg)) &&
      (plan.Ok? ==> r == Ok(Command(WithTrailingSeparator(cfg.Clarify.Install, separator) + "jre/bin/java",
                                    Render(plan.value))))
    ensures r.Ok? ==> r.value.Args[5] == "-clarify" && r.value.Args[6] == cfg.Clarify.Install
  {
    var args, err := NewArgs(cfg, hostname, lookup, jar);
    if err.Some? {
      return Err(err.value);
    }
    ghost var plan := Plan(cfg, hostname, lookup, jar);
    RenderLayout(plan.value);
    assert args.Args[..11][6] == cfg.Clarify.Install;
    var config := cfg;
    if !HasSuffix(config.Clarify.Install, [separator]) {
      config := config.(Clarify := config.Clarify.(Install := config.Clarify.Install + [separator]));
    }
    r := Ok(Command(config.Clarify.Install + "jre/bin/java", args.Args));
  }
}
