/**
 * cmd/main.go: the launcher version whose peers are the configured
 * addresses and whose argument vector has the user as two tokens and the
 * port under `-nomad_port`.
 */
module CmdMain {
  import opened Outcomes
  import opened GoStrings
  import opened GoStrconv
  import opened Topology

  /** The `Address` field of each node, verbatim (an empty one included). */
  function Addresses(nodes: seq<Node>): (r: seq<string>)
    ensures |r| == |nodes|
    ensures forall i :: 0 <= i < |nodes| ==> r[i] == nodes[i].Address
  {
    if |nodes| == 0 then [] else Addresses(nodes[..|nodes| - 1]) + [nodes[|nodes| - 1].Address]
  }

  /**
   * `peers`: the address of every node not named `hostname`, in topology
   * order, joined by single spaces.
   */
  method Peers(cfg: Config, hostname: string) returns (s: string)
    ensures s == Join(Addresses(Remote(cfg.Nodes, hostname)), " ")
  {
    var nodes := cfg.Nodes;
    var peers: seq<string> := [];
    var i := 0;
    while i < |nodes|
      invariant 0 <= i <= |nodes|
      invariant peers == Addresses(Remote(nodes[..i], hostname))
    {
      RemoteOneMore(nodes, hostname, i);
      if nodes[i].Hostname != hostname {
        peers := peers + [nodes[i].Address];
      }
      i := i + 1;
    }
    assert nodes[..i] == nodes;
    s := Join(peers, " ");
  }

  /** The command line as this version lays it out, group by group from the empty vector. */
  function Render(inv: Invocation): (argv: seq<string>)
    ensures |argv| == if inv.Address == "" then 16 else 18
  {
    [] + ["-jar", inv.Jar] + ["-user", inv.User] + ["-install", inv.Tools] + ["-clarify", inv.Install]
    + ["-share", inv.Share] + ["-net", inv.Net]
    + (if inv.Address == "" then [] else ["-address", inv.Address])
    + ["-nomad_port", Itoa(inv.NomadPort)] + ["-hosts", inv.Hosts]
  }

  /**
   * The fixed layout: the six leading flag/value positions, `-address` and
   * its value right after them when there is an address, and the port and
   * hosts flags closing the line.
   */
  lemma RenderLayout(inv: Invocation)
    ensures Render(inv)[..12] == ["-jar", inv.Jar, "-user", inv.User, "-install", inv.Tools,
                                   "-clarify", inv.Install, "-share", inv.Share, "-net", inv.Net]
    ensures inv.Address != "" ==> Render(inv)[12..14] == ["-address", inv.Address]
    ensures Render(inv)[|Render(inv)| - 4..] == ["-nomad_port", Itoa(inv.NomadPort), "-hosts", inv.Hosts]
  {
  }

  /**
   * This model's reader of the layout above, the inverse of `Render`: fixed
   * flags at fixed places, `-address` only with a non-empty value.
   */
  function Parse(argv: seq<string>): Option<Invocation>
  {
    if |argv| != 16 && |argv| != 18 then None
    else
      var k := |argv| - 4;
      if argv[0] == "-jar" && argv[2] == "-user" && argv[4] == "-install" &&
         argv[6] == "-clarify" && argv[8] == "-share" && argv[10] == "-net" &&
         (k == 14 ==> argv[12] == "-address" && argv[13] != "") &&
         argv[k] == "-nomad_port" && ParseInt(argv[k + 1]).Some? && argv[k + 2] == "-hosts"
      then
        Some(Invocation(argv[1], argv[3], argv[5], argv[7], argv[9], argv[11],
                        if k == 14 then argv[13] else "", ParseInt(argv[k + 1]).value, argv[k + 3]))
      else None
  }

  /** Every command line this version builds is read back as what it encodes. */
  lemma ParseRender(inv: Invocation)
    ensures Parse(Render(inv)) == Some(inv)
  {
    ParseItoa(inv.NomadPort);
  }

  /** No two invocations render to the same command line. */
  lemma RenderInjective(a: Invocation, b: Invocation)
    ensures Render(a) == Render(b) ==> a == b
  {
    ParseRender(a);
    ParseRender(b);
  }

  /** The leading flag/value groups of an accepted command line are rendered back unchanged. */
  lemma RenderParseHead(argv: seq<string>)
    requires Parse(argv).Some?
    ensures |Render(Parse(argv).value)| == |argv|
    ensures Render(Parse(argv).value)[..12] == argv[..12]
  {
    RenderLayout(Parse(argv).value);
  }

  /** So are the port and hosts groups that close it. */
  lemma RenderParseTail(argv: seq<string>)
    requires Parse(argv).Some?
    ensures |Render(Parse(argv).value)| == |argv|
    ensures Render(Parse(argv).value)[|argv| - 4..] == argv[|argv| - 4..]
  {
    ItoaParse(argv[|argv| - 3]);
    RenderLayout(Parse(argv).value);
  }

  /** Every command line `Parse` accepts is the rendering of what it reads. */
  lemma RenderParse(argv: seq<string>)
    requires Parse(argv).Some?
    ensures Render(Parse(argv).value) == argv
  {
    var k := |argv| - 4;
    var r := Render(Parse(argv).value);
    RenderParseHead(argv);
    RenderParseTail(argv);
    if k == 12 + 2 {
      RenderLayout(Parse(argv).value);
      assert r[12..k] == argv[12..k];
      assert r == r[..12] + r[12..k] + r[k..];
      assert argv == argv[..12] + argv[12..k] + argv[k..];
    } else {
      assert r == r[..12] + r[k..];
      assert argv == argv[..12] + argv[k..];
    }
  }

  /** The port flag and its decimal value are present for every port, 0 included. */
  lemma PortAlwaysEmitted(inv: Invocation)
    ensures var argv := Render(inv);
      argv[|argv| - 4] == "-nomad_port" && ParseInt(argv[|argv| - 3]) == Some(inv.NomadPort)
    ensures inv.NomadPort == 0 ==> Render(inv)[|Render(inv)| - 3] == "0"
  {
    ParseItoa(inv.NomadPort);
  }

  /** `args`: the argument vector, only ever extended at its end. */
  class Args {
    var Args: seq<string>

    constructor ()
      ensures Args == []
    {
      Args := [];
    }

    method Jar(jar: string)
      modifies this
      ensures Args == old(Args) + ["-jar", jar]
    {
      Args := Args + ["-jar", jar];
    }

    method User(user: string)
      modifies this
      ensures Args == old(Args) + ["-user", user]
    {
      Args := Args + ["-user", user];
    }

    method ToolsInstall(dir: string)
      modifies this
      ensures Args == old(Args) + ["-install", dir]
    {
      Args := Args + ["-install", dir];
    }

    method ClarifyInstall(dir: string)
      modifies this
      ensures Args == old(Args) + ["-clarify", dir]
    {
      Args := Args + ["-clarify", dir];
    }

    method ClarifyShare(dir: string)
      modifies this
      ensures Args == old(Args) + ["-share", dir]
    {
      Args := Args + ["-share", dir];
    }

    method NetInterface(net: string)
      modifies this
      ensures Args == old(Args) + ["-net", net]
    {
      Args := Args + ["-net", net];
    }

    /** Nothing at all for an empty address, never an empty value token. */
    method Address(address: string)
      modifies this
      ensures Args == old(Args) + (if address == "" then [] else ["-address", address])
    {
      if |address| == 0 {
        return;
      }
      Args := Args + ["-address", address];
    }

    method Nomad(port: int)
      modifies this
      ensures Args == old(Args) + ["-nomad_port", Itoa(port)]
    {
      var portStr := Itoa(port);
      Args := Args + ["-nomad_port", portStr];
    }

    method Hosts(peers: string)
      modifies this
      ensures Args == old(Args) + ["-hosts", peers]
    {
      Args := Args + ["-hosts", peers];
    }
  }

  /**
   * `newArgs`: with a located jar, the full command line for this node;
   * when jar location failed, its error and an empty command line.
   */
  method NewArgs(c: Clarify, n: Node, peers: string, jar: Result<string>) returns (a: Args, err: Option<string>)
    ensures jar.Err? ==> err == Some(jar.msg) && a.Args == []
    ensures jar.Ok? ==>
      err == None &&
      a.Args == Render(Invocation(jar.value, c.User, n.Tools, c.Install, c.Share,
                                  n.NetInterface, n.Address, c.NomadPort, peers))
  {
    a := new Args();
    if jar.Err? {
      return a, Some(jar.msg);
    }
    a.Jar(jar.value);
    a.User(c.User);
    a.ToolsInstall(n.Tools);
    a.ClarifyInstall(c.Install);
    a.ClarifyShare(c.Share);
    a.NetInterface(n.NetInterface);
    a.Address(n.Address);
    a.Nomad(c.NomadPort);
    a.Hosts(peers);
    err := None;
  }
}
