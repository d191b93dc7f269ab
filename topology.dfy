/**
 * The cluster topology both launcher versions read: the node descriptors,
 * the shared installer settings, and the two views derived from them (the
 * local node and the remote nodes).
 */
module Topology {
  import opened Outcomes

  /** One entry of `clarify-nodes`. */
  datatype Node = Node(Hostname: string, NetInterface: string, Address: string, Tools: string)

  /** The `clarify-common` settings shared by every node. */
  datatype Clarify = Clarify(Install: string, Share: string, User: string, NomadPort: int)

  datatype Config = Config(Nodes: seq<Node>, Clarify: Clarify)

  /** The values the installer's command line carries, before rendering. */
  datatype Invocation = Invocation(
    Jar: string, User: string, Tools: string, Install: string, Share: string,
    Net: string, Address: string, NomadPort: int, Hosts: string)

  const NodeNotFound: string := "node not found"

  /** `i` is the first position whose host name is exactly `host`. */
  predicate FirstMatchAt(nodes: seq<Node>, host: string, i: int)
  {
    0 <= i < |nodes| && nodes[i].Hostname == host &&
    forall j :: 0 <= j < i ==> nodes[j].Hostname != host
  }

  /** The position of the first node named `host`, if there is one. */
  function FirstMatch(nodes: seq<Node>, host: string): (r: Option<nat>)
    ensures r.Some? ==> FirstMatchAt(nodes, host, r.value)
    ensures r.None? <==> forall j :: 0 <= j < |nodes| ==> nodes[j].Hostname != host
  {
    if |nodes| == 0 then None
    else if nodes[0].Hostname == host then Some(0)
    else match FirstMatch(nodes[1..], host)
      case None => None
      case Some(k) => Some(k + 1)
  }

  /**
   * The descriptor of the machine called `host`: the first one bearing that
   * name, or the "node not found" error when none does.
   */
  function LocalNode(nodes: seq<Node>, host: string): (r: Result<Node>)
    ensures r.Ok? <==> exists i :: 0 <= i < |nodes| && nodes[i].Hostname == host
    ensures r.Ok? ==> exists i :: FirstMatchAt(nodes, host, i) && nodes[i] == r.value
    ensures r.Err? ==> r.msg == NodeNotFound
  {
    match FirstMatch(nodes, host)
    case Some(i) => Ok(nodes[i])
    case None => Err(NodeNotFound)
  }

  /**
   * `findLocalNode`, identical in both launcher versions: scans the nodes in
   * order and stops at the first one named `hostname`.
   */
  method FindLocalNode(cfg: Config, hostname: string) returns (r: Result<Node>)
    ensures r == LocalNode(cfg.Nodes, hostname)
  {
    var nodes := cfg.Nodes;
    var i := 0;
    while i < |nodes|
      invariant 0 <= i <= |nodes|
      invariant forall j :: 0 <= j < i ==> nodes[j].Hostname != hostname
    {
      if nodes[i].Hostname == hostname {
        assert FirstMatchAt(nodes, hostname, i);
        return Ok(nodes[i]);
      }
      i := i + 1;
    }
    return Err(NodeNotFound);
  }

  /** A first match cannot be preceded by another: later duplicates never win. */
  lemma FirstMatchUnique(nodes: seq<Node>, host: string, i: int, j: int)
    requires FirstMatchAt(nodes, host, i) && FirstMatchAt(nodes, host, j)
    ensures i == j
  {
  }

  /** The nodes not named `host`, in their original order. */
  function Remote(nodes: seq<Node>, host: string): (r: seq<Node>)
    ensures |r| <= |nodes|
    ensures forall i :: 0 <= i < |r| ==> r[i].Hostname != host
  {
    if |nodes| == 0 then []
    else
      var last := nodes[|nodes| - 1];
      Remote(nodes[..|nodes| - 1], host) + (if last.Hostname == host then [] else [last])
  }

  /** Taking one more node into account extends Remote by that node unless it is named `host`. */
  lemma RemoteOneMore(nodes: seq<Node>, host: string, i: int)
    requires 0 <= i < |nodes|
    ensures Remote(nodes[..i + 1], host) ==
      Remote(nodes[..i], host) + (if nodes[i].Hostname == host then [] else [nodes[i]])
  {
    assert nodes[..i + 1][..i] == nodes[..i];
  }

  /** Filtering commutes with concatenation, so the relative order is kept. */
  lemma {:induction false} RemoteAppend(a: seq<Node>, b: seq<Node>, host: string)
    ensures Remote(a + b, host) == Remote(a, host) + Remote(b, host)
  {
    if |b| == 0 {
      assert a + b == a;
    } else {
      var b' := b[..|b| - 1];
      assert (a + b)[..|a + b| - 1] == a + b';
      RemoteAppend(a, b', host);
    }
  }

  /**
   * Each node not named `host` occurs in Remote as often as in the topology;
   * every node named `host`, duplicates included, is dropped.
   */
  lemma {:induction false} RemoteOccurrences(nodes: seq<Node>, host: string, n: Node)
    ensures multiset(Remote(nodes, host))[n] == if n.Hostname == host then 0 else multiset(nodes)[n]
  {
    if |nodes| > 0 {
      var init := nodes[..|nodes| - 1];
      RemoteOccurrences(init, host, n);
      assert nodes == init + [nodes[|nodes| - 1]];
    }
  }

  /** A topology without `host` keeps every node. */
  lemma {:induction false} RemoteOfForeign(nodes: seq<Node>, host: string)
    requires forall i :: 0 <= i < |nodes| ==> nodes[i].Hostname != host
    ensures Remote(nodes, host) == nodes
  {
    if |nodes| > 0 {
      RemoteOfForeign(nodes[..|nodes| - 1], host);
      assert nodes[..|nodes| - 1] + [nodes[|nodes| - 1]] == nodes;
    }
  }

  /**
   * When exactly one node is named `host`, the remote nodes are all the
   * others, in topology order.
   */
  lemma RemoteOfUniqueLocal(nodes: seq<Node>, host: string, i: int)
    requires 0 <= i < |nodes| && nodes[i].Hostname == host
    requires forall j :: 0 <= j < |nodes| && j != i ==> nodes[j].Hostname != host
    ensures Remote(nodes, host) == nodes[..i] + nodes[i + 1..]
  {
    var before, after := nodes[..i], nodes[i + 1..];
    assert nodes == before + [nodes[i]] + after;
    RemoteAppend(before + [nodes[i]], after, host);
    RemoteAppend(before, [nodes[i]], host);
    RemoteOfForeign(before, host);
    RemoteOfForeign(after, host);
    assert Remote([nodes[i]], host) == [] by {
      assert [nodes[i]][..0] == [];
    }
  }
}
