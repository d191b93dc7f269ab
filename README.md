# clarify-conf launcher, modelled in Dafny

The launcher starts the Clarify service installer on one node of a cluster.
It reads a topology (the `clarify-nodes` descriptors and the shared
`clarify-common` settings), finds the descriptor whose host name is the
machine's own, builds the space-separated peer list from every other node,
and assembles the installer's command line in a fixed flag order.

The repository holds two versions of this program, each a complete
`package main`. They are modelled as two modules:

- `CmdConf` (`conf.dfy`) models `cmd/conf.go`. Peers are resolved through
  DNS. The user travels as the single token `"-user <u>"` and the port flag is
  `-nomad.port`. After the arguments are built, the install path gets its
  trailing separator and the java path is derived from it.
- `CmdMain` (`main.dfy`) models `cmd/main.go`. Peers are the configured
  `Address` fields. The user is two tokens and the port flag is `-nomad_port`.

Shared pieces:

- `Topology` (`topology.dfy`) holds what both files share word for word: the
  data types and `findLocalNode`, a scan for the first node named after the
  local host. It also holds the `Remote` view: the nodes not named after the
  local host, in order.
- `GoStrings` (`strings.dfy`) and `GoStrconv` (`strconv.dfy`) model the Go
  library calls the launcher relies on: `strings.Join`, `strings.HasSuffix`
  and `strconv.Itoa`. Beside them are inverses (`Split`, `ParseInt`), used to
  state that nothing is lost in rendering.
- `Outcomes` (`outcomes.dfy`) holds `Option` and `Result`. These stand in for
  Go's `(value, error)` pairs.

Both versions build their command line through the `args` builder. It is
modelled as a class `Args` whose `Args` sequence field each method extends at
its end. `newArgs` is a method that calls the builder in order. Its result is
specified by `Render`, a function from the typed values (`Invocation`) to the
token sequence. `Parse` is the model's own reader of that layout; nothing in the source
reads the line back. `ParseRender` and `RenderParse` prove that the two
functions are inverse in both directions, and `RenderInjective` that no two
invocations share a command line.

The surroundings become inputs:

- The machine's host name is a parameter.
- The DNS resolver is a function from host name to a list of address strings
  or an error.
- The located installer jar is a `Result<string>`. An `Err` value stands for
  a failed search.

Points where the code behaves differently from what one might expect of
such a launcher. The model follows the code in each case:

- The port flag is emitted for every port, `0` (unset) included. It is not
  left out when no port is configured.
- Every node whose host name equals the local one is left out of the peers,
  later duplicates included. A duplicate of the local node never becomes a
  peer.
- `cmd/conf.go` resolves every peer through DNS, even when it has a
  configured address. `cmd/main.go` passes the configured address verbatim,
  even when it is empty. In that version a remote node with an empty address
  adds an empty entry to the peer string.
- Neither file checks that the network interface carries the node's address.
  Neither file derives a missing `-address` from DNS. An empty address simply
  leaves out the `-address` flag.

## Model

| member | source | states |
|---|---|---|
| `Topology.FirstMatch` | cmd/conf.go:80-88 | the index returned is the first node whose host name equals the host; None exactly when no node has that name |
| `Topology.LocalNode` | cmd/conf.go:80-89 | succeeds exactly when some node bears the host name, and then returns the node at the first such position; otherwise fails with "node not found" (empty list included) |
| `Topology.FirstMatchUnique` | cmd/main.go:87-96 | the first matching position is unique, so a later duplicate is never the one returned |
| `Topology.FindLocalNode` | cmd/main.go:87-96 | the early-return scan (the same code as cmd/conf.go:80-89) returns exactly `LocalNode`: the first match, or "node not found" |
| `Topology.Remote` | cmd/conf.go:93-96 | the peers' nodes: none of them bears the local host name, and there are no more of them than nodes |
| `Topology.RemoteAppend` | cmd/main.go:100-106 | filtering distributes over concatenation, so the remaining nodes keep their relative order |
| `Topology.RemoteOccurrences` | cmd/main.go:103-104 | each node not named after the host occurs among the peers as often as in the topology; every node with the local name, duplicates included, occurs zero times |
| `Topology.RemoteOfForeign` | cmd/conf.go:93-102 | when no node bears the host name, every node is a peer, in order |
| `Topology.RemoteOfUniqueLocal` | cmd/conf.go:91-103 | when exactly one node bears the host name, the peers are all the other nodes in topology order |
| `GoStrings.Join` | cmd/main.go:107 | joining no parts gives ""; otherwise the length is the parts' total plus one separator between each consecutive pair |
| `GoStrings.SplitJoin` | cmd/conf.go:104 | splitting the space-joined peer string at spaces gives the peer list back whenever it is non-empty and no entry contains a space |
| `CmdMain.Addresses` | cmd/main.go:104 | one entry per node, each the node's `Address` verbatim, in order |
| `CmdMain.Peers` | cmd/main.go:98-108 | the loop yields the addresses of exactly the remote nodes, in topology order, joined by single spaces |
| `CmdConf.Resolve` | cmd/conf.go:97-101 | a successful resolution has one address per node |
| `CmdConf.ResolveSucceeds` | cmd/conf.go:93-103 | resolution succeeds exactly when every node's lookup does, and then entry i is the first address of node i |
| `CmdConf.ResolveFails` | cmd/conf.go:97-100 | a failed resolution carries the error of the first node, in order, whose lookup fails |
| `CmdConf.ResolveStopsAtFailure` | cmd/conf.go:98-100 | after a failed lookup the later nodes change nothing |
| `CmdConf.Peers` | cmd/conf.go:91-105 | the loop returns the first DNS address of each remote node, in order, joined by single spaces, or the first lookup error |
| `GoStrconv.Itoa` | cmd/conf.go:192 | the decimal rendering is non-empty and starts with '-' exactly for negative numbers |
| `GoStrconv.ParseItoa` | cmd/conf.go:192-194 | every rendered port reads back as the same number |
| `GoStrconv.ItoaParse` | cmd/main.go:186-188 | every canonical decimal string is the rendering of the number it denotes |
| `CmdConf.Render` | cmd/conf.go:123-131 | the command line has 15 tokens without an address and 17 with one |
| `CmdConf.RenderLayout` | cmd/conf.go:159-205 | layout: `-jar J`, the single token `-user U`, `-install T`, `-clarify I`, `-share S`, `-net N`, then `-address A` only for a non-empty address, then `-nomad.port P` and `-hosts H` at the end |
| `CmdConf.ParseRender` | cmd/conf.go:123-131 | reading a built command line back recovers every value, the absent address as "" |
| `CmdConf.RenderInjective` | cmd/conf.go:123-131 | two invocations with the same command line are equal, so the layout loses nothing |
| `CmdConf.RenderParse` | cmd/conf.go:159-200 | every command line of the accepted shape is the rendering of what it reads |
| `CmdConf.PortAlwaysEmitted` | cmd/conf.go:191-195 | `-nomad.port` and the decimal port are always present, "0" for an unset port |
| `CmdMain.Render` | cmd/main.go:116-124 | the command line has 16 tokens without an address and 18 with one |
| `CmdMain.RenderLayout` | cmd/main.go:152-199 | layout: `-jar J`, `-user U` as two tokens, `-install T`, `-clarify I`, `-share S`, `-net N`, then `-address A` only for a non-empty address, then `-nomad_port P` and `-hosts H` at the end |
| `CmdMain.ParseRender` | cmd/main.go:116-125 | reading a built command line back recovers every value, the absent address as "" |
| `CmdMain.RenderInjective` | cmd/main.go:116-125 | two invocations with the same command line are equal, so the layout loses nothing |
| `CmdMain.RenderParse` | cmd/main.go:152-194 | every command line of the accepted shape is the rendering of what it reads |
| `CmdMain.PortAlwaysEmitted` | cmd/main.go:185-189 | `-nomad_port` and the decimal port are always present, "0" for port 0 |
| `CmdConf.Args.constructor` | cmd/conf.go:108 | a new builder holds no tokens |
| `CmdConf.Args.Jar` | cmd/conf.go:202-205 | appends exactly `-jar`, then the path; earlier tokens unchanged |
| `CmdConf.Args.User` | cmd/conf.go:159-161 | appends exactly one token, `"-user " + user` |
| `CmdConf.Args.ToolsInstall` | cmd/conf.go:163-166 | appends exactly `-install`, then the directory |
| `CmdConf.Args.ClarifyInstall` | cmd/conf.go:168-171 | appends exactly `-clarify`, then the directory |
| `CmdConf.Args.ClarifyShare` | cmd/conf.go:173-176 | appends exactly `-share`, then the directory |
| `CmdConf.Args.NetInterface` | cmd/conf.go:178-181 | appends exactly `-net`, then the interface name |
| `CmdConf.Args.Address` | cmd/conf.go:183-189 | appends nothing for an empty address, otherwise exactly `-address`, then the address |
| `CmdConf.Args.Nomad` | cmd/conf.go:191-195 | appends exactly `-nomad.port`, then the decimal port |
| `CmdConf.Args.Hosts` | cmd/conf.go:197-200 | appends exactly `-hosts`, then the peer string |
| `CmdMain.Args.constructor` | cmd/main.go:111 | a new builder holds no tokens |
| `CmdMain.Args.Jar` | cmd/main.go:196-199 | appends exactly `-jar`, then the path; earlier tokens unchanged |
| `CmdMain.Args.User` | cmd/main.go:152-155 | appends exactly `-user`, then the user, as two tokens |
| `CmdMain.Args.ToolsInstall` | cmd/main.go:157-160 | appends exactly `-install`, then the directory |
| `CmdMain.Args.ClarifyInstall` | cmd/main.go:162-165 | appends exactly `-clarify`, then the directory |
| `CmdMain.Args.ClarifyShare` | cmd/main.go:167-170 | appends exactly `-share`, then the directory |
| `CmdMain.Args.NetInterface` | cmd/main.go:172-175 | appends exactly `-net`, then the interface name |
| `CmdMain.Args.Address` | cmd/main.go:177-183 | appends nothing for an empty address, otherwise exactly `-address`, then the address |
| `CmdMain.Args.Nomad` | cmd/main.go:185-189 | appends exactly `-nomad_port`, then the decimal port |
| `CmdMain.Args.Hosts` | cmd/main.go:191-194 | appends exactly `-hosts`, then the peer string |
| `CmdMain.NewArgs` | cmd/main.go:110-126 | a failed jar search gives its error and an empty argument list; otherwise no error and exactly the `Render` layout of the settings, the node and the peer string |
| `CmdConf.Plan` | cmd/conf.go:107-133 | a successful plan carries the located jar and the install path as configured |
| `CmdConf.PlanFails` | cmd/conf.go:109-122 | a failed plan reports, in this order, "node not found" when no node bears the host name, else the error of the first remote node whose lookup fails, else the jar search's error |
| `CmdConf.PlanSucceeds` | cmd/conf.go:109-122 | a command line is built exactly when some node bears the host name, every remote node resolves and the jar was found; its node values are those of the first node so named |
| `CmdConf.NewArgs` | cmd/conf.go:107-133 | errors come in the code's order (missing local node, then lookup failure, then jar), each with an empty argument list; otherwise exactly the `Render` layout of the plan |
| `CmdConf.WithTrailingSeparator` | cmd/conf.go:56-58 | the result ends with the separator; an already-terminated path is unchanged; otherwise exactly one separator is appended |
| `CmdConf.TrailingSeparatorIdempotent` | cmd/conf.go:56-58 | the fix-up applied twice equals the fix-up applied once |
| `CmdConf.Launch` | cmd/conf.go:52-60 | the program is the fixed-up install path followed by `jre/bin/java`; the arguments are those of `newArgs`, whose `-clarify` value is the install path before the fix-up |

## Left out

- YAML parsing and file reading (`parse`, cmd/conf.go:68-78, cmd/main.go:75-85) are left out. They are a foreign library and I/O. The topology arrives as a `Config` value, and missing sections (nil pointers) are not modelled.
- The search for the installer jar (`findInstallerJar`) is left out because it walks the filesystem. Its outcome is the `jar: Result<string>` input.
- `os.Hostname` is an operating-system query, so the host name is a parameter. Its error path is not modelled. Neither is the way both loops re-query the name on every iteration. As a result `Peers` in `CmdMain` returns a string without an error.
- `net.LookupIP` and the rendering `To4().String()` are foreign DNS and IP formatting. They are the `Lookup` oracle, which is required to return at least one address on success, as `net.LookupIP` does. The index panic on an empty answer is not modelled, and neither is the `"<nil>"` rendering of an IPv6-only answer.
- `log.Fatal` inside conf.go's `newArgs` ends the process. The model returns that message as the error, with an empty argument list.
- Process launching and output are not modelled: `exec.Command`, `exec.Cmd`, `CombinedOutput`, `Run`, the printing of the local node and of the command output, and `os.Exit`. `CmdConf.Launch` stops at the program path and argument list it would hand to `exec.Command`.
- The `main` of cmd/main.go is left out. It is glue that calls `findLocalNode`, `peers` (ignoring its error) and `newArgs`, then runs the process.
- `args.main()` (cmd/conf.go:207-209) is never called, so it is left out.
- conf.go's `main` rewrites `config.Clarify.Install` in place. The model rewrites a local copy of the configuration value instead. Nothing else holds that configuration, so no aliasing is lost.
- `NomadPort` is an unbounded integer. Go's `int` is at least 32 bits wide (64 on the usual targets), but the port is only rendered, never computed with, so the width does not matter.
- Windows path separators are not fixed: the separator is a parameter of `Launch` and `WithTrailingSeparator`.
