# Verification of the better-firewall core

A Dafny model of `bfw`, the firewall that keeps a declarative state of ordered IPv4 and IPv6
rules, policies, named sets and threat bans, compiles it into an nftables program, imports the
dialects of other firewalls, and bans addresses on its own and on a provider's word. Each part
is modelled in the form its source has: classes and loops where the code updates things in
place, functions and lemmas where it computes.

`dafny verify dfyconfig.toml` checks the whole project.

## The parts

- **nftables compiler.** `Nft` is the machine: register expressions, rules, chains, jumps,
  interval sets, in a big-step and a small-step form. `Compile` says which program a state
  compiles to, `Arena` (with `Memory` and `Emission`) builds that program imperatively, in
  expression windows cut from shared arrays, and `CompileMatch` to `CompileSets` prove what
  running it decides. `DefaultsFile`, `CompileFacts` and `PolicyLogs` say the same in outright
  keys, words, numbers and texts, down to the verdict and the log record. `SetBatch` and
  `SetOverlap` say what the batch of sets asks of the kernel, `SetCommands` and `SetFacts` what the
  set commands do and which commands and imports keep the set names apart. Meters, rate limiters
  and the fixed ICMP, DHCP, mDNS and NetBIOS matches are oracles: the theorems hold for every
  behaviour of theirs.
- **Addresses and intervals.** `Bits`, `Bytes`, `Cidr`, `Intervals`, `TieOrder`, `AddressSets` and
  `Render` cover the byte arithmetic of prefixes (section 3.1 of RFC 4632, section 2.3 of RFC
  4291), the in-place merge of intervals, whatever order the library sort leaves equal starts in,
  and their printed form.
- **iptables and firewalld importers.** `Iptables`, `IptSave`, `IptImport` and `IptPolicy` take a
  saved dump from tokens to merged lists and one global policy; `DumpAcceptance` says on the lines
  and options themselves what is accepted. `Firewalld`, `Layouts`, `ZoneFallback` and `Services`
  flatten zones and service includes; `Merge` is the ordered upsert both end in. `ImportValid` and
  `ImportCompiled` take a saved dump through import, compilation and machine to the verdict of the
  saved chain and its policy token.
- **Threat bans.** `ThreatBans` and `BatchFacts` apply batches, `CrowdSec` is the poller as a step
  machine interleaved with local bans and sweeps, `Detector` is the sliding-window detector.
- **Command line.** `RuleEngine` is the add, insert and delete walk, with `AddressText` for what it
  compares as text and `RuleCommands` for what it does place by place, `Diff` the line diff,
  `Command` and `Parser` the printer and parser of rule commands. `Reparse`, `ReparseFront`,
  `ReparseBody`, `RoundTrip` and `ParsedNormal` prove that one undoes the other; `ParserLaws` and
  `ParserFacts` are about the spellings that the printer never writes and what a command means.

## What the code does not keep

Where the code and its documentation disagree the model follows the code. In each case an
all-inputs lemma says exactly when the promise holds, or a lemma gives a failing input.

- Merging overwrites the end of an unbounded interval by that of a later one, so a set or ban
  list with a prefix that reaches the top of the address space can lose addresses
  (`AddressSets.AddressSetLoses`). `Intervals.Lossless` is the test on the sorted list that says
  whether it does: a set means its elements, and bans take precedence over every rule, exactly
  when it holds (`AddressSets.AddressSetMeaning`, `CompileSets.BanPrecedence`).
- The library sort compares starts only and is not stable, so between elements of one start its
  order decides whether addresses are lost (`TieOrder.TieOrderDecides`). The compiled sets take an
  arbitrary sort as a parameter; `TieOrder.OrderFree` is the test that no order can spoil, and bans
  take precedence under every sort exactly when it holds (`CompileSets.BanPrecedenceAnyOrder`).
- The IPv6 half of a set named "a" has the kernel name of the IPv4 half of a set named "a6".
  `set create` refuses such a name, and no run of set commands brings the two together
  (`SetCommands.CommandsLoad`). An import compares names for equality only: it can add the twin,
  and the compiled batch then creates one name for IPv4 and for IPv6 keys
  (`SetCommands.ImportedTwin`; `SetCommands.MergeApartIff` and `SetBatch.LoadsIff` say when).
- Port lists are not merged: "allow 80:90,85:100/tcp" is accepted, and its port set has overlapping
  intervals (`SetOverlap.CrossedPorts`; `SetOverlap.LoadableIff` says which states are free of both
  name clashes and overlaps).
- App groups are compared as text that is not unique: the wildcard spells like an explicit prefix of
  length zero (`RuleEngine.EverywhereIsOneGroup`), and a profile named "any" like a side without one
  and without ports, so that an app delete takes another profile's rules along
  (`RuleEngine.AppTupleCollides`). Over profiles of one word that are not spelled like ports the text
  is exact (`RuleEngine.AppTextExact`).
- The printer of interval sets unmaps IPv4-mapped IPv6 addresses, so a range that begins or ends
  at one is printed as IPv4 text (`Render.WriteRangeElem` says exactly when).
- The zone overlap check compares interface names for equality although the compiler reads a
  trailing '+' as a wildcard (`Firewalld.OneZoneExact`). Traffic outside all bindings meets no
  emitted rule even when the default zone is bound, so the flat list decides like firewalld exactly
  when a test on the layout fails: a free interface name, a gap between the bound prefixes and a
  live element of the default zone (`ZoneFallback.FallbackIff`, `ZoneFallback.DefaultZoneMissed`).
- Merging imported rules is last-writer-wins per tuple, so first match survives exactly for the
  packets whose deciding rule is not repeated later with another action
  (`IptPolicy.ImportVerdict`).
- A catch-all that is in place keeps a new one out even when it is disabled or expired, and then
  the global policy shows through (`IptPolicy.DisabledCatchallDenies`; `IptPolicy.EmulationIff`
  says exactly when the emulation holds).
- A pending batch with an expired ban is retried until the service restarts
  (`CrowdSec.ExpiredBatchStuck`); a decision that runs out within the second it is read in makes
  such a batch at once (`CrowdSec.ShortDecisionStuck`).
- The canonical command of a rule loses an explicit zero-length prefix and any direction that
  does not follow from the interfaces; with two interface clauses on a rule that is not routed
  it does not parse at all (`RoundTrip.ParserUndoesPrinter`, `RoundTrip.MisdirectedRefused`). The
  parser accepts commands that make both kinds of rule (`ParsedNormal.WildcardPrefixLost`,
  `ParsedNormal.BothInterfacesRefused`).

## Assumptions stated in contracts

- Rule directions are valid and interface patterns fit the kernel's 16-byte field
  (`Store.Encodable`); packets carry interface names of at most 15 bytes.
- The provider keeps its own records (address, reason and end of each decision, in nanoseconds), and
  its answers are faithful to them (`CrowdSec.Faithful`): ids are unique within an answer, a
  decision is not sent as over while an earlier one of the same id is still ahead, and a failed
  stream call does not move the provider's cursor (`CrowdSec.Step`).
- The library sort returns the intervals in start order, each as often as it was given
  (`Intervals.IsSorting`); nothing is assumed about equal starts.
- The kernel refuses a batch that creates one set name with two key lengths or an interval set with
  different intervals that share a key (`SetOverlap.Loadable`); a set that is looked up is the one of
  that name (`SetBatch.BatchByName`).
- A stored address is canonical, so that equal texts are equal addresses; an ICMP type or reject
  option with an empty argument, which `iptables-save` does not write, is read as none.
- Fresh ids really are fresh where distinct ids are claimed (`Merge.FreshIds`).
- Names and comments are no words of the command grammar where parsing a printed command is
  concerned (`Reparse.CleanNames`).

## Model

| member | source | states |
|---|---|---|
| CompileTheorems.CompiledVerdict | internal/backend/nft/compile.go:613-819 | whenever compilation succeeds, for every state, defaults map and packet, running a base chain of the compiled program gives the reference verdict: panic drops all; else IPv6-off handling, the fixed rules, the first active matching rule of the packet's family and direction, then the policy; three jump levels suffice |
| CompileTheorems.CompiledMachineHalts | internal/backend/nft/compile.go:613-819 | the small-step machine started at a base chain halts, with that reference verdict |
| Nft.EvalIsRun | internal/backend/nft/compile.go:739-745 | every big-step evaluation of a chain is reached by the small-step machine, below any call stack |
| Nft.TraverseIsRun | internal/backend/nft/compile.go:711-746 | the machine started at a base chain halts with the verdict of the big-step traversal, the base policy included |
| CompileTheorems.EvalPolicy | internal/backend/nft/compile.go:765-783 | after the user rules, the skip-to-policy, after-logging, reject and track detours all end in the verdict of the policy |
| CompileTheorems.EvalIpv6Off | internal/backend/nft/compile.go:728-737 | with IPv6 off, an IPv6 packet is accepted via loopback on input and output and dropped otherwise, before any jump |
| DefaultsFile.InputDefault | internal/backend/nft/compile.go:371-395 | an input packet that no fixed or user rule decides gets the verdict of DEFAULT_INPUT_POLICY (accept, drop or reject in any letter case), and that of the stored input word when the key is missing or says anything else, whatever the other keys say |
| DefaultsFile.OutputDefault | internal/backend/nft/compile.go:371-395 | the same of output packets and DEFAULT_OUTPUT_POLICY |
| DefaultsFile.ForwardDefault | internal/backend/nft/compile.go:371-395 | the same of forwarded packets and DEFAULT_FORWARD_POLICY |
| DefaultsFile.Ipv6KeyDecides | internal/backend/nft/compile.go:684-687 | the IPV6 key, when present, decides over the stored flag: unless it says yes, IPv6 packets not via loopback are dropped |
| DefaultsFile.PanicDrops | internal/backend/nft/compile.go:694-710 | in panic every packet is dropped, whatever the file says |
| CompileFacts.FixedVerdict | internal/backend/nft/compile.go:844-938 | with the opaque rules out of the way: loopback "lo" passes on input and output, routing header 0 is dropped, then banned sources on input and forward, then established and related traffic passes, then INVALID input and IPv4 input to an address of a type other than 2, 3 and 5 is dropped |
| CompileFacts.RuleDecides | internal/backend/nft/compile.go:801-811 | what the fixed rules leave is decided by the first rule of the packet's family and direction that is switched on, has no expiry time or is before it, and matches: accept, drop, reject, or for a limit reject of NEW packets over the meter of its id and family |
| CompileFacts.ProtocolNumbers | internal/backend/nft/compile.go:1688-1716 | the protocol words stand for the assigned numbers 1, 2, 6, 17, 41, 47, 50, 51, 58 and 112 |
| CompileFacts.PortMeaning | internal/backend/nft/compile.go:1718-1761 | a bare port range is about tcp and udp, one with a protocol about that protocol only |
| CompileFacts.PlusIsWildcard | internal/backend/nft/compile.go:1781-1807 | "eth+" stands for the names that begin with "eth", a name without the sign for itself |
| CompileFacts.MeterKey | internal/backend/nft/compile.go:1300-1369 | a meter counts by source address and destination port, port zero for other protocols, in the 32-bit registers for IPv4 and the wide ones for IPv6 |
| CompileFacts.MetersCompiled | internal/backend/nft/compile.go:1300-1330 | the compiled sets have a meter of a name if and only if a limit rule in force has that id, with "6" appended for IPv6 |
| CompileFacts.CompilesIff | internal/backend/nft/compile.go:613-819 | a state compiles if and only if it is in panic or every unexpired ban and set element is an address and every rule in force has a known action and protocol, ICMP of its own family without ports, and an ICMP type only with ICMP |
| CompileFacts.BannedWhile | internal/backend/nft/compile.go:1065-1077 | a source is banned while some ban that covers it has not expired |
| PolicyLogs.PolicyLogged | internal/backend/nft/compile.go:971-1052 | what no user rule decides: blocked packets are logged at every level but off, allowed ones above low, three a minute after a burst of ten below high, with the prefixes as written |
| PolicyLogs.LevelCompiled | internal/backend/nft/compile.go:688-691 | outside panic the compiled logging chains are those of the stored level, and of low when the state names none |
| PolicyLogs.AuditLogged | internal/backend/nft/compile.go:971-1052 | the audit record in front of all rules: NEW packets at medium, all at high within the limit, all at full |
| PolicyLogs.DenyLogged | internal/backend/nft/compile.go:971-1052 | packets that the fixed rules drop: INVALID ones are recorded as such above low |
| PolicyLogs.DenyLoggedLow | internal/backend/nft/compile.go:1013-1024 | at low an INVALID packet within the limit leaves no record, any other a blocked one |
| PolicyLogs.AllowLogged | internal/backend/nft/compile.go:971-1052 | the chain for what is allowed leaves a record at every level but off, within the shared limit below high |
| PolicyLogs.LimitLogged | internal/backend/nft/compile.go:784-799 | a connection over a rule's limit is logged three a minute after a burst of five, unless logging is off, and refused |
| PolicyLogs.UserRecord | internal/backend/nft/compile.go:1244-1264 | the record of a rule: its prefix by the action, NEW packets only for log, within the shared limit |
| CompileFixed.EvalBefore | internal/backend/nft/compile.go:844-938 | each before-chain decides as the fixed order says: loopback, routing header 0, bans, established or related, then the opaque accepts, INVALID and non-local drops |
| CompileUser.EvalBoth | internal/backend/nft/compile.go:801-811 | a user chain holding both family lists decides as the first active matching rule of the packet's family, and otherwise leaves no trace |
| CompileUser.EvalRule | internal/backend/nft/compile.go:1231-1294 | the entries of one rule decide a packet iff the rule is active, of that direction and matches; they add no user log record beyond the log jump's |
| CompileUser.EvalLimit | internal/backend/nft/compile.go:1300-1369 | the meter branches reject a NEW packet over the limit and accept every other packet that matches |
| CompileMatch.TestsMatch | internal/backend/nft/compile.go:1371-1458 | the emitted register expressions of a variant are a pure test of family, interfaces, protocol, ICMP type, addresses, sets and ports, independent of registers and state |
| CompileMatch.VariantsExact | internal/backend/nft/compile.go:1718-1761 | a rule means the union of its protocol variants, and no packet fits two of them |
| CompileMatch.TestsIface | internal/backend/nft/compile.go:1781-1807 | the interface match holds iff the name equals the pattern, or extends it when the pattern ends in '+' |
| CompileMatch.PortSetExact | internal/backend/nft/compile.go:1512-1542 | the anonymous port set has exactly the ports of the selected ranges, in plain and in interval form |
| CompileMatch.TestsPorts | internal/backend/nft/compile.go:1487-1543 | a port match accepts iff the port lies in one of the ranges that speak about the protocol, and everything when none does |
| Arena.CompileGraph | internal/backend/nft/compile.go:613-819 | the imperative compile: however windows are shared and whatever the capacity hints, and whatever order the library sort leaves equal starts in, every chain of the finished object graph reads back as the specified rule list, the sets and the batch they are created by are the specified ones, and it fails exactly when the specification fails |
| Arena.Compiled.ExprSliceWithChunk | internal/backend/nft/compile.go:460-479 | hands out a window of exactly the hinted size that overlaps no earlier window and no stored rule; everything stored still reads the same |
| Arena.Compiled.Append | internal/backend/nft/compile.go:456-479 | appending in place or into a new array changes no stored rule and no slice apart from the grown one |
| Arena.Compiled.AddRuleObject | internal/backend/nft/compile.go:481-496 | a stored rule reads back as passed, earlier handles and their contents stay as they are |
| Arena.Compiled.RuleMatch | internal/backend/nft/compile.go:1371-1458 | builds the match of a variant in an owned slice equal to the specified expressions, and the same set allocations |
| Arena.Compiled.CompileRule | internal/backend/nft/compile.go:1231-1294 | one rule stores exactly the specified entries in the specified chains, in order, or reports the specified error |
| Arena.Compiled.CompileLimit | internal/backend/nft/compile.go:1300-1369 | the two meter branches are stored as specified although they share one prefix |
| Arena.Compiled.AppendPortExprs | internal/backend/nft/compile.go:1487-1543 | counts, compares or builds the anonymous set exactly as specified |
| Arena.CompileAddressSet | internal/backend/nft/compile.go:1079-1148 | collects, sorts and merges both families of an address list in place, for every library sort; fails iff some element is no address |
| Memory.WindowFresh | internal/backend/nft/compile.go:460-479 | a new window is disjoint from all earlier windows and from every stored rule |
| Memory.AppendOwned | internal/backend/nft/compile.go:1252-1271 | an append through an owned slice keeps all stored rules and every slice apart from it |
| Memory.RuleAdded | internal/backend/nft/compile.go:481-496 | adding an object keeps all earlier objects in place and reads back as passed |
| Emission.ProgramChain | internal/backend/nft/compile.go:613-819 | the rules in emission order, split by chain, are the specified program |
| CompileSets.BanSetsExact | internal/backend/nft/compile.go:1065-1148 | the compiled ban sets have a source iff merging kept it; they never have another source; under exact merging they have exactly the sources of unexpired bans |
| CompileSets.BanPrecedence | internal/backend/nft/compile.go:821-863 | for every ban list, family and library sort: every valid state with those bans that compiles drops every banned source on forward and on input not via loopback, whatever its conntrack state and the user rules, if and only if the sorted bans pass the merge test or a bad address keeps such states from being compiled |
| CompileSets.BanPrecedenceAnyOrder | internal/backend/nft/compile.go:1203-1227 | that holds under every sort the library may be if and only if the bans pass the test that looks at all intervals of one start |
| CompileSets.InBanSetDropped | internal/backend/nft/compile.go:844-863 | a source that the compiled ban set kept is dropped in every state, whatever its conntrack state and the user rules |
| CompileSets.BannedSourceAccepted | internal/backend/nft/compile.go:1203-1227 | a concrete state with two unexpired bans where a banned source is accepted, because merging loses it |
| CompileSets.TiedBansDepend | internal/backend/nft/compile.go:1203-1227 | bans on 192.0.0.0/8 and 192.0.0.0/2 take precedence under insertion sort and not under another sort that the library may be |
| CompileSets.NamedSetMeaning | internal/backend/nft/compile.go:1054-1148 | with kernel names apart, a set reference matches exactly the elements of that set and family, for every address, if and only if they pass the merge test |
| SetBatch.LoadsIff | internal/backend/nft/compile.go:1054-1063 | for every state, the compiled batch creates each set name with one key length if and only if no set name is another one with "6" appended |
| SetBatch.BatchByName | internal/backend/nft/compile.go:586-599 | with set names apart, every compiled set is created exactly once and a lookup by its name finds its own contents |
| SetOverlap.AddressSetApart | internal/backend/nft/compile.go:1116-1132 | no compiled address set has overlapping intervals, for every library sort |
| SetOverlap.PortSetOverlap | internal/backend/nft/compile.go:1512-1542 | a compiled port set has overlapping intervals if and only if two different ranges of it share a port |
| SetOverlap.LoadableIff | internal/backend/nft/compile.go:586-599 | for every valid state, the batch has one key length a name and no overlapping intervals if and only if no set name is another one with "6" appended and no port list of an active rule has two different ranges that share a port |
| SetOverlap.CrossedPorts | internal/cli/parser.go:641-684 | "allow 80:90,85:100/tcp" is accepted, and a state with its rule fails that test |
| SetCommands.SetCreate | internal/cli/commands_ext.go:90-123 | creates an empty set, or refuses a bad, a taken or a colliding name |
| SetCommands.CreateExact | internal/cli/commands_ext.go:113-119 | the guard refuses exactly the valid names that would bring two kernel names together |
| SetCommands.GoodNames | internal/cli/commands_ext.go:29-32 | a set name has at least one character, and only letters, digits, hyphens and underscores |
| SetFacts.UnknownRefused | internal/cli/commands_ext.go:125-300 | adding to, deleting from and destroying a set that does not exist is refused |
| SetFacts.AddedElements | internal/cli/commands_ext.go:125-176 | adding takes addresses only, at least one, and puts what is new behind the others, each once, changing nothing else |
| SetFacts.DeletedElements | internal/cli/commands_ext.go:178-227 | deleting takes addresses only, each as often as the set has it, and takes these out, changing nothing else |
| SetFacts.DeletedOne | internal/cli/commands_ext.go:206-220 | deleting one element leaves the order of the others |
| SetFacts.DestroyedSet | internal/cli/commands_ext.go:268-306 | a set that rules use is destroyed by force only, and then with exactly these rules |
| SetCommands.SetAdd | internal/cli/commands_ext.go:125-176 | appends each new element in order, refusing as specified |
| SetCommands.SetDel | internal/cli/commands_ext.go:178-227 | takes the first occurrence of each element out, or refuses them all |
| SetCommands.AddThenDeleteElements | internal/cli/commands_ext.go:125-227 | deleting elements that were just added new brings the state back |
| SetCommands.SetDestroy | internal/cli/commands_ext.go:268-306 | removes the set and, by force only, every rule that uses it, refusing as specified |
| SetCommands.CommandsLoad | internal/cli/commands_ext.go:90-306 | every run of set commands keeps kernel names apart, elements valid and rule references resolved, so that the compiled batch has every name once and every rule's set with the key length of the rule's family |
| SetCommands.MergeImportedSets | internal/impexp/impexp.go:183-205 | the merge loop computes the union by name, without comparing imported elements among themselves |
| SetCommands.MergedMeaning | internal/impexp/impexp.go:183-205 | after the merge each name means the addresses it meant on either side |
| SetCommands.MergeApartIff | internal/impexp/impexp.go:183-205 | the merged names stay apart if and only if no name of either side is another one with "6" appended |
| SetCommands.ImportedTwin | internal/impexp/firewalld.go:829-863 | with a set "a", `set create` refuses "a6" but an imported ipset "a6" is merged; the state compiles and its batch creates one name for 16-byte and for 4-byte keys |
| AddressSets.AddressSetExact | internal/backend/nft/compile.go:1079-1148 | a compiled interval set has exactly the addresses that merging keeps, and only addresses of its elements, for every library sort |
| AddressSets.AddressSetMeaning | internal/backend/nft/compile.go:1079-1148 | the set has exactly the addresses of its elements if and only if the sorted elements pass the merge test: after each one that reaches the top the later ones leave no gap |
| AddressSets.AnyOrderExact | internal/backend/nft/compile.go:1203-1227 | every sort the library may be merges the elements exactly if and only if they pass the test that looks at all intervals of one start |
| CompileLogging.LoggingNeutral | internal/backend/nft/compile.go:1244-1264 | two states that differ in log flags and logging level only: both compile or neither does, and every packet gets the same verdict |
| CompileLogging.UserLogAttributed | internal/backend/nft/compile.go:1244-1264 | for a NEW packet or a log-all rule the user log gains at most one record, with the deciding rule's prefix; an unlogged deciding rule and level off gain none |
| CompileLogging.UndecidedUnlogged | internal/backend/nft/compile.go:971-984 | a packet that no user rule hits leaves the user chain without any record or limiter draw |
| Cidr.IntervalEnd | internal/backend/nft/compile.go:1180-1199 | the bytewise loop computes the first address after the prefix, or none at the top of the space |
| Cidr.MaskCompareExact | internal/backend/nft/compile.go:1827-1894 | the mask-and-compare match accepts exactly the addresses of the prefix |
| Cidr.IntervalExact | internal/backend/nft/compile.go:1180-1199 | mask-and-compare and the interval [network, end) denote the same addresses, an overflowing end meaning unbounded |
| Cidr.CidrMaskBytes | internal/backend/nft/compile.go:1896-1924 | the mask has exactly the given number of leading one bits |
| Intervals.MergeAddrIntervals | internal/backend/nft/compile.go:1203-1227 | sorts by any library sort and compacts within the array: each element is read before its slot is overwritten, and the kept front is the compacted list |
| Intervals.CompactSeparates | internal/backend/nft/compile.go:1203-1227 | the merged intervals increase strictly with a gap between neighbours, and only the last can be unbounded |
| Intervals.CompactNarrows | internal/backend/nft/compile.go:1203-1227 | merging never adds an address |
| Intervals.CompactKeeps | internal/backend/nft/compile.go:1203-1227 | exactly which addresses the merged list still covers, for every sorted input |
| Intervals.MergeExactIff | internal/backend/nft/compile.go:1203-1227 | merging is exact if and only if, behind every unbounded interval that is not last, the later ones in order leave no gap up to the top |
| Intervals.LostBelow | internal/backend/nft/compile.go:1218-1224 | a sorted list that fails the test loses an address of the space its ends lie in |
| Intervals.MergeBounded | internal/backend/nft/compile.go:1203-1227 | without an interval reaching the top of the space the merged union is the input's union |
| TieOrder.EveryOrderLossless | internal/backend/nft/compile.go:1207-1209 | merging is exact for every order of equal starts if and only if the list passes one test on any of its sorted copies |
| TieOrder.LossyOrder | internal/backend/nft/compile.go:1207-1209 | a list that fails that test has an order of equal starts in which merging loses an address |
| TieOrder.TieOrderDecides | internal/backend/nft/compile.go:1207-1224 | of a bounded and an unbounded interval with one start, one order merges exactly and the other loses an address |
| TieOrder.MergeLosesAddresses | internal/backend/nft/compile.go:1218-1224 | 0.0.0.0/0 with 0.0.0.5/32 loses address 7: the end of an unbounded interval is overwritten |
| Render.PrefixLen | internal/backend/nft/render.go:286-331 | finds the prefix length iff the interval is one aligned block, the wrapped all-zero end included |
| Render.DecIp | internal/backend/nft/render.go:333-344 | decrements the big-endian address by one; zero wraps to all ones |
| Render.WriteRangeElem | internal/backend/nft/render.go:230-272 | the printed prefix or range denotes exactly the interval, unless it spells an IPv4-mapped IPv6 address; then it denotes no address of the interval's family |
| Render.MappedEndMisspelt | internal/backend/nft/render.go:274-284 | a concrete IPv6 interval whose printed end reads as an IPv4 address |
| Render.WritePortRange | internal/backend/nft/render.go:230-272 | the printed ports denote exactly the port interval, an all-zero end meaning up to 65535 |
| Rules.SameTupleSameMatches | internal/rule/rule.go:226-263 | rules of one tuple have one direction and match the same packets |
| Rules.TupleEquivalence | internal/rule/rule.go:226-263 | tuple equality is an equivalence |
| PortOrder.SortAdmits | internal/rule/rule.go:346-371 | normalizing the order of a port list changes neither the protocols it speaks about nor the ports it admits |
| PortOrder.SortOrders | internal/rule/rule.go:364-369 | the normalized list is in order |
| PortOrder.SortSays | internal/rule/rule.go:346-372 | the normalized list is the stable sort by low port, then by protocol text |
| Merge.MergeRules | internal/impexp/impexp.go:137-182 | the loop that overwrites or appends computes the ordered upsert, and its count |
| Merge.MergeKeepsOrder | internal/impexp/impexp.go:137-172 | existing rules keep their place, tuple, id, disabled flag and expiry, and tuples stay unique |
| Merge.UpdatedByLast | internal/impexp/impexp.go:137-172 | action, log and comment of a kept rule come from the last source rule of its tuple |
| RuleCommands.MergesRule | internal/impexp/impexp.go:137-182 | an imported rule of a new identity goes to the end, under a drawn id if its own is empty or taken; a stored one takes its action, log flag and comment and keeps id, switch and expiry, and counts as changed only if one of the three is new |
| Merge.MergeAppends | internal/impexp/impexp.go:137-172 | new tuples are appended in the order of first occurrence, and no tuple is lost |
| Merge.MergeKeepsIdsDistinct | internal/impexp/impexp.go:137-182 | ids stay distinct when drawn ids are fresh |
| Merge.MergeTwice | internal/impexp/impexp.go:137-172 | merging the same source a second time changes nothing, whatever ids are drawn |
| Merge.MergedVerdict | internal/impexp/impexp.go:137-172 | merged into an empty list the first match is that of the source, with the action of the last source rule of that tuple |
| Merge.DistinctMerge | internal/impexp/impexp.go:137-172 | with distinct tuples the merged list decides every packet as the source does |
| Iptables.GatherExact | internal/impexp/iptables.go:599-840 | the option loop keeps the meaning of a saved rule's matches: no option is lost, none counts twice |
| Iptables.RuleExact | internal/impexp/iptables.go:841-940 | the model rule matches a packet of its family exactly when the saved rule does |
| Iptables.ParseFaithful | internal/impexp/iptables.go:577-940 | every accepted rule body keeps its meaning outside established and related: emitted, skipped or an unconditional return |
| Iptables.ParseSpec | internal/impexp/iptables.go:577-940 | the parse loop computes that outcome, every refusal included |
| IptSave.ParseSave | internal/impexp/iptables.go:228-325 | the save parser accepts and builds exactly what the line-by-line specification does |
| IptSave.InsertShift | internal/impexp/iptables.go:303-305 | growing the slice and copying its tail inserts at the requested position |
| IptSave.FoldExact | internal/impexp/iptables.go:228-325 | each chain of the parsed dump holds the rules and the policy that restoring the dump would build, -I positions included |
| IptImport.ImportChain | internal/impexp/iptables.go:489-537 | the chain loop emits the specified rules, with truncation after an unconditional return |
| IptImport.ImportStream | internal/impexp/iptables.go:413-545 | one dump: non-filter tables, policies and builtin chains in declaration order, refusals included |
| IptImport.ChainFaithful | internal/impexp/iptables.go:505-537 | first match over the emitted rules of a chain is what running the saved chain gives, for every packet outside established and related |
| IptImport.TableFaithful | internal/impexp/iptables.go:486-537 | each builtin chain decides the packets of its own direction only |
| IptImport.StreamFaithful | internal/impexp/iptables.go:413-545 | an accepted dump's rules decide as the restored chains and its policies are the declared ones |
| IptPolicy.ImportIPTables | internal/impexp/iptables.go:46-173 | the whole import computes the specified state, or leaves the caller's state as it was |
| IptPolicy.AppendPolicyCatchall | internal/impexp/iptables.go:1170-1199 | appends the catch-all unless the last rule of the direction already is it |
| IptPolicy.CatchallEmulates | internal/impexp/iptables.go:1165-1199 | with its catch-all in place a family decides under any global policy as under its own; other directions are untouched |
| IptPolicy.EmulationIff | internal/impexp/iptables.go:1165-1199 | a family decides every packet under the global policy as under its own if and only if both policies act alike, its catch-all is new or active, or the rules before the inactive one decide every packet |
| IptPolicy.UnconditionalEmulates | internal/impexp/iptables.go:1165-1199 | an active unconditional rule in front of an inactive catch-all is enough |
| IptPolicy.DisabledCatchallDenies | internal/impexp/iptables.go:1185-1195 | with the accept catch-all of an earlier import disabled, importing the same policies again denies IPv4 packets that the family's own policy accepts |
| IptPolicy.PolicyEmulation | internal/impexp/iptables.go:107-173 | for any prior policies and any mix of declared, undeclared and missing chains, each enabled family decides every packet under the new global policy as under its own effective policy |
| IptPolicy.ImportVerdict | internal/impexp/iptables.go:46-173 | imported into empty lists, every packet outside established and related gets the verdict of the saved chain, except that a rule's action is that of the last saved rule of its tuple |
| IptPolicy.ImportFaithful | internal/impexp/iptables.go:46-173 | a tuple-distinct dump imported into empty lists keeps every such verdict exactly |
| ImportValid.ImportStaysValid | internal/impexp/iptables.go:46-173 | a dump whose interface names fit the kernel's field, imported into a valid state without rules, gives a valid state: its addresses and ports are |
| ImportCompiled.ImportRuns | internal/impexp/iptables.go:46-173 | a tuple-distinct dump whose interface names fit, imported into empty lists, compiled and run: every packet of the family that no fixed rule decides gets the verdict of its saved chain and policy |
| IptPolicy.ImportTwice | internal/impexp/iptables.go:1185-1195 | importing the same dumps again changes neither rules nor policies and adds no second catch-all |
| IptPolicy.CatchallReads | internal/impexp/iptables.go:1170-1202 | a catch-all matches every packet of its family, is neither disabled nor logged, and its comment names the chain and the policy |
| ImportCompiled.DumpDecides | internal/impexp/iptables.go:46-173 | on the tokens of the dump: a packet that the first applicable saved rule accepts, drops or rejects gets that verdict from the machine, and one that reaches the end of its chain, or a return, gets accept, drop or reject by the chain's policy token; with a missing or unset token the stored word decides |
| ImportCompiled.ImportedPolicies | internal/impexp/iptables.go:46-173 | the global policy after an import is, by tokens and stored words, the one of the dump or dumps, the strictest where IPv4 and IPv6 differ |
| DumpAcceptance.RefusedIff | internal/impexp/iptables.go:577-944 | a rule body is refused if and only if an option is unreadable, two clash, a module, ICMP type or port lacks its protocol, conntrack states are not the preamble of the chain, a reject kind is unknown or lacks its target, or a return has conditions |
| DumpAcceptance.AcceptedIs | internal/impexp/iptables.go:577-944 | an accepted body becomes a rule of its target, nothing, or the end of its chain |
| DumpAcceptance.EmitCarries | internal/impexp/iptables.go:577-944 | the rule carries the comment of the dump and neither profile, log flag, expiry nor set |
| DumpAcceptance.DumpReadIff | internal/impexp/iptables.go:228-326 | a dump is read if and only if tables open outside one another and once, every line stands in a table, chains are declared once, inserts name a place the chain has, and the last table is closed |
| DumpAcceptance.LineRestores | internal/impexp/iptables.go:290-312 | an append puts its rule last, an insert at its place with the later rules one place down |
| DumpAcceptance.ForeignRefused | internal/impexp/iptables.go:426-446 | rules in another table than filter, or a policy other than accept on one of its builtin chains, refuse the dump |
| DumpAcceptance.StreamRefusedIff | internal/impexp/iptables.go:413-544 | a dump is refused if and only if it cannot be read, another table is in use, or a builtin chain has an unknown policy or a refused rule before its end |
| DumpAcceptance.ImportRefusedIff | internal/impexp/iptables.go:46-110 | an import is refused if and only if one of its dumps is, or if they give no rule and declare no policy |
| Firewalld.NestedOrDisjoint | internal/impexp/firewalld.go:609-615 | two prefixes neither of which contains the other share no address |
| Firewalld.JoinExact | internal/impexp/firewalld.go:1207-1244 | the joined source holds iff the zone binding and the element's own source both do; a dead join means they never do |
| Firewalld.ExpandExact | internal/impexp/firewalld.go:1198-1286 | an element expanded over all bindings acts on exactly the packets of the zone that it matches |
| Firewalld.ZoneExact | internal/impexp/firewalld.go:1063-1069 | a zone's rules decide its packets by the first matching element in file order, and no other packet |
| Firewalld.Loader.Emit | internal/impexp/firewalld.go:1198-1286 | the expansion loop appends the specified rules to both family lists, or reports the specified refusal |
| Firewalld.Loader.CheckZoneOverlap | internal/impexp/firewalld.go:1078-1131 | accepts iff no two bindings of different zones overlap by the code's own test |
| Firewalld.Loader.EmitZones | internal/impexp/firewalld.go:1035-1071 | selects the active zones, checks overlap and stages all elements as specified, refusing exactly when the specification does |
| Firewalld.OneZoneExact | internal/impexp/firewalld.go:1078-1131 | zones that pass the overlap check assign every packet to at most one zone if and only if no two of them hold interface patterns that share a name |
| Firewalld.WildcardZones | internal/impexp/firewalld.go:1096-1100 | zones bound to eth+ and eth0 pass the check, and a packet on eth0 belongs to both |
| Firewalld.ZonesFlattened | internal/impexp/firewalld.go:1035-1286 | for every accepted layout with such patterns apart, each packet belongs to at most one active zone and the flat list decides it as dispatching to that zone does |
| Firewalld.UnboundTraffic | internal/impexp/firewalld.go:1043-1059 | traffic outside every active zone meets no emitted rule, even where a default zone has bindings of its own |
| Layouts.UnboundDefaultDecides | internal/impexp/firewalld.go:1043-1059 | with nothing bound and the default zone listed once, the layout is accepted unless an element speaks about neither family, and every packet is decided as by the first matching element of that zone |
| Layouts.BoundZoneDecides | internal/impexp/firewalld.go:1035-1071 | in an accepted layout a packet that satisfies a binding of one zone and none of another is decided by the first matching element of that zone |
| Layouts.UnboundZonesSilent | internal/impexp/firewalld.go:1043-1059 | where something is bound, a packet that satisfies no binding meets no rule: elements of unbound zones never act |
| Layouts.RefusedIff | internal/impexp/firewalld.go:1035-1131 | where something is bound, a layout is refused if and only if an unbound default zone stands beside it, two zones hold conditions the import will not tell apart, or an element does not fit a condition of its zone |
| Layouts.ZoneCarries | internal/impexp/firewalld.go:1198-1286 | every rule staged for a zone carries the action, log flag and comment of one of its elements |
| ZoneFallback.FallbackIff | internal/impexp/firewalld.go:1035-1071 | for accepted layouts with patterns apart, the flat list decides every arriving packet of a family like firewalld with its default-zone fallback if and only if the layout fails a test: some interface name is free, and some element of the default zone has a live protocol and an address beyond the bound sources |
| ZoneFallback.NameFreeExact | internal/impexp/firewalld.go:1035-1071 | some interface name satisfies no bound pattern if and only if the beginning of one, with at most one more byte, does not |
| ZoneFallback.PlusTakesAll | internal/impexp/firewalld.go:1035-1071 | a zone bound to "+" leaves no interface name free |
| ZoneFallback.GapExact | internal/impexp/firewalld.go:1107-1131 | some address of a block lies in no bound prefix if and only if the block's start or some prefix's end does |
| ZoneFallback.InterfacesOnly | internal/impexp/firewalld.go:1035-1071 | with interface bindings alone, an element without ipsets acts if and only if its protocol and ports can be met |
| ZoneFallback.DefaultZoneMissed | internal/impexp/firewalld.go:1043-1059 | a default zone bound to eth0 that opens port 22: firewalld accepts ssh on eth1, the imported list does not decide it |
| Firewalld.ImportedZones | internal/impexp/firewalld.go:1035-1286 | merged into an empty list, tuple-distinct zone rules keep the dispatch verdict |
| Services.Resolver.ResolveService | internal/impexp/firewalld.go:746-787 | terminates on every include graph, restores the path on every way out, and resolves as specified |
| Services.ResolvedPreorder | internal/impexp/firewalld.go:746-787 | a resolved service lists the ports and protocols of its include tree in preorder |
| Services.ResolvesExactly | internal/impexp/firewalld.go:746-787 | a service resolves iff no undefined service and no cycle is reachable and all reachable destinations agree per family |
| Services.NameMeaning | internal/impexp/firewalld.go:791-827 | a file is used as it is and hides the known ports of its name, a name without a file stands for its known ports, and one without either, or with a broken file, is an error |
| Services.OneInclude | internal/impexp/firewalld.go:746-787 | including a service adds its ports and protocols behind the own ones and takes its destinations; two different ones of a family are an error |
| ThreatBans.ApplyThreatUpdateToState | internal/cli/commands_protect.go:236-301 | a batch is applied as specified, or rejected with the state unchanged; the changed flag is exact |
| ThreatBans.LocalUntouched | internal/cli/commands_protect.go:236-301 | a batch of decisions leaves the local bans and their order alone |
| ThreatBans.DecisionsUntouched | internal/cli/commands_protect.go:247-276 | a local ban leaves the stored decisions and their order alone |
| ThreatBans.AppliedUnique | internal/cli/commands_protect.go:263-275 | ban keys stay unique |
| ThreatBans.ApplyTwice | internal/cli/commands_protect.go:236-301 | applying a batch again changes nothing |
| BatchFacts.BatchAccepted | internal/cli/commands_protect.go:236-301 | a batch is accepted if and only if every ban is unexpired, has an address, and is a decision with a positive id or a watcher's ban without one, and a delta deletes positive ids only |
| BatchFacts.BatchStored | internal/cli/commands_protect.go:236-301 | after a batch a ban is stored if and only if it is the newest of its kind in the batch, or was stored and is not named; a snapshot forgets the other decisions, a delta those it deletes |
| BatchFacts.BatchOrder | internal/cli/commands_protect.go:263-275 | a replaced ban keeps its place and new ones go behind the stored ones |
| CrowdSec.CrowdSecUpdate | internal/cli/commands_protect.go:151-185 | the response loop decodes as specified: skipped types, durations in nanoseconds against whole expiry seconds, snapshot or delta, every refusal |
| CrowdSec.DecodeSays | internal/cli/commands_protect.go:151-185 | an answer is decoded unless a ban decision is unusable or, past startup, a deleted id is not positive; each ban decision that still runs gives one ban with its address, id, reason and source "crowdsec" that ends within the second its duration ends in |
| CrowdSec.StepKeepsMirror | internal/cli/commands_protect.go:109-149 | every atomic step of polls, failures, retries, local bans with the sweep of their commit, sweeps, clock and restarts keeps the mirror invariant |
| CrowdSec.MirrorEverywhere | internal/cli/commands_protect.go:109-149 | in every reachable interleaving, once past startup, the stored decisions with the pending batch applied are, field by field, the provider's records at the last answered pull, ends cut to the second and expired ones aside |
| CrowdSec.LocalsKept | internal/cli/commands_protect.go:216-234 | whatever else happens, local bans that have not expired stay, in order |
| CrowdSec.InvalidThenSnapshot | internal/cli/commands_protect.go:123-130 | after an invalid answer the next good answer is decoded as a snapshot, whatever happens in between |
| CrowdSec.ExpiredBatchStuck | internal/cli/commands_protect.go:132-142 | once a ban of the pending batch has expired, the batch is never applied and never given up without a restart |
| CrowdSec.ShortDecisionStuck | internal/cli/commands_protect.go:164-174 | a decision that runs out within the second it is read in leaves a batch that is stuck from the start |
| CrowdSec.PollLoop.Turn | internal/cli/commands_protect.go:114-148 | one turn of the loop: pull unless a batch is pending, then apply or keep the batch; a commit sweeps expired bans and rules |
| BatchFacts.TurnCommits | internal/cli/commands_protect.go:216-234 | a turn whose batch is accepted and changes something stores the batch without the bans that have ended and drops expired rules; any other turn leaves the state as it is |
| CrowdSec.TurnIsSteps | internal/cli/commands_protect.go:114-148 | a turn is a pull step followed by an apply step, so turns reach only states of the step machine |
| Detection.Detector.Observe | internal/protect/detector.go:71-106 | counts failures per jail and address, bans at the limit and forgets the counted ones, pruning first when due |
| Detection.Detector.Prune | internal/protect/detector.go:108-131 | drops times older than the find time from every key, at most once a minute |
| Detection.DetectorRefinesHistory | internal/protect/detector.go:71-131 | for every non-decreasing event sequence the detector emits exactly the bans of a full-history detector |
| Detection.WindowsStayShort | internal/protect/detector.go:71-106 | every stored window stays shorter than its jail's limit |
| Detection.DetectorBans | internal/protect/detector.go:71-106 | at the last event of every run exactly those jails ban that find an address with maxRetries failures within the find time since its last ban; the ban has source "ssh:" with the jail's name and ends with the ban time, cut to the second |
| Detection.NothingStale | internal/protect/detector.go:108-131 | after every run no remembered failure is older than its jail's find time and a minute |
| Detection.PrunesApart | internal/protect/detector.go:108-131 | two events that prune are at least a minute apart |
| RuleEngine.SetRuleEngine | internal/cli/commands_rules.go:362-433 | on a tuple-unique list the single walk yields exactly one of append, replacement in place, removal, insertion at the first slot that splits no group, or no change |
| RuleEngine.Slot | internal/cli/commands_rules.go:374-386 | the first slot at or after the requested one that does not split an adjacent group, groups compared by their displayed text, or none |
| RuleEngine.EngineKeepsUnique | internal/cli/commands_rules.go:362-433 | no command leaves two rules of one tuple |
| RuleEngine.InsertKeepsGroups | internal/cli/commands_rules.go:374-386 | an insertion keeps neighbours of one app group side by side |
| RuleEngine.AddThenDelete | internal/cli/commands_rules.go:412-432 | deleting a rule that was just added or inserted restores the list |
| RuleEngine.ApplyHalf | internal/cli/commands_rules.go:305-357 | one family's half of a command, app deletes expanded against the stored rules of the same app text, with its position errors |
| RuleEngine.AppDeleteRemovesGroup | internal/cli/commands_rules.go:323-340 | an app delete naming the stored action and log type removes exactly the rules of its app text |
| RuleCommands.AddsRule | internal/cli/commands_rules.go:362-433 | a new identity goes to the end; a stored one takes the new rule in its place, and nothing happens when action, log flag and comment are the same |
| RuleCommands.DeletesRule | internal/cli/commands_rules.go:362-433 | a delete takes out the rule of its identity when it names its action and log flag, and its comment if it names one; any other delete finds nothing |
| RuleCommands.InsertsRule | internal/cli/commands_rules.go:374-400 | without profiles in the list an insert goes exactly where it says, unless its identity is stored |
| RuleCommands.InsertsBetween | internal/cli/commands_rules.go:374-386 | in any list an insert goes to the first place from its position on that is not between two neighbours of one profile and place, and to the end when there is none |
| RuleCommands.InsertsFirst | internal/cli/commands_rules.go:374-386 | an insert at 1 goes to the front of every list |
| RuleCommands.IdentityIncludes | internal/rule/rule.go:226-263 | direction, protocol, ICMP type, family, interfaces, profiles, addresses, sets and port ranges are |
| RuleCommands.HalfRefuses | internal/cli/commands_rules.go:305-322 | a position outside the list, or one on a delete, is the only error of a half |
| RuleCommands.HalfIsEngine | internal/cli/commands_rules.go:305-357 | without profiles a half is the command itself |
| RuleCommands.AppDeleteMisses | internal/cli/commands_rules.go:323-357 | an app delete finds nothing when no rule has its text, or when the first one that has it has another action or log flag |
| RuleEngine.EverywhereIsOneGroup | internal/cli/commands_rules.go:374-386 | a profile's rules from any source and from 0.0.0.0/0 are two tuples and one group: an insertion between them goes to the end, and deleting one deletes both |
| RuleEngine.AppTupleCollides | internal/rule/rule.go:270-305 | a profile named "any" has the app text of a side without profile and ports, so deleting another profile's rule deletes its rule too |
| RuleEngine.AppTextExact | internal/rule/rule.go:270-305 | for profiles of one word that are not spelled like a port list, two rules have one app text if and only if profile or ports, address and place agree on both sides |
| AddressText.AnywhereText | internal/rule/rule.go:311-321 | an explicit prefix of length zero has the text of the wildcard in its family |
| AddressText.ZerosLeftOut | internal/rule/rule.go:311-321 | in the text of an IPv6 address the first of the longest runs of at least two zero groups is left out, and nothing when there is none |
| RuleEngine.SweepExpired | internal/cli/commands_rules.go:517-537 | filters both rule lists and the bans in place, keeping exactly the unexpired entries in order |
| RuleCommands.SweptMembers | internal/cli/commands_rules.go:517-537 | a sweep keeps exactly the rules without expiry time or before it and the bans before theirs, and changes nothing else |
| RuleEngine.SweepNeutral | internal/cli/commands_rules.go:517-537 | sweeping never changes which action a packet meets, now or later |
| Diff.FillTable | internal/cli/commands_ext.go:855-870 | the table holds the longest common subsequence lengths of all suffix pairs |
| Diff.EditScript | internal/cli/commands_ext.go:875-895 | walking the table yields the specified script |
| Diff.ScriptOptimal | internal/cli/commands_ext.go:875-895 | the script turns a into b, with the fewest added and removed lines of all scripts that do |
| Diff.RemovesFirst | internal/cli/commands_ext.go:875-895 | equal lines are kept, and where some best script begins with a removal the printed one does too |
| Diff.FindRanges | internal/cli/commands_ext.go:900-930 | the hunk ranges are ordered, disjoint and cover every change |
| Diff.UnifiedDiff | internal/cli/commands_ext.go:853-964 | applying the printed hunks to a by their headers yields exactly b |
| Diff.HunksPatch | internal/cli/commands_ext.go:931-955 | the printed start and count headers make ordered covering hunks apply exactly |
| Command.GetCommand | internal/cli/status.go:146-235 | prints the canonical command: short or full form, sides, interfaces, protocol, type, comment and route prefix as specified |
| Command.PrintPorts | internal/cli/status.go:61-79 | the port list prints item by item, single ports and ranges |
| Parser.ParseRuleArgs | internal/cli/parser.go:81-549 | the splices and loops accept and build exactly what the clause-by-clause specification does |
| Parser.FoldSetNames | internal/cli/parser.go:276-289 | splicing set names in place, left to right, is the fold |
| Parser.FinishParse | internal/cli/parser.go:478-525 | the checks behind the clauses, the stamped ports and the route marks are those of the specification |
| Parser.RunClauses | internal/cli/parser.go:348-428 | the token loop: keys at odd positions only, keys acting wherever they stand |
| ParserFacts.WordsRead | internal/cli/parser.go:45-79 | an argument is a word of the grammar if and only if it spells it, in any case where case is ignored and in lower case elsewhere |
| ParserLaws.DirectionWord | internal/cli/parser.go:205-215 | behind any action and before any clauses a bare "in" says nothing and a bare "out" makes the same rule an outgoing one |
| ParserLaws.DirectionFollows | internal/cli/parser.go:205-215 | an accepted command that is not routed is outgoing if and only if its second word is "out" |
| ParserLaws.ActionFollows | internal/cli/parser.go:189-199 | the action of an accepted command is its first word, one of allow, deny, reject and limit |
| ParserLaws.LogWord | internal/cli/parser.go:232-250 | behind the action "log" and "log-all" set the log flag and nothing else |
| ParserLaws.LongIsShort | internal/cli/parser.go:313-428 | "ACTION from any to any port PORTS proto PROTO" is "ACTION PORTS/PROTO", errors included |
| ParserFacts.RuleWord | internal/cli/parser.go:88-95 | the word "rule" in front of a command, routed or not, says nothing |
| ParserFacts.RoutePrefix | internal/cli/parser.go:88-136 | "route" in front of a command without directions makes the same rule a routed one |
| ParserFacts.OutThenIn | internal/cli/parser.go:107-127 | of two interface clauses the second is put aside with its direction, also when "out on" comes first |
| ParserFacts.RoutedFinish | internal/cli/parser.go:505-525 | a routed rule keeps its first direction and the clause put aside names the other interface |
| ParserFacts.AcceptedShape | internal/cli/parser.go:291-428 | accepted clauses are at most six pairs that begin with a key |
| ParserFacts.AcceptedClauses | internal/cli/parser.go:334-347 | "port" occurs at most twice, every other clause once, and "from" or "to" occurs |
| ParserFacts.AcceptedRule | internal/cli/parser.go:478-503 | an accepted rule has ports in 1 to 65535, at most fifteen a side, of its own protocol; ports only with tcp, udp or no protocol, several or a range only with tcp or udp; an ICMP type only with ICMP |
| ParserFacts.AcceptedFamily | internal/cli/parser.go:429-500 | the family of an accepted rule is that of its addresses, and of its protocol when it exists in one family only; otherwise both |
| ParserFacts.PortCommand | internal/cli/parser.go:559-604 | "ACTION N", "ACTION N/tcp" and "ACTION N/udp" are accepted for 1 to 65535 and give the rule for that port, all else left open |
| ParserFacts.RangeCommand | internal/cli/parser.go:641-683 | "ACTION LO:HI/PROTO" is accepted if and only if the range grows within 1 to 65535 and a protocol is named |
| ParserFacts.IfaceCommand | internal/cli/parser.go:298-312 | "ACTION in on NAME N/tcp" and "ACTION out on NAME N/tcp" are accepted if and only if the name has one to fifteen of the allowed characters and is neither "." nor "..", and give the rule for that interface and port |
| ParserFacts.FullCommand | internal/cli/parser.go:348-428 | "allow log from A port P to B port Q proto tcp" puts each part into the field it names |
| RoundTrip.PrintedParses | internal/cli/status.go:146-235 | parsing the printed command of a parser-normal rule succeeds within 13 arguments and gives that rule, unless a non-routed rule names an incoming interface together with an outgoing one or direction out |
| RoundTrip.MisdirectedRefused | internal/cli/status.go:180-188 | in that remaining case the parser refuses the printed command |
| RoundTrip.ParserUndoesPrinter | internal/cli/status.go:146-235 | the parser restores action, log, comment and tuple (family aside) iff no endpoint is an explicit zero-length prefix and the direction follows from the interfaces |
| ParsedNormal.ParsedIsNormal | internal/cli/parser.go:81-549 | every rule the parser accepts is parser-normal |
| ParsedNormal.ReparseRestores | internal/cli/parser.go:81-549 | for every accepted command with clean names, printing and parsing again restores the rule iff that condition holds |
| ParsedNormal.WildcardPrefixLost | internal/cli/status.go:45-56 | "allow from 0.0.0.0/0" is accepted but prints as a command that denotes another tuple |
| ParsedNormal.BothInterfacesRefused | internal/cli/status.go:180-188 | "allow in on eth0 out eth1 to any" and its like are accepted, and the command printed for the rule is refused |
| ParsedNormal.EthernetRefused | internal/cli/status.go:180-188 | "allow in on eth0 out eth1 to any" itself |

## Left out

- NAT chains, netlink transport, `nft` and `systemctl` calls, file locking, HTTP and file I/O; where
  the ban protocol needs them they are steps that succeed or fail.
- XML, JSON and INI decoding, regular expressions and the parsing of address text: the model starts
  from parsed trees, tokens and canonical addresses. `nftjson.go` is not part of this model.
- The exact fixed ICMP, DHCP, mDNS and NetBIOS matches, rate-limit and meter timing, and counters:
  opaque matches and oracles stand for them, for every behaviour of theirs.
- Capacity estimates of the compiler beyond being hints, and the cached expression tables: no theorem
  depends on their values.
- The order in which the compiler emits rules of different chains: only the order within a chain
  has a meaning.
- Log attribution for packets that are not NEW under rules of log type `log`: their logging entries
  do not apply to the packet, and a later rule's may.
- CompileSets.NamedSetMeaning: requires the kernel names of sets to be apart, which set commands keep
  and imports do not; `SetBatch.LoadsIff` says what the batch is otherwise, and what a kernel that
  takes it all the same would look up is not modelled.
- SetCommands.CommandsLoad: starts from a state whose names are apart; the text of an element is
  parsed before, and the sweep that every commit runs is `RuleEngine.SweepExpired`.
- Firewalld.ZonesFlattened: requires interface patterns of different zones to share no name, which
  the code does not check; `Firewalld.OneZoneExact` shows that the condition is exact.
- Firewalld.ImportedZones: requires tuple-distinct rules and an empty list, because the merge is
  last-writer-wins per tuple.
- firewalld policy files and rich-rule priorities: the former have an import path of their own, and
  the importer reads rich rules in file order.
- iptables: the warnings, the dual-family sharing of ids between identical IPv4 and IPv6 rules, and
  the packets of the established and related fast path, which the compiled program accepts first.
- IptPolicy.ImportIPTables: the ids of appended rules are arbitrary draws, so that identical IPv4 and
  IPv6 rules share one id is covered as a possible draw, not claimed.
- ImportCompiled.ImportRuns: takes the interface names of the dump to fit the kernel's 16-byte field
  (`ImportValid.LinesFit`), which the importer does not check.
- ZoneFallback.FallbackIff: where an ipset of the family is bound or named by an element, the address
  part of the test is about the contents of that ipset; otherwise all of it is decided on the layout.
- Detection.DetectorRefinesHistory: the address patterns and the ignore list are reduced to which jails
  an event hits.
- RuleEngine.ApplyHalf: positions across the two family lists of a dual rule are not modelled, nor the
  result messages.
- Diff.UnifiedDiff: the two file header lines are not modelled.
- Parser.ParseRuleArgs: without the `delete`, `insert`, `prepend` and `expires` prefixes and clauses,
  service names as ports, named ICMP types and app profiles; words in those places are refused. Error
  messages are one error, and the "changed by normalization" notice is dropped.
- ParsedNormal.ParsedIsNormal: about the commands of that grammar only.
- ParsedNormal.ReparseRestores: about the commands of that grammar only.
- Command.GetCommand: app profiles are not printed; a name or a comment is one token whatever its
  shape, so a name that looks like a number or an address stays a name.
- `ruleSuperset`, status columns, help text, charts and performance scripts: they would only add easy
  members or claims the code does not make.
