# Ko event filter and socket tracker: a verified model

Ko traces outgoing TCP connections from eBPF and filters their events with CEL
expressions in two tiers: the kernel program decides what it can, userspace
evaluates the rest. The repository promises that the tiers agree (its mismatch
counter "must stay zero"). This project models both tiers, the compiler between
them, the verdict cache, the event loop and the connection tracker, and proves
when they agree, over all inputs and all runs.

How the files follow the program:

- `Bits`: fixed-width words as numbers, with the bit of every operation (`&`, `|`, `^`, shifts, little-endian loads).
- `Addresses`: IP addresses and prefixes, `AddrInCIDRs`, the byte-wise prefix match.
- `Events`, `Cel`: event records, checked CEL expressions and their meaning, `Evaluate`.
- `Program`, `GoVm`: the predicate stream, the three-valued walk over it, the userspace VM and the verdict mask.
- `Lowering`, `Interning`, `Compiler`, `Filters`: the compiler. `Lowering` says which expressions compile to which
  tests, `Interning` how attribute tests get their numbers, and the class `Compiler.Compiler` updates the atom table
  in place. `Filters` holds `Compile` and the flat layout.
- `Pushdown`, `CompilerCorrectness`, `FirstMatch`: which filters are pushed down, and compiled filters against CEL.
- `WordCidr`, `KernelVm`, `KernelRefinement`: the kernel VM, its word-wise CIDR match, and its agreement with the
  Go VM and with `Evaluate`.
- `Tracer`, `Pipeline`: cache maintenance and the event loop as methods, and the whole event path as a state machine:
  any number of kernel walks at once, with evictions and cache writes at any point between two verdict lookups.
- `SocketTracker`, `DropCounter`: the four hooks over the context map, their runs, and the exported drop counter.
- `TracerSystem`: hooks and event path together, from a socket's state changes to the reports that users see.
- `Witnesses`: a configuration that meets every condition of the main results, inputs on which the excluded cases go
  wrong, and what the filters of the chart select.

Where the code departs from what its comments or documentation say, the model follows the code, and the exact
boundary is proved:

- a comparison with the constant first goes through `flipCmp`, which negates the operator (`CompilerCorrectness.CmpExact`, `ConstantFirstExact`);
- integer comparisons are unsigned in the VMs and signed in CEL (`UnsignedExact`);
- an ordering on `ko_type` compiles to an always-true conjunction (`CmpExact`);
- the atom key is a space-joined print, so lists with spaces in their values can share a key (`Interning.SprintExact`);
  the tests of pushed-down filters are still decided rightly iff each has the members of the first request with its key
  (`AlikeExact`, `InternExact`, `Filters.TestsDecided`), and `ClashMisdirects` is one pair that does not;
- an IPv4-mapped prefix (section 2.5.5.2 of RFC 4291) is compiled as IPv6 but unmapped in userspace (`Addresses.MappedPrefixExact`);
- the kernel's word test keeps the low bits of a partial prefix byte, not the high ones, although its comment says the
  compared set is preserved (`WordCidr.SetIsLow`, `SlotExact`); the built-in private list has such a prefix (`PrivateListDiffers`);
- userspace END markers are not counted against the 32 slots, so the copy can end right before one: then the kernel
  drops events that userspace should decide, exactly those on which all filters before the marker are false
  (`KernelRefinement.TruncationExact`); `Witnesses.CutLosesEvent` is a configuration that loses a matching event so;
- a failed connection is documented as an attempt that was refused, timed out or was aborted (the repository's README.md, line 50), but the
  socket state hook looks at the old state first: a change from SYN_SENT or ESTABLISHED to itself, and the way from
  SYN_SENT to SYN_RECV of a simultaneous open (section 3.5 of RFC 9293), are reported as an end that has not come, and an
  attempt that fails from SYN_RECV is not reported; runs go as documented iff no such change hits an open connection
  (`SocketTracker.IntendedExact`, `MisreadLoses`).

The boundaries of the comparisons are proved twice, over all events and over those of records that the hooks submit
(`Events.Scope`): `CmpExact` gives the exact condition for each, and `SocketTracker.SubmittedExact` with
`Events.HookEventExact` shows that the second scope is exactly what the hooks submit.

The end-to-end theorem `Pipeline.EndToEnd`, and `TracerSystem.HooksToReports` on top of it, hold for filter sets that
`Compile` accepts and that meet these conditions (`KernelRefinement.KernelOk`): every pushed-down filter is `WellFormed`
on the events of submitted records, its attribute tests have the members of the first request with their key, prefixes
have whole-byte lengths (or are mapped and match nothing), and the copy of the stream holds what decides it. The
attribute source answers for the cgroups in its snapshot with the attributes there (`Tracer.SourceOk`); it may know
other cgroups too, as the node agent's does. `Witnesses.SampleMeetsConditions` shows a setup that meets all of this at
once. Cgroup attributes are fixed in a run; `KernelRefinement.StaleVerdictExact` says, for every such set, exactly on
which events a verdict of other attributes is harmless, `Witnesses.StaleVerdictMisdirects` is an event on which it is
not, and `Tracer.Tracer.SyncOnce` says that one complete sync makes the cache coherent again from any content. The
counters and reports are right without these conditions too (`Pipeline.RunTallies`): mismatches then count exactly the
kernel's wrong picks.

Inputs of the model: the text functions of the network library (prefix parsing, endpoint printing and its inverse) are
a parameter `Text` with one law, `TextOk`; the attribute source is a parameter with one law, `SourceOk`; clock readings,
socket reads, lookup results, update failures, evictions and full ring buffers are inputs of the steps.

## Model

| member | source | states |
|---|---|---|
| Addresses.PrefixMatch | pkg/filter/vm.go:158-196 | the byte loop with its masked rest is true iff the first plen bits agree in network order and plen is within the limit |
| Addresses.AddrInCidrs | pkg/filter/env.go:67-91 | true iff some text parses to a prefix that, once unmapped, contains the unmapped address |
| Addresses.SlotMeaning | pkg/filter/compile.go:361-376 | a compiled slot matches an address exactly when the unmapped prefix contains it, unless the prefix is mapped and shorter than 96 bits |
| Addresses.MappedPrefixExact | pkg/filter/compile.go:367-375 | a mapped prefix is decided alike by both tiers on every address iff its length is at least 96 |
| Cel.RunFilters | pkg/filter/filter.go:220-232 | the result is the first filter whose CEL value is true, and none if there is no such filter |
| Cel.FirstMatchUnique | pkg/filter/filter.go:220-232 | being the first match determines the answer |
| Cel.Connectives | pkg/filter/filter.go:220-232 | in the reference meaning, conjunction and disjunction commute, obey De Morgan, and let a deciding side outweigh an error |
| Cel.StringOrder | pkg/filter/filter.go:220-232 | the string order of the reference meaning is total and strict |
| Events.NamesDistinct | pkg/filter/filter.go:20-33 | a known type name is the name of its own type only, among all 16-bit types |
| Events.TypeNameInjective | pkg/filter/filter.go:20-33 | every 16-bit type has a name of its own |
| Events.HookEventExact | pkg/tracer/c/tracer.bpf.c:491-532 | the hook events are exactly the events of records with a known type, an IP family, and lifetime and round trip time in the range of their computation |
| GoVm.AtomEval | pkg/filter/vm.go:18-33 | equality, inequality or membership of the attribute's value |
| GoVm.AtomOperators | pkg/filter/vm.go:18-33 | inequality is the complement of equality, and equality is membership in a list of one |
| GoVm.VerdictMask | pkg/filter/vm.go:8-16 | bit k of the mask is the truth of atom k, for the first 64 atoms and no other bit |
| GoVm.EvIpInSet | pkg/filter/vm.go:129-156 | true iff the endpoint is present and one of the used slots matches it |
| GoVm.RunPreds | pkg/filter/vm.go:47-87 | the loop returns the decision of the three-valued walk of the stream |
| GoVm.UnknownKind | pkg/filter/vm.go:84-87 | an entry of unknown kind makes the Go VM undecided |
| Program.WalkLess | pkg/tracer/c/tracer.bpf.c:341-349 | a walk that knows less about its tests gives the same decision or UNDECIDED |
| Program.WalkTests | pkg/filter/vm.go:48-83 | the tests of one filter act on the walk as their three-valued conjunction |
| Program.WalkPrefix | pkg/filter/vm.go:70-83 | a prefix that ends at an END marker decides alone, or falls through and the walk goes on afresh |
| CompilerCorrectness.MirrorExact | pkg/filter/compile.go:211-220 | swapping the operands preserves a comparison with the mirrored operator and with no other |
| CompilerCorrectness.FlipComplements | pkg/filter/compile.go:178-194 | the flipped operator is the complement on every pair of values that compare |
| CompilerCorrectness.UnsignedExact | pkg/filter/compile.go:236-242 | the VM's unsigned comparison is the signed one iff the operator is an equality or both sides have the same sign |
| CompilerCorrectness.ConstantFirstExact | pkg/filter/compile.go:211-220 | a constant-first comparison of a field agrees with CEL on an event iff it is an ordering, the constant is not negative and the field differs from it |
| CompilerCorrectness.NegatedConstantFirstExact | pkg/filter/compile.go:149-150 | the same boundary under a negation |
| CompilerCorrectness.CmpExact | pkg/filter/compile.go:196-257 | for all events, and likewise for those of submitted records: a lowered comparison agrees with CEL on every one iff it meets a syntactic condition on operator, operand order and constant |
| CompilerCorrectness.TypeMaskBit | pkg/filter/compile.go:86-104 | bit k of the mask is set iff the list names type k |
| CompilerCorrectness.InMeaning | pkg/filter/compile.go:259-313 | the tests of a lowered membership hold iff CEL finds the value in the list; those of the negated one iff it does not |
| CompilerCorrectness.IpSetMeaning | pkg/filter/vm.go:129-156 | a compiled set of up to four prefixes contains an address iff the reference `ip_in` does |
| CompilerCorrectness.IpInMeaning | pkg/filter/compile.go:326-378 | the lowered `ip_in`, plain or negated, means CEL's, through printing and parsing of the endpoint |
| CompilerCorrectness.LowerCorrect | pkg/filter/compile.go:110-158 | compiler correctness: a lowered expression that is well-formed for a scope is boolean on every event of the scope, and its tests all hold iff it is true (for the negated stream: iff it is false) |
| Pushdown.TypeOfExact | pkg/filter/compile.go:64-84 | an identifier or literal is taken for a type iff its CEL value is the name of that known type on every event |
| Pushdown.LowerExact | pkg/filter/compile.go:110-378 | an expression is pushed down iff it is in a grammar written without the compiler: conjunctions, negated at leaves only, of listed comparisons, non-empty memberships and address sets of at most four parsing prefixes |
| Pushdown.UserspaceExact | pkg/filter/filter.go:170-181 | exactly the filters outside that grammar are left to userspace |
| Interning.SplitJoin | pkg/filter/compile.go:316 | splitting the printed list at spaces gives back its words in order |
| Interning.JoinSplit | pkg/filter/compile.go:316 | joining the words of a text gives it back |
| Interning.SprintExact | pkg/filter/compile.go:316 | two value lists print alike iff they have the same words in the same order |
| Interning.SprintInjective | pkg/filter/compile.go:316 | on lists of space-free values the printed key is injective |
| Interning.SprintMerges | pkg/filter/compile.go:316 | a list of one value with a space and a list of two values share a key |
| Interning.InternAllOk | pkg/filter/compile.go:315-324 | any sequence of requests keeps keys and atoms in one-to-one correspondence, never renumbers, and numbers every request |
| Interning.AlikeExact | pkg/filter/compile.go:315-324 | two requests with one key are true of the same attributes iff they have the same members |
| Interning.InternExact | pkg/filter/compile.go:315-324 | each of some requests is decided, for all attributes, as its own test would be iff it has the members of the first request with its key; other requests may clash |
| Interning.NumberedBy | pkg/filter/compile.go:315-324 | a key is numbered by the atom that the table has for it, or else by the first request with it |
| Interning.NoClashPairs | pkg/filter/compile.go:315-324 | if every request is a test, the condition says that any two requests with one key have the same members |
| Interning.KeySafeNoClash | pkg/filter/compile.go:315-324 | single equality values and space-free lists have the members of the first request with their key |
| Interning.ClashMisdirects | pkg/filter/compile.go:315-324 | one pair of lists with a shared key and attributes that the second list matches while the atom that decides it does not |
| Interning.NumberedTest | pkg/filter/vm.go:61-72 | the mask bit under the number of a rightly decided request is the truth of the requested test |
| Interning.ResolveCorrect | pkg/filter/vm.go:47-87 | a numbered test, run with the verdict of the event's attributes, holds iff the unnumbered test does |
| Compiler.RequestsAreAtoms | pkg/filter/compile.go:110-138 | a lowered expression requests exactly the atoms of its tests |
| Compiler.LeftBehind | pkg/filter/compile.go:116-127 | when a right conjunct is refused, the atoms of the left one stay requested |
| Compiler.TypeMaskOf | pkg/filter/compile.go:86-104 | the mask of a non-empty list of type names, and nothing for any other expression |
| Compiler.ListOfStrings | pkg/filter/compile.go:394-419 | the texts of a built-in list or of a list of string literals, and nothing otherwise |
| Compiler.Compiler.AttrPred | pkg/filter/compile.go:315-324 | reuses the number of an equal key or appends the atom, and returns the predicate that names it |
| Compiler.Compiler.FieldPreds | pkg/filter/compile.go:235-257 | field comparison against a literal: predicate or refusal, and the table after it |
| Compiler.Compiler.TypePreds | pkg/filter/compile.go:225-233 | equality and inequality become mask tests, an ordering becomes no test at all |
| Compiler.Compiler.CmpPreds | pkg/filter/compile.go:196-223 | both operand orders of a comparison, and the table after it |
| Compiler.Compiler.InPreds | pkg/filter/compile.go:259-313 | membership and its negation, and the table after it |
| Compiler.Compiler.NoneOf | pkg/filter/compile.go:308-312 | one numbered inequality per value, earlier ones keeping their numbers |
| Compiler.Compiler.IpInPreds | pkg/filter/compile.go:326-378 | the slots of at most four parsed prefixes, or refusal; the table is untouched |
| Compiler.Compiler.Conj | pkg/filter/compile.go:110-158 | returns the lowered tests with their numbers, or nothing; atoms of a left conjunct stay behind when the right one is refused |
| Filters.ErrorExact | pkg/filter/filter.go:143-184 | a configuration raises no error iff it has 1 to 32 distinctly named filters that parse, at most 32 pushed-down entries and at most 64 atoms |
| Filters.ErrorMeaning | pkg/filter/filter.go:143-184 | the error reported is exactly the fault of the first filter that has one: empty or repeated name, bad text, or too large, in this order |
| Filters.TableGrows | pkg/filter/filter.go:154-181 | the shared table never renumbers an atom while later filters compile |
| Filters.PredsFinal | pkg/filter/filter.go:170-181 | predicates numbered when their filter was compiled are right under the final table |
| Filters.TestsDecided | pkg/filter/filter.go:158-184 | the attribute tests of all pushed-down filters are decided rightly, for all attributes, iff each has the members of the first request with its key, whatever filters that are not pushed down left behind |
| Filters.CompileEach | pkg/filter/filter.go:158-181 | the loop reports the first error of the first bad filter, or collects every filter's predicates |
| Filters.Flatten | pkg/filter/filter.go:186-193 | the stream is each filter's predicates followed by its END marker, in order |
| Filters.Compile | pkg/filter/filter.go:143-202 | accepts exactly the acceptable configurations, returns their compiled set, and otherwise the first error |
| FirstMatch.WalkFilter | pkg/filter/vm.go:47-87 | one filter of the layout decides, defers or passes on by its conjunction |
| FirstMatch.WalkLayout | pkg/filter/vm.go:47-87 | the decision is that of the first filter not proven false, and DROP iff all are |
| FirstMatch.FilterMeaning | pkg/filter/vm.go:47-87 | with the right verdict, a pushed-down filter's predicates are true or false exactly as its CEL expression |
| FirstMatch.KnownVerdict | pkg/filter/vm.go:47-87 | with the right verdict, the decision is `Evaluate`'s answer, or undecided at a userspace-only filter |
| FirstMatch.FirstMatchCorrect | pkg/filter/vm.go:47-87 | an index is `Evaluate`'s answer, DROP is no match, and UNDECIDED means that the first filter not proven false is userspace-only or lacks its verdict |
| WordCidr.KoIpInSet | pkg/tracer/c/tracer.bpf.c:285-339 | for every set, family, address and length: true iff the family is IP and one of the used slots fits the unmapped address and agrees with it, in little-endian word order, on its first plen bits |
| WordCidr.SetIsLow | pkg/tracer/c/tracer.bpf.c:285-339 | the word test of a set is that same predicate on bits, aligned or not |
| WordCidr.Word4IsLow | pkg/tracer/c/tracer.bpf.c:306-319 | the shifted 32-bit xor is zero iff the first plen bits agree in little-endian word order |
| WordCidr.Word6IsLow | pkg/tracer/c/tracer.bpf.c:320-335 | the same for the two 64-bit words of an IPv6 address |
| WordCidr.SameLowByBytes | pkg/tracer/c/tracer.bpf.c:281-284 | word order compares whole bytes and then the LOW bits of the next byte |
| WordCidr.UnalignedWrong | pkg/tracer/c/tracer.bpf.c:317-334 | for a length that is not whole bytes, every prefix has an address wrongly rejected and one wrongly accepted |
| WordCidr.SlotExact | pkg/tracer/c/tracer.bpf.c:302-337 | for every slot of either family, the kernel set of that slot matches the same addresses as the prefix match iff the length is whole bytes or the slot is a mapped prefix longer than 96 bits, which matches nothing |
| WordCidr.PrivateListDiffers | pkg/filter/env.go:16 | the /12 of the built-in private list is decided wrongly by the kernel in both directions |
| KernelVm.BpfProg | pkg/filter/filter.go:212-218 | the program holds the first 32 entries, zeros behind them, and the full counts |
| KernelVm.KoFilterEval | pkg/tracer/c/tracer.bpf.c:350-453 | the decision of the walk with one verdict lookup per slot, and the unfiltered and empty cases |
| WordCidr.MappedWords | pkg/tracer/c/tracer.bpf.c:288-300 | the word test recognises exactly the mapped addresses and yields their last four bytes |
| KernelRefinement.SetsAgree | pkg/tracer/c/tracer.bpf.c:302-337 | on slots with whole-byte lengths, kernel and Go VM decide a set alike |
| KernelRefinement.VmsAgree | pkg/tracer/c/tracer.bpf.c:341-453 | for every event of an IP family and a type below 64, with whole-byte prefixes and one verdict or none, `ko_filter_eval` decides as the Go walk of the first 32 entries, hence as `RunPreds` on programs that fit |
| KernelRefinement.OddEntries | pkg/tracer/c/tracer.bpf.c:445-451 | an entry of unknown kind makes the kernel undecided, and on END markers the VMs agree iff the flag is 0 or 1 |
| KernelRefinement.ChangingCache | pkg/tracer/c/tracer.bpf.c:341-453 | for every program and every record, whatever pattern of present and absent entries the lookups of one walk meet, `ko_filter_eval` decides as with all entries present, or UNDECIDED |
| KernelRefinement.TruncationExact | pkg/filter/filter.go:212-218 | the cut stream decides as the full one, except exactly when it lacks the first userspace END marker and all filters before that marker are false on the event: DROP for UNDECIDED |
| Witnesses.CutLosesEvent | pkg/filter/filter.go:175-218 | sixteen filters `ko_rtt_us > 0` and one `or` filter are accepted, and the kernel drops an event that the full stream leaves undecided and that `Evaluate` accepts |
| KernelRefinement.KernelCorrect | pkg/tracer/c/tracer.bpf.c:350-453 | the kernel decision on any lookups of the true verdict is `Evaluate`'s answer or leaves the event to userspace |
| KernelRefinement.KernelExact | pkg/tracer/c/tracer.bpf.c:350-453 | with the cgroup's verdict cached, the kernel decides every event as `Evaluate` does, except exactly those on which CEL gets to a userspace filter, which it leaves undecided |
| KernelRefinement.StaleVerdictExact | pkg/tracer/cel.go:65-85 | for every set under `KernelOk`, a verdict of other attributes is harmless on an event iff CEL with those attributes gets to a userspace filter or `Evaluate` answers alike on both |
| KernelRefinement.UndecidedExact | pkg/filter/vm.go:47-87 | with the right verdict, the stream is undecided on an event iff CEL rejects every filter before some userspace one |
| Witnesses.StaleVerdictMisdirects | pkg/tracer/cel.go:65-85 | an event on which the kernel with the verdict of another cgroup picks a filter while `Evaluate` picks none |
| Tracer.DecodeCString | pkg/tracer/tracer.go:335-344 | the bytes before the first NUL |
| Tracer.DecodedAddresses | pkg/tracer/tracer.go:324-331 | an address shows as it was evaluated exactly for the IP families |
| Tracer.DecodedEvent | pkg/tracer/tracer.go:302-333 | endpoints, type and figures of a decoded IP record are those that the filters evaluate |
| Tracer.Tracer.SyncOnce | pkg/tracer/cel.go:65-85 | a complete sync leaves exactly the snapshot's verdicts, coherent whatever was cached, even those of known cgroups outside the snapshot; a failing update leaves a part written and deletes nothing |
| Tracer.Tracer.WriteVerdicts | pkg/tracer/cel.go:70-76 | the verdicts written before the first failing update |
| Tracer.Tracer.DeleteStale | pkg/tracer/cel.go:77-84 | removes the entries of cgroups outside the snapshot and no other |
| Tracer.Tracer.ResolveFilter | pkg/tracer/cel.go:87-120 | returns `Evaluate`'s answer and refreshes the verdict of a known cgroup |
| Tracer.DecideMeaning | pkg/tracer/cel.go:87-111 | a record is evaluated on the attributes that the source answers, and on empty ones if the cgroup is unknown or there is no source |
| Tracer.Tracer.VerifyBpfDecision | pkg/tracer/cel.go:122-128 | counts a mismatch iff `Evaluate`'s answer is not the kernel's index |
| Tracer.Tracer.HandleRecord | pkg/tracer/tracer.go:243-287 | the whole effect of one record on counters, cache and reported events |
| Pipeline.RunConserves | pkg/tracer/tracer.go:234-274 | in every run the submitted events, as a multiset, are those in a walk, dropped, lost, waiting, read or broken, and each event taken from the ring buffer is counted in exactly one outcome |
| Pipeline.RunTallies | pkg/tracer/tracer.go:234-274 | in every run, for all settings and filter sets, also where the kernel is wrong: mismatches are the events whose kernel pick is not `Evaluate`'s (if verified), the other counters are the kernel's picks, the later matches and the later rejects, and the reports carry these answers in order |
| Pipeline.ReadCaches | pkg/tracer/cel.go:112-119 | a record that userspace evaluates leaves the verdict of a known cgroup in the cache, and no read changes any other entry |
| Pipeline.StartIsKernel | pkg/tracer/c/tracer.bpf.c:350-361 | an event that needs no walk ends as `ko_filter_eval` decides: unfiltered while filters are off, dropped if there are none |
| Pipeline.LoaderMeaning | pkg/tracer/cel.go:34-50 | nothing is filtered before the program is loaded, and then every event meets the whole compiled program |
| Pipeline.CacheActions | pkg/tracer/cel.go:65-85 | an eviction or a stale deletion takes one verdict away, a sync write adds the snapshot's verdict of one cgroup |
| Pipeline.AdvanceIsKernel | pkg/tracer/c/tracer.bpf.c:363-453 | a walk goes on by one lookup of its cgroup or ends, in the ring, lost or dropped, as `ko_filter_eval` decides on the lookups that it met |
| Pipeline.PartialIsWalk | pkg/tracer/c/tracer.bpf.c:363-451 | a walk done slot by slot continues to the decision of the whole walk |
| Pipeline.DecisionOfWalk | pkg/tracer/c/tracer.bpf.c:363-451 | an interleaved walk decides as `ko_filter_eval` does on the lookups that it met |
| Pipeline.SetupIsSound | pkg/tracer/cel.go:34-50 | the conditions on the filter set give the state machine what it needs of the kernel filter |
| Pipeline.RunKeeps | pkg/tracer/tracer.go:234-287 | in all runs: cache coherence, the standing of every walk, the promise of every waiting record, and userspace has reported and rejected exactly what `Evaluate` accepts and rejects of the events read, in order |
| Pipeline.ReportsMeaning | pkg/tracer/tracer.go:234-287 | reports and rejects of a sequence of events share out its events; each report is the decoded event under the index and name that `Evaluate` picks |
| Pipeline.EndToEnd | pkg/tracer/cel.go:65-128 | in every run the reported events are exactly those read that `Evaluate` accepts, each with its index, the rejected ones are the others and are counted, kernel drops are rejections of `Evaluate`, mismatches stay zero, and events are conserved |
| Pipeline.ReadsAnswered | pkg/tracer/tracer.go:234-287 | in every run each event read is reported under the filter that `Evaluate` picks or is one that it rejects, none lost or doubled, and as many are counted as dropped as are rejected |
| Witnesses.SampleMeetsConditions | pkg/filter/filter.go:143-202 | filters of both tiers with attribute, statistics and address tests, a text and a source that together meet the hypothesis of the end-to-end theorem |
| Witnesses.ChartPushable | charts/ko/values.yaml:27-29 | the default filter of the chart and its commented example are pushed down |
| Witnesses.ChartMeaning | charts/ko/values.yaml:27-29 | on every event, the default filter holds iff the type is a failed or closed connection and the remote address is not loopback, and the example iff it is a retransmission in container `api` |
| Witnesses.PrivateMeaning | pkg/filter/env.go:16 | the built-in private list contains exactly the private networks of RFC 1918 and fd00::/8 of RFC 4193 |
| Pipeline.SyncIsRun | pkg/tracer/cel.go:65-85 | every outcome of a sync, for any snapshot that the source holds, is a run of single cache writes and deletions |
| TracerSystem.MovesAreRun | pkg/tracer/c/tracer.bpf.c:467-532 | every interleaving of hooks with the event path is a run of the event path that is given exactly the events of the hooks, in order |
| TracerSystem.HooksToReports | pkg/tracer/tracer.go:234-287 | in every such run each report shows what one hook invocation read (kind, time, both endpoints, all figures), with pid, comm, age and cgroup of the latest connect start on its socket, under exactly the filter that `Evaluate` picks; each event of the hooks is, once, under way, lost, broken, reported, or rejected by `Evaluate` |
| SocketTracker.SockTracker.Submit | pkg/tracer/c/tracer.bpf.c:467-532 | the record built from the context, the endpoints and the socket |
| SocketTracker.SockTracker.KoSockState | pkg/tracer/c/tracer.bpf.c:534-596 | registers a connect start, closes or fails a tracked connection, and otherwise changes nothing |
| SocketTracker.SockTracker.KoRetransmit | pkg/tracer/c/tracer.bpf.c:602-621 | one event for a tracked readable socket |
| SocketTracker.SockTracker.KoProbe | pkg/tracer/c/tracer.bpf.c:630-653 | a tracked socket past its interval gets the gate time recorded, even when it is unreadable, and a probe event if it is readable |
| SocketTracker.SockTracker.KoDestroySock | pkg/tracer/c/tracer.bpf.c:655-661 | forgets the socket |
| SocketTracker.SubmittedOk | pkg/tracer/c/tracer.bpf.c:491-493 | every submitted record has a known type and family, a lifetime that a 64-bit difference can give, even if the subtraction wraps, and a round trip time below 2^29 |
| SocketTracker.SubmittedExact | pkg/tracer/c/tracer.bpf.c:467-532 | the records with these guarantees are exactly the ones that some run of the hooks submits |
| SocketTracker.OpenedMeaning | pkg/tracer/c/tracer.bpf.c:554-596 | the latest connect start with no end since, or none |
| SocketTracker.Tracked | pkg/tracer/c/tracer.bpf.c:534-661 | in every run the context map holds exactly the open connections, each with the data of its latest connect start |
| SocketTracker.Attribution | pkg/tracer/c/tracer.bpf.c:467-532 | every event carries pid and comm of the latest connect start on its address and the time since in microseconds |
| SocketTracker.SilentAfterEnd | pkg/tracer/c/tracer.bpf.c:534-661 | after an input that ends a connection (terminal change, destroy or eviction) nothing is submitted for the address before its next connect start |
| SocketTracker.OneTerminal | pkg/tracer/c/tracer.bpf.c:577-594 | between two terminal events on one address there is a connect start |
| SocketTracker.TerminalSubmitted | pkg/tracer/c/tracer.bpf.c:574-594 | on an open connection, a state change submits a terminal event iff it is a readable TCP change from ESTABLISHED, or from SYN_SENT to a state other than ESTABLISHED, with the right type |
| SocketTracker.SubmitsExact | pkg/tracer/c/tracer.bpf.c:534-653 | in every run a hook submits an event iff the connection is open and the input ends it, or is a readable retransmission, or a readable probe at least 100 ms after the last passed gate since the connect start; and then of the right type |
| SocketTracker.LastGateTracked | pkg/tracer/c/tracer.bpf.c:630-641 | the context remembers the last passed gate since the connect start, also of probes that could not be read |
| SocketTracker.IntendedExact | pkg/tracer/c/tracer.bpf.c:554-594 | a run keeps the contexts and submits the events of the documented meaning iff no readable TCP change that ends nothing (SYN_SENT or ESTABLISHED to itself, SYN_SENT to SYN_RECV), and no failure from SYN_RECV, hits an open connection |
| SocketTracker.MisreadLoses | pkg/tracer/c/tracer.bpf.c:554-594 | a change that ends nothing submits a terminal event where none is intended, and nothing more about the connection before its address connects again; a failure from SYN_RECV submits nothing |
| SocketTracker.LifetimeGrows | pkg/tracer/c/tracer.bpf.c:491-493 | under a monotone clock the lifetime does not decrease along a connection, whatever happens in between |
| SocketTracker.ProbeRate | pkg/tracer/c/tracer.bpf.c:623-641 | gate passes of one lifetime are at least 100 ms apart and number at most one more than the intervals they span |
| SocketTracker.ProbeWindow | pkg/tracer/c/tracer.bpf.c:623-653 | within one lifetime, the probe events whose gate times span d nanoseconds number at most 1 + d / 100 ms |
| DropCounter.PeakExact | pkg/tracer/cel.go:137-161 | the exported counter equals the last total iff no earlier total was larger |
| DropCounter.TotalIsSum | pkg/tracer/cel.go:150-153 | a polled total is the sum of the per-CPU counters in 64 bits |
| DropCounter.DropCounter.Poll | pkg/tracer/cel.go:146-158 | every tick keeps the exported counter at the running maximum of the per-CPU totals |

## Left out

- CEL text parsing, type checking and the `not in` rewrite: the model starts from checked expressions; a text that fails to parse or check is a `BadExpr`.
- CEL literals other than booleans, integers, strings and lists, and constructs such as comprehensions: they are `Opaque` expressions with an arbitrary meaning, which the compiler never pushes down.
- Address and prefix texts: parsing and printing are parameters with the law `TextOk`.
- Loading, attaching and reading sockets: results are inputs of the hooks, including an unreadable socket; the clock reading and the socket statistics of a state change are one input although only one of its two uses happens.
- The LRU policy and data races inside a hook: evictions happen at any point, hooks are atomic except for the walk's verdict lookups.
- Attributes that change during a run: runs have a fixed attribute source; what a stale verdict does is stated separately.
- The verdict map before filters start: it is opened before the event loop and modelled as empty until then.
- The `Pred` arrays `Plen`, `Fam` and `Addr` are one sequence of slots, and a prefix count is at most four, the size of the arrays.
- `prefixMatch4` and `prefixMatch` are one method with the limit as an argument, and so are `inPreds` and `negInPreds`, and `conj` and `negConj`, with the negation as an argument.
- Addresses.SlotMeaning: excludes mapped prefixes shorter than 96 bits, for which `Addresses.MappedPrefixExact` shows that the tiers disagree.
- KernelRefinement.VmsAgree: takes event types below 64, which the kernel's shift by the type needs; the hooks submit types 1 to 4 only (`SocketTracker.SubmittedOk`).
- Pipeline.EndToEnd: assumes the conditions of `KernelOk`; what happens without each of them is the subject of the exactness lemmas.
- `ipInCIDR` has no caller; the ring buffer drop poller is the same loop as the filter drop poller.
- Exporters, metrics plumbing, configuration, container lookup, program statistics and struct layout: no further property.
