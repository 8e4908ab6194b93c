# Verified model of linux-mcp

linux-mcp answers questions about a Linux host: it runs a collector (a command, a file under /proc, the
Docker API) and turns what it read into a structured answer. This project models the logic between the
bytes read and the answer returned, and proves what that logic guarantees. `dafny verify dfyconfig.toml`
checks all of it.

| module | models |
|---|---|
| `ProcessTree`, `ProcessListing`, `ProcessPreorder` | `flattenTree`: parent links into a depth-annotated listing |
| `DockerStats` | fan-out of one goroutine per container, buffered channel, counted receive loop |
| `Config`, `Policy`, `Aggregates` | loading and reloading the configuration; the `disabled` policy under concurrent reloads; snapshot and health check across a reload |
| `SshdConfig` | `parseSSHDConfig` with recursive `Include` |
| `Apk`, `Routes`, `Boot`, `BootChain` | the apk name/version split, the `ip route` token loop, systemd timespans and the boot critical chain, each against a printer |
| `Resources` | the resource registry and its dispatch |
| `ManPage`, `Connections`, `HealthCheck`, `HumanSize` | overstrike removal and the search window, grouping by PID, the health verdict, the unit scaling loop |
| `Text`, `Numbers`, `Sequences`, `MapOrder`, `Wrappers` | the standard-library operations these use, and map iteration orders |
| `Examples` | concrete inputs on the failing side of the exact conditions |

## How it is modelled

* Code that may not return is not given a precondition out of thin air. `ProcessTree.Calls` describes the
  finite trees of recursive calls, and `SshdConfig.Parse` takes the number of files that may be open at
  once; the exact condition under which the code returns is a theorem (`FlattenEndsIff`, `ParseEndsIff`), and
  the methods that run the code require just that condition.
* Go's map iteration order is an arbitrary duplicate-free enumeration of the keys, and a separate one for
  each loop. Process ids and depths are unbounded integers.
* Goroutines are steps of a state machine, interleaved arbitrarily; results hold for every run.
* Files, the clock, Docker replies, glob results, duration syntax and collector outcomes are inputs.
* Text has ASCII white space and letters. `BootChain` and `ManPage` treat it as bytes.

## What turned out

* A full process listing never returns if some process other than pid 0 is its own parent: line 444 makes it
  a root and line 415 its own child. It lists processes twice exactly if pid 0 is its own parent and has
  another child. A subtree listing always returns, even for cyclic parent links.
* A subtree listing is a contiguous block of a larger listing except where the larger listing's start itself
  descends from the requested process.
* The receive loop of the bulk Docker statistics hangs exactly if some gather call succeeds without an entry;
  `GatherContainerStats` never does.
* The comment at tools/security_audit.go:68 says that included files have priority. The code is last-wins by
  position in the inlined text: a later line of the including file overrides (`IncludePriorityIff`). The parser
  does not return if an include chain runs into a loop.
* A failed `Load` still moves the path that later reloads read (`ReloadReadsLastPath`).
* An aggregate tool that is overtaken by a reload may answer in a way that no single configuration explains:
  the health check may report the memory and refuse the disk while both are being disabled
  (`HealthCheckMayMix`). With one reload this happens exactly if the old configuration permits the call itself
  and the old and the new one differ on two of its gates (`ExplainedIff`).
* Bold text survives overstrike removal only if the character is a single byte (`BoldSurvivesIff`).
* A critical-chain line with a time of several units, such as `1min 9.608s`, is dropped (`SeveralUnitsLost`,
  `MinuteLost`).
* A route line with a destination only is dropped (`LineRoundTrip`).

## Model

| member | source | states |
|---|---|---|
| ProcessTree.FlattenEndsIff | tools/process.go:405-454 | the walk returns if and only if a subtree is requested or no process other than pid 0 is its own parent, for every table, cyclic ones included, and every map order |
| ProcessTree.BuildChildrenMap | tools/process.go:412-417 | the loop over the map yields, for every pid at once, exactly its children other than the requested one, in iteration order and each once |
| ProcessTree.RootsInOrder | tools/process.go:442-450 | exactly the processes with parent 0 or themselves as parent are walked, in iteration order and each once |
| ProcessTree.Walker.Walk | tools/process.go:419-434 | the recursive closure, called on any process it may reach, appends exactly the entries of one finite call tree and leaves earlier entries alone |
| ProcessTree.FlattenTree | tools/process.go:405-454 | where it returns at all, the imperative code returns the preorder entries of its call tree |
| ProcessTree.CallsUnique | tools/process.go:419-434 | a walk has only one call tree |
| ProcessTree.LevelBound | tools/process.go:419-434 | the recursion is never deeper than the table is large |
| ProcessListing.WalkCount | tools/process.go:412-434 | one walk lists exactly the processes whose parent chain reaches its start without passing the left-out pid, each once |
| ProcessListing.SubtreeListing | tools/process.go:436-439 | a subtree listing holds the requested process and its descendants, each exactly once, and nothing for an unknown pid |
| ProcessListing.SubtreeEntries | tools/process.go:419-434 | parent and name come from the table, depth is the least number of parent links to the requested process, the leaf mark means that no other process has it as parent |
| ProcessListing.FullListing | tools/process.go:440-453 | how often a full listing shows each pid, for every table on which it ends: once for those whose chain reaches parent 0, twice if pid 0 is its own parent |
| ProcessListing.FullEntries | tools/process.go:419-453 | in a full listing too, parent and name come from the table; depth counts the parent links to the root the process hangs below, the leaf mark means that no process other than pid 0 has it as parent |
| ProcessListing.NoDuplicatesIff | tools/process.go:405-454 | a listing repeats a process only in a full listing in which pid 0 is its own parent and has another child |
| ProcessPreorder.RebuildListing | tools/process.go:421-433 | the PID and Depth columns alone determine the whole call tree: reading them back inverts the listing |
| ProcessPreorder.ListingIsPreorder | tools/process.go:421-433 | depth rises by at most one, each deeper row's PPID is the PID of the last earlier row one level up, a row is a leaf exactly when the next is not deeper |
| ProcessPreorder.SubtreeIsBlockIff | tools/process.go:436-453 | the subtree listing of a listed process is a contiguous, shifted block of the larger listing if and only if the larger start is that process or does not descend from it |
| ProcessPreorder.OrderIndependent | tools/process.go:413-448 | any two map orders give the same entries, each equally often |
| DockerStats.SelectTargets | tools/docker.go:585-603 | one target for each running container that the request names by its id, the first twelve characters of it or its first name without a leading slash, or for every container if the request is empty: its full id and that name, in order |
| DockerStats.TargetsExact | tools/docker.go:592-603 | a target stands for exactly the running containers that the request names |
| DockerStats.GatherContainerStats | tools/docker.go:383-494 | success holds exactly one entry, with the short id; failure carries the error |
| DockerStats.Conservation | tools/docker.go:611-628 | in every reachable state, received, buffered, unfinished and silently finished targets add up to all targets |
| DockerStats.NoSendBlocks | tools/docker.go:611-623 | a goroutine with a message can always send it at once |
| DockerStats.ReceivedInOrder | tools/docker.go:611-628 | what was received and what is buffered only grows at its end: messages arrive in the order in which they were sent |
| DockerStats.StuckReceived | tools/docker.go:611-628 | when nobody can move, the receive loop is done if and only if every gather call failed or returned an entry; otherwise it hangs short by the number of the others |
| DockerStats.FinishedIsStuck | tools/docker.go:611-628 | once the receive loop is done no goroutine is left and the channel is empty, and every gather call had failed or returned an entry |
| DockerStats.StatsNeverHang | tools/docker.go:570-655 | with the real gather call nobody can move if and only if the receive loop is done |
| DockerStats.RunsEnd | tools/docker.go:611-651 | no interleaving has more than three steps per target |
| DockerStats.RunsComplete | tools/docker.go:611-651 | every run can be continued to a state in which nobody can move |
| DockerStats.Collect | tools/docker.go:625-651 | the receive loop makes one row of each arrival, in order, and one error text with name, short id and error of each failed one |
| DockerStats.AnswerIsPermutation | tools/docker.go:625-655 | for every interleaving, whenever the receive loop is done, the rows are a permutation of one row per target with its short id, name and payload or error, and the errors are a permutation of one text with name, short id and error per failed target |
| Config.Store.LoadAtPath | config/config.go:228-244 | the package variables and the error after a load, for every path and file |
| Config.Store.ReloadFile | config/config.go:246-256 | the package variables and the error after a reload of the remembered path |
| Config.LoadFile | config/config.go:182-222 | which files are accepted: decoded ones with no level or one of the four and only parseable timeouts; which error each other file gives |
| Config.VisibleIsAccepted | config/config.go:182-263 | after any loads and reloads of any files, what readers see passes validation |
| Config.DefaultsWithoutFile | config/config.go:108-286 | before any operation, and after a load without a path or of a missing file, nothing is disabled, the level is info and every timeout is that of the default table |
| Config.FailsIff | config/config.go:228-256 | an operation fails exactly if it has a file it cannot use, with that error; only a load may miss its file |
| Config.DocumentGoverns | config/config.go:205-286 | after a decoded file is accepted, its level or info applies, exactly the names it lists are disabled and its timeouts are laid over the default table or the fallback, for every reader |
| Config.OperationEffect | config/config.go:228-263 | a failed operation changes nothing visible, a successful one shows exactly the file it read, or the defaults |
| Config.FailedReloadLeavesNoTrace | config/config.go:246-256 | removing a failed reload from any history changes nothing that follows |
| Config.FailedLoadOnlyMovesPath | config/config.go:228-256 | a failed load leaves exactly one trace, the path: the rest of any history goes on as if only the path had been set, and readers see no difference while reloads find the same at both paths |
| Config.ReloadReadsLastPath | config/config.go:228-256 | a reload reads the path of the last load that had one, even if that load failed |
| Config.TimeoutIsOverlay | config/config.go:265-281 | in every reachable state the timeout is that of the overrides laid over the default table, else thirty seconds; the parse-failure branches are unreachable; a positive fallback replaces only the table |
| Policy.CollectedWasEnabled | tools/handler.go:65-75 | in every interleaving with reloads a collector runs only behind a check against a configuration that was current during the call and does not list its name; later checks, and the check after the timeout lookup, never see an older one |
| Policy.ArrivedUnder | tools/handler.go:35-75 | the configuration from which a call counts is the one that was current when it arrived |
| Policy.DisabledThroughout | tools/resources.go:241-250 | a name disabled since the call arrived is not collected, whether by a tool call, a resource read or as part of an aggregate |
| Policy.EnabledThroughout | tools/util.go:89-102 | a finished call has collected every part that was enabled throughout, if its own name was |
| Policy.OneEventPerGate | tools/system.go:127-175 | a finished aggregate has decided each part exactly once, in order, as the configuration it saw says, unless it was refused itself |
| Aggregates.ExplainedIff | tools/system.go:127-175 | for every call and every reload from A to B: each finished run that saw at most that reload is explained by one configuration if and only if A disables the call itself or A and B differ on at most one of its gates |
| Aggregates.ExplainedIfOneGateChanges | tools/util.go:89-102 | any number of reloads that change at most one gate of a call never show as a mixture |
| Aggregates.StableCallExplained | tools/handler.go:35-75 | without a successful reload during a call, its decisions are those of the configuration it started with |
| Aggregates.HealthCheckMayMix | tools/storage.go:592-727 | a finished run of the five-part health check that neither the old nor the new configuration explains, with memory and disk disabled by a reload in between |
| Aggregates.SnapshotSurvivesOneName | tools/system.go:127-175 | disabling one more name during a snapshot is always explained, since its ten gates ask for different names |
| Policy.HistoryAccepted | main.go:66-77 | every configuration that SIGHUP ever makes visible passes validation |
| SshdConfig.ParseEndsIff | tools/security_audit.go:51-82 | the parser returns if and only if no chain of includes of readable files from the path runs into a loop |
| SshdConfig.ParseNested | tools/security_audit.go:51-82 | the imperative parser, loops and map copies included, computes the evaluation of the include tree |
| SshdConfig.ParseSSHDConfig | tools/security_audit.go:51-82 | without an include loop it returns, and its result is that of every sufficient nesting |
| SshdConfig.ParseIsInlinedText | tools/security_audit.go:57-81 | parsing a file with includes gives the same settings as parsing, as one file, the text with every Include line replaced by the matched files' text |
| SshdConfig.InlineReplaces | tools/security_audit.go:69-79 | the inlined text has, in place of an Include line, the texts of all matched files in glob order, unreadable ones having none; every other line stays |
| SshdConfig.DirectiveLine | tools/security_audit.go:58-79 | a keyword is read in any capitalisation of its letters, behind any indentation and spacing; its value is kept as written |
| SshdConfig.SilentLine | tools/security_audit.go:58-65 | blank lines, comments and lines without a blank inside change nothing |
| SshdConfig.LineForms | tools/security_audit.go:58-79 | every line is of one of these two forms |
| SshdConfig.LastLineWins | tools/security_audit.go:66-79 | each key has the value of the last line of the inlined text that sets it, and no other key exists |
| SshdConfig.IncludePriorityIff | tools/security_audit.go:68-79 | an included value survives if and only if no later line sets the key to something else |
| SshdConfig.NestingIrrelevant | tools/security_audit.go:71-76 | the result does not depend on how much deeper the recursion could have gone |
| Apk.MatchUnique | tools/packages.go:162-167 | the token pattern is unambiguous |
| Apk.MatchAtLastDash | tools/packages.go:162-167 | every match splits at the last dash that a digit follows, even if the name contains such dashes |
| Apk.SplitIffMatches | tools/packages.go:169-175 | the split returns a pair if and only if the pattern matches with it, so name, dash and any version of the pattern always split back |
| Apk.SplitsIffLastDash | tools/packages.go:162-175 | which tokens split at all |
| Apk.SplitIff | tools/packages.go:162-175 | the pair in terms of characters: a nonempty name, a dash, a digit, no further dash but that of a release "-r" with digits |
| Apk.ParseApkListOutput | tools/packages.go:194-214 | the line loop returns one package for each line whose first word splits, in order, and their number |
| Apk.ListingRoundTrip | tools/packages.go:194-214 | parsing undoes printing of any package list, whatever follows the tokens on the lines and at the end |
| Routes.ParseRoutes | tools/network.go:532-582 | the index loop with its skips computes the token scan of exactly the lines with at least two fields, in order |
| Routes.KeywordEffect | tools/network.go:543-574 | each of the six keywords sets its own field to the next token and skips it |
| Routes.OtherEffect | tools/network.go:543-579 | of the other tokens only the nine route types have an effect; a keyword at the end of the line has none |
| Routes.LineRoundTrip | tools/network.go:534-581 | a printed route parses to what its attributes say, even if values are spelled like keywords or route types, with any other tokens in between and a keyword without a value at the end |
| Routes.EntryRoundTrip | tools/network.go:539-581 | printing an entry's nonzero fields in any order, with any other tokens in between, and parsing gives the entry back |
| Routes.OrderIrrelevant | tools/network.go:543-579 | with each keyword given once, neither the order of the attributes nor unknown tokens matter |
| Routes.TableRoundTrip | tools/network.go:532-582 | a printed table parses to its entries in order, lines with a destination only left out |
| Numbers.AtoiDecimal | tools/network.go:567-572 | reading a printed integer gives it back, or the nearest int64 |
| Numbers.AtoiMeaning | tools/network.go:567-572 | every text: zero for a syntax error, the nearest int64 for a range error, else the signed number |
| Numbers.NaturalFirst | tools/network.go:567-572 | digits are read with the first counting most |
| Boot.ParseTimespan | tools/analyze.go:30-56 | the token loop computes the exact sum, or fails if any token does |
| Boot.TimespanIff | tools/analyze.go:30-56 | a timespan is read if and only if it has a token and every token is a number with at most one dot directly followed by one of the ten units |
| Boot.UnitTable | tools/analyze.go:15-26 | the value of every readable token, unit by unit |
| Boot.NumberMeaning | tools/analyze.go:45 | moving the dot behind the last digit multiplies by a power of ten |
| Boot.TimespanAdditive | tools/analyze.go:30-56 | two timespans written after each other mean their sum, and fail if and only if one of them does |
| Boot.TimespanRoundTrip | tools/analyze.go:14-56 | printing amounts of any units and decimals and parsing gives their exact sum |
| BootChain.LinkRoundTripIff | tools/analyze.go:120-146 | a printed chain line gives back unit, depth from the byte position of the branch, and times, if and only if unit and times contain neither white space nor the branch character |
| BootChain.ChainLineIff | tools/analyze.go:120-146 | for every line and link: the line gives the link if and only if it ends in its printed text behind the last branch character, whose byte position gives the depth |
| BootChain.SeveralUnitsLost | tools/analyze.go:120-135 | a line with an active or start time of two or more amounts yields no link, whatever its unit and depth |
| BootChain.MinuteLost | tools/analyze.go:120-135 | so a line with the active time "1min 9.608s" is lost |
| BootChain.LinkSeconds | tools/analyze.go:137-144 | the seconds of a one-unit time are its exact value |
| BootChain.ParseBootCriticalChain | tools/analyze.go:149-165 | the line loop returns one link for each line that has one and is no explanation, in order, with the values of its times, zero if they cannot be read |
| BootChain.ChainRoundTrip | tools/analyze.go:120-165 | a printed critical chain parses back to its units, depths and times with the active and start seconds of each, in order, with blank lines and the two explanations anywhere in between |
| ManPage.CleanManOutput | tools/man.go:32-44 | the loop's buffer, and its panic |
| ManPage.CleanIff | tools/man.go:32-44 | cleaning panics if and only if some prefix removes more than it wrote; otherwise the length is writes minus removals |
| ManPage.CleanKeeps | tools/man.go:32-44 | exactly the written bytes that no later backspace reaches are kept, in order |
| ManPage.CleanUndoesRender | tools/man.go:32-44 | cleaning undoes every mixture of plain, bold and underlined single-byte characters |
| ManPage.BoldSurvivesIff | tools/man.go:32-44 | an overstruck character of several bytes loses only its last byte |
| ManPage.IncludeContext | tools/man.go:88-97 | the array loops mark exactly the positions within the context of a match |
| ManPage.FilterLines | tools/man.go:80-105 | the filter returns exactly the lines within the context of one that contains the search text in any case, once each and in order |
| ManPage.Window | tools/man.go:107-117 | a contiguous slice; an offset at or past the end is ignored; truncated means exactly that the cap removed something |
| Connections.BuildGroups | tools/network.go:298-310 | the map loops collect for every PID its name and exactly its connections, in list order |
| Connections.Limited | tools/network.go:292-295 | a positive limit below the length keeps that many, zero and negative keep all |
| Connections.GroupsPartition | tools/network.go:297-314 | groups are nonempty, strictly increasing by PID, hold exactly the connections of their PID in list order and cover every connection |
| Connections.GroupsConserve | tools/network.go:297-314 | together the groups hold every connection exactly as often as the list |
| Connections.MembersAgree | tools/network.go:263-314 | every member carries its group's PID and process name |
| Connections.GroupsOrderIndependent | tools/network.go:304-313 | the groups are the same for every map order |
| HealthCheck.GatherSystemHealthCheck | tools/storage.go:592-727 | computed with flags: one memory, one load and one systemd check if they were read, one check per listed partition or a single one, each with the status of its threshold; one text of tool and error per failed collector, in call order; the verdict in terms of the measurements |
| HealthCheck.VerdictMeaning | tools/storage.go:600-723 | the verdict in terms of the measurements: the worst measurement wins, then a missing answer, then OK |
| HumanSize.Scale | tools/util.go:21-33 | for every int64 of at least 1024 the divisor is the power of 1024 that fits, nothing overflows, and the unit index is at most 5 |
| HumanSize.ScaleMonotone | tools/util.go:26-32 | unit and quotient are unique and grow with the byte count |
| Resources.FindResource | tools/resources.go:207-221 | the loop computes the search for the first entry that matches, with the rest of the path |
| Resources.FindMatches | tools/resources.go:207-221 | what is found is the first entry that matches; nothing only if none does |
| Resources.RegistryUnambiguous | tools/resources.go:53-184 | no path is matched by two of the nineteen entries |
| Resources.PathFinds | tools/resources.go:42-51 | what is found for every path: a static path exactly its own entry, a template prefix with any rest exactly that template and that rest, nothing else |
| Resources.OrderIrrelevant | tools/resources.go:207-221 | the order of the entries does not matter |
| Examples.SelfParentListing | tools/process.go:405-454 | with a process that is its own parent no full listing ends, while its subtree listing does |
| Examples.CycleIsNoBlock | tools/process.go:436-453 | two processes that are each other's parent are listed below each other, and neither listing is a block of the other |
| Examples.ChildOfZeroTwice | tools/process.go:440-453 | with pid 0 in the table its child is listed twice |
| Examples.SelfIncludeLoops | tools/security_audit.go:51-82 | a file that includes itself is not parsed to the end at any nesting |
| Examples.LaterLineWins | tools/security_audit.go:66-79 | a port set behind an Include overrides the included one |
| Examples.BoldAccentBreaks | tools/man.go:32-44 | an overstruck two-byte character leaves three bytes |
| Examples.TwoBackspacesPanic | tools/man.go:32-44 | one character and two backspaces panic |

## Left out

- Running commands, reading /proc and /sys, HTTP, DNS, the MCP protocol, logging and JSON encoding: inputs or not modelled.
- ProcessTree.FlattenTree: the int32 width of depths; a depth is proved smaller than the number of processes.
- ProcessTree.Walker.Walk: the loop at its end is a method of its own (`WalkChildren`).
- Config.LoadFile: JSON syntax, duration syntax and the entries of the default timeout table are parameters; that every default parses is assumed.
- DockerStats.StatsNeverHang: a gather call that itself never returns; every gather call is taken to return at some point.
- DockerStats.GatherContainerStats: the computation of percentages; the payload of an entry is an arbitrary value.
- Policy.CollectedWasEnabled: what a collector returns and how handlers put errors into the answer; a reload is one step, so a file that changes while it is read is not modelled.
- SshdConfig.ParseIsInlinedText: glob syntax; the matches of each pattern are arbitrary, and the world does not change during a parse.
- Apk.ParseApkListOutput: the upgrade listing (`parseApkVersionOutput`), which splits tokens the same way.
- Routes.ParseRoutes: the splitting of the command output into nonempty lines.
- Boot.ParseTimespan: floating point; numbers are exact, and a number too large for a float is not an error here.
- ManPage.Window: the assembly of cleaning, filter and window, which only skips the filter for an empty search.
- ManPage.FilterLines: integer overflow of `contextLines`, and case folding beyond ASCII.
- Connections.BuildGroups: filtering and hostname lookup; sorting is taken to give a sorted permutation.
- HealthCheck.GatherSystemHealthCheck: the printed detail texts.
- HumanSize.Scale: the rounding of the printed quotient, and byte counts below 1024, which are printed as they are.
- Resources.FindResource: URI parsing, the entries' descriptions and what their resolvers collect.
- The fixed-column parsers, the security score, clamps and redaction: only easy members.
