# HttpDoom probing engine in Dafny

HttpDoom reads a wordlist of hosts and a set of ports. It turns every
(host, port) pair into an `http://host:port` and an `https://host:port`
target and probes each target with one GET request. When the first request
fails with an `HttpRequestException`, it retries once against the target,
with its port segment removed when the target holds exactly two colons and
unchanged otherwise. It then records host, port, DNS addresses, headers,
cookies, status code and body of every target that answered, whose port
text parsed and whose host resolved.

This project models the deterministic part of `Program.cs` as pure Dafny
functions, plus one method with a loop:

- the option checks;
- wordlist sanitization and de-duplication;
- target expansion;
- the host/port reading of `Flyover`;
- the fallback target;
- the two-attempt protocol of `Trigger`, as a state machine;
- the null filter over the collected results.

It also proves properties of these operations. HTTP, DNS and the file
system are parameters:

- a `Network` value holds `send` (building the `Uri` and `SendAsync`) and `resolve` (`Dns.GetHostEntryAsync`);
- a `classify` function stands for `Uri.CheckHostName`;
- a `Files` value holds what `File.Exists` answers.

Modules, in dependency order:

- `Common`: `Option`, `Result`, `Outcome`, `NoDuplicates`, `FirstIndex`, `FilterMap` and `Flatten`.
- `Text`: `Occurrences`, `IndexOf`, `LastIndexOf`, `Split`/`Join`, `RemoveSchema` and `TrimTrailingSlashes`.
- `Decimal`: the 32-bit `int`, its decimal text, and `int.Parse`.
- `Config`: the option checks of `Router`.
- `Wordlist`: wordlist sanitization.
- `Targets`: target expansion.
- `Probe`: `Flyover` and the host/port reading.
- `Trigger`: the fallback target and the two-attempt protocol.
- `Router`: dispatch, the null filter and the whole run.

Three facts about `Program.cs` shape the model:

- With a positive thread count, the throttle (`SemaphoreSlim`) is released as soon as a task is started, so it never holds back a target. The model dispatches the targets one after another. A negative count makes `new SemaphoreSlim` throw, and a count of zero never admits the first target; `Router.Router` ends without a report in both cases.
- `Task.WhenAll` returns the results in task order, so the report keeps dispatch order.
- A message from an `https` fallback records port 80, although the request went to port 443. `Probe.Flyover` models this as written; `Probe.FlyoverCorrected` is the corrected twin (see "## Findings").

## Model

| member | source | states |
|---|---|---|
| Text.LastIndexOf | Program.cs:301 | the result holds the character, and no later position does |
| Text.Split | Program.cs:374-376 | one part more than there are separators, empty parts included, and no part holds the separator |
| Text.JoinSplit | Program.cs:374-376 | joining the parts of a split with the separator gives back the original string |
| Text.SplitJoin | Program.cs:374-376 | splitting a join of separator-free parts gives back the parts |
| Text.RemoveSchema | Program.cs:174 | assumed behaviour: a leading `http://` or `https://` is removed, and an input with neither is unchanged |
| Text.RemoveSchemaOfTarget | Program.cs:374-375 | removing the schema from `http://rest` or `https://rest` leaves `rest` |
| Text.TrimTrailingSlashes | Program.cs:176-179 | with the slash test read as an exact last-character comparison: the result is a prefix that does not end in `/`, and only slashes were removed |
| Decimal.FormatInt | Program.cs:216-217 | the port text is non-empty, starts with `-` exactly for negatives, and is otherwise digits (so it holds no `:`) |
| Decimal.FormatIntCanonical | Program.cs:216-217 | the digits of the port text are non-empty and carry no leading zero; with `FormatInt` and `ParseFormatRoundTrip` this fixes the text of each value to the one `{p}` writes |
| Decimal.ParseInt32 | Program.cs:381 | success needs an optional sign and at least one digit, and the empty string or a lone sign is a format error; a digit string within range parses to its value, and one beyond `int.MaxValue` overflows |
| Decimal.ParseFormatRoundTrip | Program.cs:381 | `int.Parse` of the text of any 32-bit integer gives that integer back |
| Config.Validate | Program.cs:108-151 | the checks run in program order, and each error is reported exactly when every earlier check passed and its own fails; a run passes exactly when the output file is new, the wordlist exists, there is a port, the timeout is at least 3000 and the proxy is empty or has exactly one colon |
| Config.ProxyAcceptedIffOneColon | Program.cs:137-151 | a non-empty proxy passes the `Contains(":")` and two-part tests exactly when it holds exactly one colon |
| Wordlist.CleanLine | Program.cs:174-179 | the cleaned line is a prefix of the schema-less line that does not end in `/`, and only slashes follow it there |
| Wordlist.Candidate | Program.cs:171-189 | a line contributes a host exactly when it is non-empty and its cleaned form is not `Unknown`; the host is the line without its schema and without its run of trailing `/`, and it is keepable |
| Wordlist.Collect | Program.cs:166-190 | the read loop, in line order; no contract of its own: `CollectedIffContributed` and `SanitizeKeepsExactlyTheCandidates` give its meaning |
| Wordlist.CollectedIffContributed | Program.cs:169-190 | the collected list holds exactly the hosts some line contributes |
| Wordlist.Distinct | Program.cs:192 | the result has no duplicates, and it holds every input element and nothing else |
| Wordlist.DistinctKeepsFirstOccurrenceOrder | Program.cs:192 | kept elements appear in the order of their first occurrence in the input |
| Wordlist.Sanitize | Program.cs:192-198 | the wordlist is rejected as useless exactly when no host was collected; otherwise the host list is non-empty and duplicate-free |
| Wordlist.SanitizeKeepsExactlyTheCandidates | Program.cs:166-198 | rejection happens exactly when no line contributes a host; otherwise the hosts are exactly the contributed ones, all keepable, in first-occurrence order |
| Targets.Target | Program.cs:216-217 | the interpolated `scheme://host:port`; no contract of its own: `TargetLayout`, `TargetInjective` and `TargetParts` give its meaning |
| Targets.Row | Program.cs:213-218 | one host gives two targets per port |
| Targets.RowAt | Program.cs:214-218 | in a host's row, position `2j` is the `http` target of port `j` and `2j+1` its `https` target |
| Targets.Expand | Program.cs:209-219 | the nested `ForEach`; no contract of its own: `ExpandIsFlatten`, `ExpandCount`, `ExpandAt`, `ExpandMembers` and `ExpandNoDuplicates` give its meaning |
| Targets.ExpandIsFlatten | Program.cs:209-219 | the target list is the hosts' rows laid end to end, hosts in list order |
| Targets.ExpandCount | Program.cs:209-219 | there are exactly two targets for every (host, port) pair |
| Targets.ExpandAt | Program.cs:209-219 | host outer, port inner: position `2 * (i * n + j)`, with `n` ports, is `http://domains[i]:ports[j]`, and the next position is its `https` twin |
| Targets.TargetParts | Program.cs:374-376 | with its schema removed, a target splits on `:` into its host and its port text |
| Targets.TargetLayout | Program.cs:216-217 | the last colon of a target separates `scheme://host` from the port text, whatever the host holds |
| Targets.BaseInjective | Program.cs:216-217 | `scheme://host` determines its scheme and its host |
| Targets.TargetInjective | Program.cs:216-217 | equal targets come from equal schemes, hosts and ports, for any hosts, IPv6 literals included |
| Targets.SchemesDiffer | Program.cs:216-217 | the `http` and `https` targets of a pair differ |
| Targets.RowMembers | Program.cs:213-218 | a row holds exactly the two schemes on each port |
| Targets.TargetInRow | Program.cs:213-218 | a target of host `d` lies in `d`'s row exactly when its port is listed |
| Targets.RowsDisjoint | Program.cs:210-219 | the rows of two different hosts share no target |
| Targets.RowConsNoDuplicates | Program.cs:213-218 | a row stays duplicate-free under a new first port exactly when that port does not occur again |
| Targets.RowNoDuplicates | Program.cs:213-218 | a row is duplicate-free exactly when the ports are |
| Targets.ExpandMembers | Program.cs:209-219 | the target list holds exactly the targets of its hosts' rows |
| Targets.ExpandNoDuplicates | Program.cs:209-219 | ports are not de-duplicated: the targets are pairwise distinct exactly when there is no host, no port, or both hosts and ports are pairwise distinct |
| Probe.ParseTargetAsWritten | Program.cs:374-381 | the host never holds `:`; a target without a port segment reads as port 80, whatever its scheme |
| Probe.ImplicitPort | Program.cs:379-381 | a port-less target is requested on port 443 exactly when it starts with `https://`, and on port 80 otherwise |
| Probe.ParseTarget | Program.cs:374-381 | the corrected reading: as written when there is a port segment, and the scheme's implicit port when there is none |
| Probe.ParseExpandedTarget | Program.cs:374-381 | both readings give back the host and port of every expanded target of a colon-free host |
| Probe.ParsePortlessAsWritten | Program.cs:379-380 | as written, `http://d` and `https://d` both read as `(d, 80)` |
| Probe.ParsePortless | Program.cs:379-381 | corrected, `http://d` reads as `(d, 80)` and `https://d` as `(d, 443)` |
| Probe.AsWrittenHttpsPortlessReportsPort80 | Program.cs:379-381 | the discrepancy on `https://example.com`: read as written it gives port 80, and the corrected reading gives 443 |
| Probe.Exchange | Program.cs:372-395 | only the request raises `HttpRequestException`; a message exists exactly when the request completed, the target was read and the host resolved; its fields come from the reading, the lookup and the response |
| Probe.Flyover | Program.cs:359-395 | as the program runs it: a message exists exactly when the request completed, the as-written reading succeeded and the host resolved, and its host and port are that reading's |
| Probe.FlyoverCorrected | Program.cs:359-395 | the corrected twin: the same, with host and port from the corrected reading |
| Probe.FlyoverCorrectedDiffersOnlyInPort | Program.cs:379-381 | both versions answer for the same requests; they agree whenever the target has a port segment, and otherwise differ at most in the port, 80 against 443 |
| Trigger.StripPort | Program.cs:299-303 | the fallback is a prefix of the target; with other than two colons it is the target itself, and with two it ends just before the last colon and keeps one colon |
| Trigger.StripPortIdempotent | Program.cs:299-303 | stripping the fallback again changes nothing |
| Trigger.StripPortOfSuffix | Program.cs:299-303 | a one-colon prefix followed by `:` and colon-free text falls back to that prefix |
| Trigger.StripPortOfTarget | Program.cs:299-303 | `scheme://host:port` falls back to `scheme://host` when the host holds no colon |
| Trigger.ParseFallbackAsWritten | Program.cs:299-303 | as written, the fallback of an expanded target of a colon-free host reads as that host on port 80, for both schemes |
| Trigger.Step | Program.cs:277-333 | every probe attempt uses up an attempt, and the protocol never returns to its first attempt |
| Trigger.NestedTry | Program.cs:277-333 | the nested `try`/`catch` as a value; no contract of its own: it is the reference `Trigger.Trigger` is proved equal to |
| Trigger.Trigger | Program.cs:275-334 | the state machine agrees with the nested `try`/`catch`; it makes one or two probes, the second exactly after an `HttpRequestException`, against the stripped target; a message is the last probe's answer; `null` means no probe answered |
| Trigger.AliveMessageNamesItsTarget | Program.cs:374-390 | for a colon-free host, an alive message names the target's host; its port is the target's port after a first-attempt answer, and 80 after a fallback answer, for both schemes |
| Trigger.AliveMessageNamesItsTargetCorrected | Program.cs:374-390 | with the corrected reading the same holds, except that a fallback answer carries the scheme's implicit port, 443 for `https` |
| Trigger.UnchangedRetryMayAnswer | Program.cs:299-313 | when the fallback URL equals the target, the retry is still a separate request: it may be answered after the first request raised an `HttpRequestException` |
| Router.AliveOnly | Program.cs:257-259 | the filter never yields more results than it receives |
| Router.AliveOnlyAtAliveIndices | Program.cs:257-259 | the `k`-th kept result is the non-null outcome at the `k`-th alive position |
| Router.AliveIndicesIncreaseAndCover | Program.cs:257-259 | the alive positions increase, and every non-null outcome is at one of them |
| Router.AliveOnlyKeepsOrder | Program.cs:257-259 | the filter keeps exactly the non-null results, in their original relative order |
| Router.AliveAndDeadPartition | Program.cs:257-261 | the alive results and the dead targets together account for every target |
| Router.Outcomes | Program.cs:229-245 | one outcome per target, each the `NestedTry` of that target under its own slot's probe; `Router.Dispatch` is proved to compute it |
| Router.Dispatch | Program.cs:229-245 | one outcome per target, and the `i`-th outcome is that of the `i`-th target probed through its own slot |
| Router.Router | Program.cs:92-273 | the first failing option check or a useless wordlist stops the run; then a negative thread count throws and a zero count stalls, both without a report; otherwise two targets per (host, port) pair are tried, and the report is exactly the alive outcomes in dispatch order |

## Left out

- Banner, cursor, colours and every `Logger` call, including the debug-only messages: presentation only.
- `System.CommandLine` wiring: a library binding. `Options` is a plain record.
- The generated output-file name (a new GUID when none is given): `Files.outputFileExists` stands for `File.Exists` of whatever name is in effect.
- Reading the wordlist file: it arrives as a sequence of lines. Writing the JSON report: the `Report` value is what would be serialized.
- The thread-count warning: it only logs.
- The `SemaphoreSlim` throttle and `Task.Run`: concurrency. For a positive count the throttle never holds a target back, and `Task.WhenAll` keeps task order, so the model dispatches sequentially in order. Only the count's effect at construction (negative) and at the first wait (zero) is modelled.
- `HttpClient`, the TLS callback, cookies and the request timeout: network behaviour, folded into the `send` oracle. A timeout is another exception (`OtherFailure`). The oracles answer per request: a request names its dispatch position, its attempt and its URL, so a retry of an unchanged URL and two targets with the same URL can meet different answers.
- The proxy: it is validated, but `Trigger` never passes it to `Flyover`, so no request uses it. The model validates it and nothing more.
- `Dns.GetHostEntryAsync` and the formatting of addresses: the `resolve` oracle.
- The stopwatch and its floating-point minute count: timing only.
- Text.TrimTrailingSlashes: the program's `EndsWith("/")` uses the string overload, which compares under the current culture; the model compares the last character exactly. The two differ on a line whose `/` is followed by characters the culture ignores (a soft hyphen U+00AD, a zero-width space U+200B, U+0000): the program drops those characters and the slash, while the model keeps the line unchanged. Culture tables are outside the model; with culture support switched off (invariant globalization mode) the comparison is exact and the two agree.
- Text.RemoveSchema: the extension method of HttpDoom.Utilities is not part of this model. Its body here is an assumption: one leading `http://` or `https://` is removed, matched case-sensitively.
- `Uri.CheckHostName`: the framework's host-name grammar is the `classify` parameter of `Wordlist.CheckHostName`. Only the empty-name answer is fixed.
- Hosts with colons (IPv6 literals, which `Uri.CheckHostName` accepts): the model computes what the program does with them (the split gives more than two parts and the port is read from the second, and the fallback of a target with more than two colons is the target itself), but the reading and fallback lemmas about expanded targets are stated for colon-free hosts only.
- Decimal.ParseInt32: does not model the white space, culture-specific signs or other forms `int.Parse` also accepts, because the text it reads is either a port written by `FormatInt` or a piece of a host name, such as one of an IPv6 address.
- Decimal.FormatInt: writes the invariant-culture form, which the current culture could in principle change for negative numbers. Ports are never negative in practice.

## Findings

| source | as written | input that shows it | evidently intended | confidence | as-written member | corrected member |
|---|---|---|---|---|---|---|
| Program.cs:379-381 | a target without a port segment is recorded with port 80, whatever its scheme | the fallback `https://example.com` of `https://example.com:8443`, which is requested on port 443 | record the port the request went to: 443 for `https`, 80 for `http` (the retry is announced as trying SSL/TLS without a port) | medium, not executed | Probe.ParseTargetAsWritten, Probe.AsWrittenHttpsPortlessReportsPort80, Trigger.AliveMessageNamesItsTarget | Probe.ParseTarget, Probe.ParsePortless, Probe.FlyoverCorrected, Trigger.AliveMessageNamesItsTargetCorrected |

`Probe.Flyover`, and with it `Router.Router`, follows the program and
records port 80 for an `https` fallback. `Probe.FlyoverCorrected` is the
corrected twin; `Probe.FlyoverCorrectedDiffersOnlyInPort` shows that the
two differ in nothing else.
