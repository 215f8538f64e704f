# ts-dns: verified models

ts-dns is a DNS forwarder: it takes queries on several inbounds, answers them from a hosts table or a cache, or passes
them to a group of upstream servers chosen by domain rules. This project models the parts of it that hold state or do
string algebra, and proves what they promise for every input, every run and every interleaving.

Check it with `dafny verify dfyconfig.toml` (Dafny 4.11).

## How the models are built

- **Concurrent protocols** are state machines. One action is one atomic step of one goroutine (taking a lock, a channel
  operation, a pointer swap, one record in the statistics), every enabled action may come next, and a list of actions is
  one interleaving. `Lifecycle` models serving, reloading and stopping together with every group's IPSet queue,
  `DoHHandshake` the resolution handshake of DoH callers, `Race` one query racing its upstreams. Their theorems hold in
  every reachable state; the invariants are inductive.
- **Objects updated in place** are classes, and each method's contract gives the new state as a function of the old one:
  the per-host statistics (`HostSelection.HostTable`), the trie of heap nodes (`DomainTrie.Trie`, with a ghost map from
  domains to nodes that says the heap is a tree), the matcher (`Adblock.ABPlus`), the cache (`Cache.DNSCache`), the hosts
  tables (`Hosts.HostTables`), messages, records and requests. Loops that splice a slice under their own index are kept
  as such loops (`FastestIP.Delete`, `Requests.RemoveCookies`), and the walk over the trie passes one backing array
  through its recursion as the code does (`DomainTrie.Trie.Append`).
- **String algebra** is functions on `seq<char>` that follow the code, refined to a meaning: label sequences for suffix
  rewriting, glob semantics for wildcards, fields for the cache key.
- Clocks, random draws, upstream answers, pings and the choices of a lossy store are parameters, so that the results
  hold for all of them. A monotone clock is assumed only where a contract says so.

## What comes out

- No client request runs in a handler whose stop has begun, each handler is started and stopped at most once, and every
  IPSet task a client request got into a queue has been handed to its target, once and in order, when that handler's
  `stop` returns. Requests that DoH callers send to their own handler bypass the lock. Their tasks can be lost, and
  exactly those are that were queued after the group's worker left (`LifecycleTasks.TaskAddedIff`).
- A client is refused if and only if no handler is published. A reload that returns has published the handler it built,
  unless the wrapper was stopped; once a Stop has returned, none is published. What a request posts is offered to the
  queue, in order, and taken while there are fewer than 1024 in it.
- Calls return: every step under way lowers a measure, so without new calls every run ends with all of them returned.
- Evicting idle hosts cannot be observed in any history: an upstream is asked alone exactly while a one-hour window runs
  that a success of it opened, and otherwise all are (`HostSelection.AnswerIs`).
- A query returns the first successful result it receives, at once, and none only if every attempt failed or it was
  cancelled from outside (`RaceRuns.OutcomeIs`).
- The DoH handshake blocks every party exactly when three abandoned requests fill its channels. Before `Exit` a caller
  without a client can still get one if and only if the state is not doomed: both channels full, no call waiting for its
  token, and the resolver about to notify, or busy with a request for the upstream's own name
  (`DoHHandshake.ClientIffNotDoomed`). Doomed states are reachable and stay so; the daily tick is not served either.
- With clients built a DoH call returns one of them at its next step; the first call gets what its own resolution finds.
- A redirected query gets the answer of the group redirected to, whatever the first group said; asked again it gets that
  answer from the cache, with what is left of its TTLs, until the least of them has passed.
- Extending a matcher gives the right-biased merge of the rules (`Adblock.ABPlus.Extend`).
- An anchored rule speaks of its domain if and only if what follows the domain holds no `|` and no `://`: a rule with
  the option `domain=a|b` is read as one for `b` (`RuleText.AnchoredRuleIff`). The `@@` of an unblocking rule is cut off
  if and only if the rule has an anchor or a scheme (`RuleText.MarkGoesIff`), so `@@example.com` does not unblock
  `example.com`. Of all rules between slashes one alone cannot be sliced (`RuleText.PanicsIff`).
- A cached TTL is the clamped TTL if and only if the configured least TTL fits 32 bits; beyond that, entries stop being
  answered before they expire (`Cache.AnsweredUntilExpiryIff`). Over every history the cache answers a question from the
  last response stored for it, until that expires, and from nothing else (`CacheHistory.FoundIffLastStored`).
- The cache key is uniquely decodable for qualified names, but for the family of the subnet, which the subnet shows if it
  keeps to section 6 of RFC 7871; without a final dot two questions can share a key.
- Rewriting a name forward by a list of rules and back returns it if and only if the name leads to its own rewrite: at
  each rule it is under the source and goes on rewritten, or it is not under the destination and goes on as it is
  (`Hijack.HijackRoundTripIff`). For one rule this is that the name is under the source or not under the destination; a
  client that asks for a rule's destination itself gets the source back (`Hijack.DestinationIsLost`).
- A compiled wildcard of plain characters accepts what the wildcard means on exactly the texts without a line break, and
  names unpacked from a message have none. Two wildcards have one expression if and only if they agree once every `\?` is
  written as a dot (`Wildcards.TextsCollideIff`), so over a set of characters wildcards and expressions correspond one to
  one if and only if the set lacks `\`, `?` or the dot (`Wildcards.InjectiveIff`).
- The hosts reader can depend on the order in which Go walks its maps. It does not if and only if any two configured keys
  that stand for one host (they differ in case or surrounding space) give it lists of which one is the front of the
  other, and wildcards with equal texts have equal addresses (`HostsConf.IndependentIff`). The keys `*.A` and `*.a` with
  different addresses are a configuration for which it does.
- An exact host loses to a wildcard for a fully qualified query when the wildcard accepts the dotted form, as a bare `*`
  does; it wins when no wildcard ends in a dot, `*` or `?`.

## Model

| member | source | states |
|---|---|---|
| LifecycleInvariant.LockStep | inbound/handler.go:51-112 | every step of every call keeps mutual exclusion of both locks: one lifecycle holder, one drain writer, and no reader inside while the pointer is swapped |
| LifecycleInvariant.OwnStep | inbound/handler.go:58-112 | every step keeps each handler published, or owned by exactly one call in a matching phase, or stopped to the end |
| LifecycleInvariant.ServeStep | inbound/handler.go:83-96 | every step keeps requests inside the published handler only |
| LifecycleInvariant.FlagStep | inbound/handler.go:64-69 | every step keeps the stopped flag and the pointer consistent: once stopped with the lock released, the pointer is nil |
| LifecycleInvariant.GroupsStep | outbound/groups.go:821-882 | every step keeps each queue: what was accepted is what was added, what the worker holds and what is queued, in order, and after the worker's exit nothing of a client is left |
| LifecycleInvariant.StepKeepsInv | inbound/handler.go:58-112 | the whole invariant is inductive over all actions of all threads and goroutines |
| LifecycleInvariant.RunKeepsInv | inbound/handler.go:58-112 | the invariant holds after every run |
| LifecycleSafety.RequestsRunInLiveHandlers | inbound/handler.go:83-96 | a request served through the wrapper is inside the published handler, which was started, whose stop has not begun and whose groups all run |
| LifecycleService.ServedIffPublished | inbound/handler.go:83-96 | in every reachable state a client is refused by the wrapper if and only if no handler is published, and else is inside the published one |
| LifecycleService.RequestGetsIn | inbound/handler.go:83-96 | with no swap announced a request gets in and finds what is published |
| LifecycleService.SwapPublishes | inbound/handler.go:58-77 | right after a reload's swap the published handler is the one that reload built, and after a stop's swap there is none |
| LifecycleService.ReloadReturned | inbound/handler.go:51-81 | a reload that has returned was refused its configuration, or its handler was published, or the wrapper was stopped and the handler was stopped unstarted |
| LifecycleService.StopReturned | inbound/handler.go:98-112 | once a Stop has returned nothing is published and no request is in a handler, ever after |
| LifecyclePosts.PublishedIsRunning | outbound/groups.go:821-870 | the published handler has the groups it was built with, all started and none being stopped, their workers at work, refreshing exactly those lists that have a URL |
| LifecyclePosts.PostIsOffered | outbound/groups.go:738-760 | a request may post to any group of its handler; its tasks are offered in order, and a queue takes one if and only if it holds fewer than 1024 |
| LifecyclePosts.AllOffered | outbound/groups.go:738-760 | when a request has returned, all it posted has been offered |
| LifecyclePosts.WorkerEmptiesQueue | outbound/groups.go:829-850 | by its own steps a worker hands all its queue holds to Add, in order |
| LifecycleSafety.StartedAndStoppedOnce | inbound/handler.go:64-81 | start and stop are each called at most once on a handler, and stop never on the published one |
| LifecycleSafety.StepNeverRestarts | inbound/handler.go:384-399 | no step starts a handler or a group of it after its stop has begun |
| LifecycleSafety.NeverRestarted | inbound/handler.go:384-399 | the same over every continuation of a run |
| LifecycleSafety.StopChClosedOnce | outbound/groups.go:871-880 | a group's Stop never closes an already closed channel, so it cannot panic |
| LifecycleSafety.AddedInOrder | outbound/groups.go:738-760 | at every moment what was handed to Add is, once each and in order, a front of what the queue accepted, and the queue is within its capacity |
| LifecycleSafety.NoClientTaskLost | outbound/groups.go:821-882 | when stop of a handler has returned, every accepted task of a wrapper-served request was handed to Add exactly once and in order |
| LifecycleTasks.StepGrows | outbound/groups.go:821-882 | every step lets a group's lists grow only, adds nothing after the worker's exit, and has added at the exit all that was accepted before |
| LifecycleTasks.QueuesOnly | outbound/groups.go:738-760 | only requests queue tasks, and none does before some group of the handler was started |
| LifecycleTasks.StartedAtEnd | inbound/handler.go:384-399 | once some group of a handler was started, all of them were when its stop has returned |
| LifecycleTasks.TaskAddedIff | outbound/groups.go:738-882 | whoever queued it, a task has been handed to Add, in its turn, when stop has returned if and only if the worker of its group had not left when it was queued |
| LifecycleTasks.ClientTaskIsAdded | outbound/groups.go:738-882 | a client's task is never queued that late, so each one is |
| LifecycleSafety.InternalTaskCanBeLost | inbound/handler.go:384-387 | an input for which it is lost: a reachable quiet state with a task of a request that bypasses the wrapper still in the queue |
| LifecycleSafety.StoppedStaysNil | inbound/handler.go:98-108 | after Stop's swap the pointer is nil in every continuation |
| LifecycleSafety.QuietMeansStopped | inbound/handler.go:58-112 | when every call has returned, all handlers but the published one were stopped once and to the end, and after Stop all of them |
| LifecycleSafety.NoDeadlock | inbound/handler.go:58-112 | in every reachable state with an unreturned call, a step of something already under way is enabled |
| LifecycleProgress.ProgressLowers | inbound/handler.go:58-112 | every step under way lowers a measure of what is left to do |
| LifecycleProgress.BoundedSteps | inbound/handler.go:58-112 | with no reload left to build, no continuation is longer than that measure |
| LifecycleProgress.CallsReturn | inbound/handler.go:58-112 | from every reachable state the steps under way lead to one where all calls have returned |
| HostSelection.HostTable.Cleanup | outbound/groups.go:623-633 | entries idle for over 24 hours go, at most once in five minutes, and nothing else changes |
| HostSelection.HostTable.CandidatesForHost | outbound/groups.go:539-559 | the candidates as a function of the cleaned table and the time, and the table with the host touched |
| HostSelection.HostTable.EnsureHostStats | outbound/groups.go:600-611 | the host has an entry, last used now, other hosts unchanged |
| HostSelection.HostTable.RecordCallerSuccess | outbound/groups.go:569-584 | the host is active on the caller; the window moves only if it was not already running for that caller |
| HostSelection.HostTable.RecordCallerFailure | outbound/groups.go:586-598 | only a failure on an unseen host or of its active caller makes it idle |
| HostSelection.Replay | outbound/groups.go:539-598 | the class methods run the evicting history step by step and answer queries as it does |
| HostSelection.StepBisimilar | outbound/groups.go:539-633 | evicting and never-evicting tables stay bisimilar over every event |
| HostSelection.EvictionUnobservable | outbound/groups.go:539-633 | over every history with a monotone clock a query is answered as if no entry were ever deleted |
| HostSelection.IdleEntriesAreEvicted | outbound/groups.go:623-633 | after a query no entry has been idle for 24 hours and five minutes or longer |
| HostSelection.UsedEntriesStay | outbound/groups.go:623-633 | an entry used in the last 24 hours stays |
| HostSelection.AnswerIs | outbound/groups.go:539-598 | over every history, for any number of callers: the caller of the running window alone is asked, and without one all are, in order |
| HostSelection.SomeoneIsAsked | outbound/groups.go:539-567 | a group with callers asks some, each once; with one caller it asks that one |
| HostSelection.SingleCallerIffWindow | outbound/groups.go:539-598 | with two or more callers, exactly one caller is asked if and only if a success of it opened a window less than an hour ago, undisturbed since; later successes do not extend it |
| HostSelection.RaceOutcome | outbound/groups.go:569-598 | after a query to all, failures and one win in any order leave the winner alone asked for one hour after the win and all after that |
| Race.StepKeepsInv | outbound/groups.go:488-530 | every step keeps the account of sent results, the decision and the log |
| Race.SendsNeverBlock | outbound/groups.go:488-499 | a result in hand always finds room in the response channel |
| Race.NoDeadlock | outbound/groups.go:517-530 | while the query waits, a call runs or a result can be sent or received, or it was cancelled |
| Race.FailsOnlyWithoutWinner | outbound/groups.go:517-530 | unless cancelled, the query fails only when every attempt failed |
| RaceRuns.OutcomeIs | outbound/groups.go:488-530 | read off the actions alone, unless the query gave up: the first successful result received is returned as soon as it is, none is once all have come in without one, and until then it waits |
| RaceRuns.AbortIsFromOutside | outbound/groups.go:517-530 | the query gives up only if it was cancelled from outside |
| RaceRuns.NoneIffAllLost | outbound/groups.go:488-530 | a query that no one cancels returns none if and only if every attempt came back without a response |
| RaceRuns.LogIs | outbound/groups.go:502-530 | recorded are every failure when it comes and the success that is returned, in that order, and nothing else |
| RaceRuns.CallsMayEnd | outbound/groups.go:488-515 | a running call may succeed, fail or be cancelled, and a result held may be sent |
| Race.LogIsRace | outbound/groups.go:502-530 | exactly one success is recorded, the winner's, and all else recorded are failures of other callers |
| Race.WinnerIsAskedNext | outbound/groups.go:488-598 | whatever the interleaving, and whatever happens for other hosts, the returned response's caller alone is asked for one hour after its success was recorded |
| DoHHandshake.StepKeepsInv | outbound/caller.go:190-316 | every step keeps the account of requests and tokens |
| DoHHandshake.Conservation | outbound/caller.go:190-316 | before Exit, queued requests, the one run holds and tokens equal waiting plus abandoned calls, each channel within capacity |
| DoHHandshake.TokenIsComing | outbound/caller.go:296-310 | before Exit a call past its send has a token, or a request that becomes one |
| DoHHandshake.BlockedIffFull | outbound/caller.go:190-316 | in a reachable state every party is blocked exactly when three abandoned requests fill the pipe before Exit |
| DoHHandshake.TwoAbandonedNeverBlock | outbound/caller.go:190-316 | with at most two abandoned requests, or after Exit, some party can move |
| DoHHandshake.ClientIffNotDoomed | outbound/caller.go:190-316 | in every reachable state before Exit some run without Exit gets a client if and only if the state is not doomed |
| DoHHandshake.JamLastsUntilExit | outbound/caller.go:190-213 | once doomed, every run without Exit stays so and every call that returns comes back empty |
| DoHHandshake.JamIsReachable | outbound/caller.go:285-316 | three slow, failed resolutions whose callers gave up lead to a doomed state with run stuck notifying |
| DoHHandshake.LoopingDoomIsReachable | outbound/caller.go:222-226 | with requests for the upstream's own name the other doomed states are reached as well |
| DoHHandshake.ClientsStay | outbound/caller.go:274-282 | once a client exists there always is one |
| DoHHandshake.ReturnsAre | outbound/caller.go:274-316 | a call comes back without a client only by giving up, by Exit or while there is none, else with one of those built |
| DoHHandshake.ClientsAreReturned | outbound/caller.go:274-316 | with clients a call that looks, or looks again, comes back at its next step, with any of them |
| DoHHandshake.ClientsAreFound | outbound/caller.go:215-271 | clients are what the last resolution found that found any and did not loop |
| DoHHandshake.OnlyTicksResolve | outbound/caller.go:190-213 | with clients only the tick resolves |
| DoHHandshake.OneCallReturns | outbound/caller.go:190-316 | where nothing is under way and there is no client, one call gets what its own resolution finds, without a tick |
| DoHHandshake.ExitFrees | outbound/caller.go:284-305 | after Exit every call that waits can come back |
| DoHHandshake.RunEnds | outbound/caller.go:190-213 | after Exit run ends within three of its own steps |
| DomainTrie.Trie.Add | matcher/trie.go:32-51 | the heap stays a tree and its rules become the old ones with the domain's flag written over |
| DomainTrie.Trie.Match | matcher/trie.go:54-88 | the walk over the heap returns the lookup of the rule map |
| DomainTrie.LookupIsLongestSuffix | matcher/trie.go:54-88 | lookup answers a flag if and only if the longest stored suffix of the domain has it, and nothing if and only if no suffix is stored |
| DomainTrie.LastAddWins | matcher/trie.go:32-51 | after any sequence of Adds a domain's flag is that of the last Add meaning it |
| DomainTrie.DomainOfIs | matcher/trie.go:32-41 | a text means its labels, whatever dots are around it |
| DomainTrie.AddRuleIs | matcher/trie.go:32-51 | an empty text is no rule, any other sets the flag of its domain and no other |
| DomainTrie.Trie.Append | matcher/trie.go:106 | append writes into the shared backing array when there is room, keeping the part before it |
| DomainTrie.Trie.Reversed | matcher/trie.go:98-103 | the path turned round is the domain's labels |
| DomainTrie.Trie.WalkNode | matcher/trie.go:97-108 | below a node every stored domain is reported exactly once with its own path and flag, though siblings overwrite one array, for any order of children |
| DomainTrie.Trie.Walk | matcher/trie.go:91-95 | every stored domain is reported exactly once |
| DomainTrie.ReportedReadsBack | matcher/trie.go:32-41 | a reported text means the stored domain again, but for the domain of dots, which no matcher's trie holds |
| DomainTrie.AddReported | matcher/adblock.go:89-92 | adding what a walk reported is a right-biased merge, on the bare trie without the domain of dots |
| RuleText.PanicsIff | matcher/adblock.go:121-131 | slicing a rule between slashes fails on one line alone: the one whose fixed ends overlap |
| RuleText.AnchoredRuleIff | matcher/adblock.go:101-119 | behind an anchor the rule is read as one for its domain, whatever that is, if and only if the rest holds no bar and no scheme |
| RuleText.MarkGoesIff | matcher/adblock.go:101-119 | the mark of an unblocking rule leaves its domain if and only if the rule has an anchor or a scheme |
| RuleText.AnchoredLine | matcher/adblock.go:121-135 | the usual lines with anchor and separator are read as what they mean, blocking or not |
| RuleText.BareLine | matcher/adblock.go:121-135 | a bare domain is read as a rule for it, with or without a final dot |
| RuleText.PathLineIff | matcher/adblock.go:125-131 | a rule between slashes is an expression if it has the one form that is taken, else nothing |
| RuleText.NoRule | matcher/adblock.go:122-124 | blank lines, comments and headings are no rules |
| RuleText.UnescapeIs | matcher/adblock.go:132 | every escaped slash becomes one |
| RuleText.LinesAreRead | matcher/adblock.go:121 | a text is read line by line |
| RuleText.MarkReadsAlike | matcher/adblock.go:142-162 | the two tests for the mark decide alike, and the slice of the second is in range |
| Adblock.DomainRuleIsNotDots | matcher/adblock.go:149-162 | a domain that passes the test of its ending is never the domain of dots |
| Adblock.DomainRuleIff | matcher/adblock.go:149-160 | a domain goes to the trie if and only if it has a dot, no wildcard, and the ending of a top-level domain |
| Adblock.ABPlus.AddRegexp | matcher/adblock.go:141-146 | an expression that compiles joins the list of its kind |
| Adblock.ABPlus.AddEntry | matcher/adblock.go:126-162 | one line's entry: an expression or a wildcard's expression joins its list, a domain that ends like one goes to the trie, anything else is dropped |
| Adblock.NewABPByText | matcher/adblock.go:99-166 | of the text's lines, the trie holds the domain rules with the last of each winning, the lists the expressions of each kind in order, merged at the end |
| Regexps.JoinedCompiles | matcher/adblock.go:26-40 | the groups of compiled expressions joined by bars compile, to their alternatives |
| Adblock.ABPlus.MergeRegs | matcher/adblock.go:26-40 | the joined text compiles to the alternatives of the whole list; none for an empty one |
| Regexps.AnyOfMatches | matcher/adblock.go:26-40 | a merged expression matches exactly when one of its parts does |
| Regexps.LiteralMatches | matcher/adblock.go:61-82 | an expression without syntax matches exactly the texts that contain it |
| Adblock.ABPlus.Optimize | matcher/adblock.go:21-24 | the merged expressions belong to the present lists |
| Adblock.ABPlus.MatchRegs | matcher/adblock.go:61-82 | merged or one by one, the same answer |
| Adblock.ABPlus.Match | matcher/adblock.go:43-84 | the decision: trie first, then blocking, then unblocking expressions, whatever was merged |
| Adblock.LastLineDecides | matcher/adblock.go:43-166 | the last line of a text that is a rule for a name's own domain decides that name |
| Adblock.EntriesMatch | matcher/adblock.go:61-82 | the expressions of a kind match a name if and only if an entry of that kind does |
| Adblock.DecisionIgnores | matcher/adblock.go:43-60 | a name is decided alike in any case and with or without its final dot |
| Adblock.ABPlus.Extend | matcher/adblock.go:87-97 | the right-biased merge of both rule maps, and the expressions appended |
| Adblock.ExtensionWins | matcher/adblock.go:86-97 | after an Extend a domain with an exact rule in the target is decided by that rule |
| Adblock.RulesMatch | matcher/adblock.go:137-146 | a list of compiled wildcard rules matches exactly when one of the wildcards accepts the text |
| Adblock.WildcardRulesDecide | matcher/adblock.go:43-84 | a domain the trie is silent on is blocked if a blocking wildcard accepts it, else unblocked if an unblocking one does, else left alone |
| Wildcards.TranslateIsTokens | hosts/hosts.go:88-93 | the three replacements in sequence translate character by character |
| Wildcards.RuleTranslationAgrees | matcher/adblock.go:137-141 | the two replacements of rules agree with the three of hosts on wildcards without a question mark |
| Wildcards.TextsCollideIff | hosts/hosts.go:88-93 | two wildcards share a text if and only if they agree once every backslash with a question mark is a dot |
| Wildcards.InjectiveIff | hosts/hosts.go:88-93 | over a set of characters different wildcards have different texts if and only if it lacks the backslash, the question mark or the dot |
| Wildcards.TranslateInjective | hosts/hosts.go:88-93 | in particular without backslashes |
| Wildcards.TextCompiles | hosts/hosts.go:93 | the anchored text of a plain wildcard parses to one item a character between the anchors |
| Wildcards.WildcardMeaning | hosts/hosts.go:88-93 | the compiled expression accepts exactly what the wildcard means, on texts without a line break |
| Wildcards.MeaningIffNoLineBreak | hosts/hosts.go:88-93 | for all plain wildcards the expression means the wildcard on a text if and only if the text has no line break, which no unpacked name has |
| Sorting.SortSlice | hosts/hosts.go:171-176 | the library's sort: some rearrangement without inversions |
| Sorting.SortedUnique | hosts/hosts.go:171-176 | without ties a sorted rearrangement is unique |
| Sorting.LessTextIs | hosts/hosts.go:171-176 | texts compare by their first difference, a front before the whole |
| Hosts.HostTables.AddDomainIP | hosts/hosts.go:49-53 | the tables stay those of the addresses given, with one more for an exact host |
| Hosts.HostTables.AddPatternIP | hosts/hosts.go:55-67 | the same for a wildcard, with its text and expression |
| Hosts.HostTables.AddHost | hosts/hosts.go:84-98 | one address for one host, in the table its characters choose; fails only if the expression does not compile |
| Hosts.TablesAre | hosts/hosts.go:46-67 | the tables hold exactly the hosts given addresses, each address once, in the order first given |
| HostsMeaning.TablesHold | hosts/hosts.go:46-67 | a host that was given addresses is in the table its characters choose, with its text, expression and addresses |
| HostsMeaning.IPsAre | hosts/hosts.go:36-53 | a host has exactly the addresses given to it, each once |
| HostsMeaning.IPsInOrder | hosts/hosts.go:36-53 | they stand in the order first given |
| HostsMeaning.FoldIs | hosts/hosts.go:70 | a key stands for its host in lower case, whatever space is around it |
| HostsMeaning.EntryLoadsIff | hosts/hosts.go:69-102 | an entry loads if and only if its key is blank, or all its addresses parse and, if it has any, its wildcard compiles |
| HostsMeaning.EntryGives | hosts/hosts.go:69-102 | it gives its addresses, in order, to that host |
| HostsMeaning.AddressesInOrder | hosts/hosts.go:74-82 | the addresses of an entry are those of its texts, in the order they are written |
| HostsMeaning.SplitIPsIs | hosts/hosts.go:74-76 | addresses in one text are separated by spaces or commas |
| HostsMeaning.CommentLine | hosts/hosts.go:119-122 | a comment gives nothing |
| HostsMeaning.AddressLine | hosts/hosts.go:123-151 | a line that starts with an address gives it to each host behind it |
| HostsMeaning.EntryLine | hosts/hosts.go:123-155 | any other line is an entry; a lone word gives nothing |
| Hosts.HostTables.Load | hosts/hosts.go:69-102 | an entry is loaded if and only if all its addresses parse and, if it has any, its wildcard compiles; under its trimmed, lower-cased host, and not at all if that is blank |
| Hosts.HostTables.LoadLine | hosts/hosts.go:128-160 | a line is a comment, an address with hosts, or a host with addresses |
| Hosts.ListPatterns | hosts/hosts.go:167-170 | walking the map lists every wildcard once, in some order |
| Hosts.HostTables.Build | hosts/hosts.go:167-180 | the reader has the exact table and a sorted rearrangement of the wildcards |
| Hosts.TableUnique | hosts/hosts.go:167-176 | entries that give each host the same addresses come to the same table, in whatever order the wildcards are walked |
| Hosts.OrderIndependentIff | hosts/hosts.go:167-176 | of given entries the table is independent of the walk over the wildcards if and only if wildcards with equal texts have equal addresses |
| Hosts.TextsDecideIff | hosts/hosts.go:167-176 | that is so if and only if wildcards that agree in this sense were given the same addresses |
| Hosts.PlainTextsDecide | hosts/hosts.go:167-176 | where no wildcard has both a backslash and a question mark that is always so |
| Hosts.BackslashLeavesOrderOpen | hosts/hosts.go:167-176 | two entries for which it is not |
| HostsConf.NewDNSHosts | hosts/hosts.go:45-181 | the reader of the configured hosts, walked in any order, and of the files; an error exactly when an address does not parse, a wildcard does not compile, or a file cannot be opened or read |
| HostsConf.FilesLoadIff | hosts/hosts.go:110-160 | files load if and only if each is opened and read to its end and each line loads |
| HostsConf.LinesInOrder | hosts/hosts.go:116-157 | the lines give in their order |
| HostsConf.FilesInOrder | hosts/hosts.go:110-160 | the files give in theirs |
| HostsConf.WalksAgree | hosts/hosts.go:104-108 | where keys of one host give it lists of which one is the front of the other, every walk over the configured hosts gives each host the same list |
| HostsConf.IndependentIff | hosts/hosts.go:104-176 | every walk over the configured hosts and every walk over the wildcards come to the same reader if and only if that is so and equal texts come with equal addresses |
| HostsConf.CaseMattersToWalk | hosts/hosts.go:70-108 | two keys that differ in case, with different addresses, for which it is not |
| Hosts.HostReader.GetIPs | hosts/hosts.go:232-242 | one pass: the exact entry, else the first pattern that matches |
| Hosts.HostReader.Get | hosts/hosts.go:222-266 | the answer by query type, with the retry without the final dot, owner as asked in lower case |
| Hosts.RecordsSplit | hosts/hosts.go:251-259 | the answer keeps exactly the addresses of the asked kind whose record builds, in order, under the host |
| Hosts.FirstMatchIsBest | hosts/hosts.go:236-240 | in a sorted table the first match is a best match |
| Hosts.FindIsBestWildcard | hosts/hosts.go:232-242 | a host without an exact entry gets the addresses of the one wildcard that accepts it and has the longest, then least text; nothing if no wildcard accepts it |
| HostsMeaning.BestIs | hosts/hosts.go:171-176 | the best wildcard that accepts a host has the longest text, and of those the least |
| HostsMeaning.LookupIs | hosts/hosts.go:232-246 | every name gets its exact entry or its best wildcard; one with a final dot is tried without it if and only if it finds nothing as it stands |
| HostsMeaning.AnswerIs | hosts/hosts.go:222-266 | a query is answered if it asks for addresses and some found for its lower-cased name are of that kind, with those whose record builds, in order |
| Hosts.DottedQuery | hosts/hosts.go:243-246 | a fully qualified query for a host with an exact entry gets it if no wildcard accepts the dotted name, else the best wildcard that does |
| Hosts.ExactBeatsWildcards | hosts/hosts.go:243-246 | a fully qualified query gets the exact entry if no wildcard ends in a dot, `*` or `?` |
| Hosts.StarBeatsExact | hosts/hosts.go:243-246 | beside a bare `*` it never does |
| Hijack.RewriteQuestion | outbound/groups.go:331-363 | one question rewritten in place by all rules, in the order of the direction |
| Hijack.RewriteQuestions | outbound/groups.go:331-365 | every question is, and only its name changes |
| Hijack.ReplaceRefinesLabels | outbound/groups.go:418-442 | on well-formed names the text rewrite is the label-suffix rewrite, and the final dot or its absence is kept |
| Hijack.ReplaceIs | outbound/groups.go:418-442 | on any text: a name at or below the source gets the destination in its place and keeps the rest, any other stays |
| Hijack.FqdnIs | outbound/groups.go:424-426 | a final dot ends a name unless an odd number of backslashes escapes it |
| Hijack.RoundTripIffGuard | outbound/groups.go:335-340 | one rule there and back returns the labels up to case if and only if the name was under the source or not under the destination |
| Hijack.OneRuleRoundTripIff | outbound/groups.go:335-340 | the same on texts |
| Hijack.ReplacePreimage | outbound/groups.go:418-442 | the names a rule undone can come from: the name's own rewrite if it is under the source, the name itself if it is not under the destination |
| Hijack.HijackRoundTripIff | outbound/groups.go:331-365 | for every rule list a name rewritten forward and back returns up to ASCII case if and only if it leads to its rewrite, passing each rule by one of those two branches |
| Hijack.EchoReturnsIffLeads | outbound/groups.go:342-347 | the same for whatever question the upstream echoes |
| Hijack.HijackRoundTrip | outbound/groups.go:331-365 | in particular it returns when each rule's guard held on the way out |
| Hijack.StagesReturnIffGuarded | outbound/groups.go:331-365 | every stage of a rule list returns if and only if all guards hold |
| Hijack.GuardsNotNecessary | outbound/groups.go:344-346 | for the first stage alone they are not necessary: a rule listed twice |
| Hijack.DestinationIsLost | outbound/groups.go:331-365 | a client asking for a rule's destination gets its source back |
| Hijack.EchoRoundTripIff | outbound/groups.go:342-347 | an echo in another case returns exactly when the rewrite itself does |
| Messages.Copy | cache/dns.go:115 | a deep copy: fresh records with the same values |
| Messages.Msg.IsEdns0 | outbound/groups.go:379 | the option record nearest the end of the section |
| Messages.LastOPTIs | outbound/groups.go:379 | that is the option record behind which there is none |
| Messages.DoBitIs | outbound/groups.go:379 | the DO bit is bit 15 of its TTL field |
| Messages.WantedIs | outbound/groups.go:375-377 | types 1 and 28 ask for addresses |
| HijackAnswer.Gather | outbound/groups.go:382-396 | the address records of the asked type in order, renamed in place; other records untouched |
| HijackAnswer.Clean | outbound/groups.go:382-416 | those records remain, renamed, with no authority records and only the option record |
| HijackAnswer.CleanHijackAnswer | outbound/groups.go:370-416 | with one address question and no DO bit exactly those records remain, under the question's name, with no authority records and only the option record; else nothing changes |
| HijackAnswer.CleansIff | outbound/groups.go:370-381 | a response is cleaned if and only if it has one question, for an address, and no DO bit in its last option record |
| HijackAnswer.OfTypeIs | outbound/groups.go:382-396 | what remains are the records of the asked type, in order |
| HijackAnswer.KeptExtraIs | outbound/groups.go:398-415 | the last option record is kept, and nothing else of the section |
| HijackAnswer.ProcessHijackRules | outbound/groups.go:331-365 | questions by direction; answers cleaned on the way back only |
| HijackAnswer.EchoRestoredIff | outbound/groups.go:342-347 | the echoed question is restored to the client's if and only if the client's name leads to its rewrite |
| HijackAnswer.AnswerClient | outbound/groups.go:331-416 | a client whose name leads to its rewrite gets its own question back from an echo of it, and only addresses of the type it asked, in order, each under its name with its TTL |
| FastestIP.Collect | outbound/groups.go:667-690 | the different addresses of the queried type in the order they appear, up to the limit |
| FastestIP.AddressesAre | outbound/groups.go:667-690 | those addresses are exactly the queried-type ones, each once |
| FastestIP.Delete | outbound/groups.go:717-733 | the deletion loop is a filter |
| FastestIP.Receive | outbound/groups.go:648-662 | the first usable result that arrives before the query is cancelled |
| FastestIP.FastestResp | outbound/groups.go:635-735 | that response is returned, thinned or as it came, and its caller's success recorded once; without one nothing changes |
| FastestIP.AddressRemains | outbound/groups.go:692-735 | an address of the queried type is left if there was one |
| FastestIP.RemainingIs | outbound/groups.go:692-735 | of the queried-type addresses the one the ping found stays alone, with every other record in order; without two addresses, time or a ping that succeeds nothing goes |
| FastestIP.AddressesInOrder | outbound/groups.go:667-690 | the addresses are pinged in the order they first appear |
| FastestIP.TakenIs | outbound/groups.go:648-662 | the response taken is the first usable one |
| FastestIP.LimitIs | outbound/groups.go:640-643 | as many addresses as configured, else 15 |
| CacheKey.FormatECS | utils/dns.go:43-58 | the text of the first subnet option, or nothing |
| CacheKey.FindECSIs | utils/dns.go:43-58 | the subnet is the first one of the first option record that has one |
| CacheKey.Key | cache/dns.go:88-95 | the key of the request's name, type and subnet |
| CacheKey.DecimalInjective | cache/dns.go:90 | a number is determined by its text |
| CacheKey.DecimalIs | cache/dns.go:90 | the text of a number reads back as it, without leading zeros |
| CacheKey.KeyDecodes | cache/dns.go:88-95 | equal keys of qualified names force equal type, equal subnet address and mask and equal names up to case |
| CacheKey.KeyIffSameQuestion | cache/dns.go:88-95 | two requests share a key if and only if they ask the same, with the subnet as it prints |
| CacheKey.KeyIffSameSubnet | cache/dns.go:88-95 | with subnets that keep to section 6 of RFC 7871, if and only if the family is the same too |
| CacheKey.UnqualifiedNamesCollide | cache/dns.go:90 | any name without a final dot and the name with a digit more can share a key; unpacked names are qualified |
| Shuffle.ShuffledPermutes | cache/dns.go:136-139 | a shuffle rearranges |
| Shuffle.ShuffledInjective | cache/dns.go:136-139 | different draws give different orders |
| Shuffle.ShuffledOnto | cache/dns.go:136-139 | every order comes from some draws |
| Shuffle.ShuffleAt | cache/dns.go:136-139 | in place, the chosen positions are shuffled by the draws and no other position changes |
| Cache.Bounds | cache/dns.go:33-43 | configured bounds where positive, else the defaults, and an error exactly when the least exceeds the greatest |
| Cache.DefaultBounds | cache/dns.go:33-43 | one minute and one day without a configuration |
| Cache.AddressIndexes | cache/dns.go:129-134 | the positions of address records in order |
| Cache.AddressPositionsAre | cache/dns.go:129-134 | they are exactly those positions, increasing |
| Cache.ShuffleAddresses | cache/dns.go:128-139 | address records in the drawn order among their positions, all others where they were |
| Cache.CountDown | cache/dns.go:121-127 | every TTL less the elapsed seconds, or a miss exactly when some record has run out |
| Cache.Reply | cache/dns.go:115-140 | a hit hands out fresh records, counted down and shuffled; the stored ones are not written to |
| Cache.DNSCache.Get | cache/dns.go:97-142 | a hit exactly when the entry and all its records are alive; a miss takes out at most that entry |
| Cache.ClampAll | cache/dns.go:150-164 | every TTL clamped, and the least of them |
| Cache.NewItem | cache/dns.go:149-170 | the entry made of a copy |
| Cache.DNSCache.Set | cache/dns.go:144-173 | the entry under the request's key, or what the store's refusal leaves; the response is not kept |
| Cache.ExpireIsLeast | cache/dns.go:150-164 | the entry's life is within the bounds and at most every clamped TTL |
| Cache.ClampIs | cache/dns.go:150-160 | a TTL within the bounds is kept, any other becomes the bound it passes |
| Cache.ExpireIsAttained | cache/dns.go:150-164 | and it is that of one of the records |
| Cache.StoredIsClampedIff | cache/dns.go:160 | the 32-bit conversion cuts no clamped TTL if and only if the least TTL fits |
| Cache.StoredIsSound | cache/dns.go:144-173 | then every record outlives its entry |
| Cache.WrappedTTLMisses | cache/dns.go:160 | with a longer least TTL an entry is refused before it expires |
| Cache.AnsweredUntilExpiryIff | cache/dns.go:110-126 | entries are answered exactly until they expire, for all responses and times, if and only if the least TTL fits 32 bits |
| Cache.AbsoluteExpiryIsFixed | cache/dns.go:117-128 | at every hit the moment each record runs out is the stored one |
| Cache.HitIs | cache/dns.go:110-170 | a hit hands out exactly the records stored, each with what is left of its clamped TTL, and moves none but address records |
| Cache.StoreThenAsk | cache/dns.go:97-173 | a response stored and a question right after it: the answer to the same question until it expires, and to no other |
| CacheHistory.NewDNSCache | cache/dns.go:33-67 | an empty cache with the configured bounds |
| CacheHistory.ReplaySet | cache/dns.go:144-173 | Set runs the history of stores by value |
| CacheHistory.ReplayGet | cache/dns.go:97-142 | Get runs it and answers from the entry the history finds |
| CacheHistory.StoresIff | cache/dns.go:144-147 | a response is stored if and only if the cache is on and it has answers |
| CacheHistory.FoundIffLastStored | cache/dns.go:97-173 | over every history of Set, Get and losses, a question is answered from an entry if and only if it is that of the last response stored for that question, neither refused nor lost since, and not expired |
| CacheHistory.FoundIsSound | cache/dns.go:110-126 | whatever answers outlives none of its records |
| CacheHistory.AnswersAgree | cache/dns.go:97-173 | two answers to one question with nothing stored for it between run out, record by record, at the same moments |
| Groups.BuildGroups | outbound/groups.go:45-66 | accepted if and only if at most one group is the fallback, empty ones included, at most one has the GFW list, and the other settings of all are sound |
| Groups.AcceptedIff | outbound/groups.go:45-66 | in the settings' own terms, and which groups come of it |
| Groups.NewTable | inbound/handler.go:146-165 | the sorted table and the fallback, or an error exactly when there is none |
| Groups.TableUnique | inbound/handler.go:146-161 | table and fallback do not depend on the order the map of groups is walked in |
| Groups.Choose | inbound/handler.go:342-353 | the first group of the table that matches, else the fallback |
| Groups.ChosenIsLeast | inbound/handler.go:146-161 | the group asked is the one least matching group in the order ordinary, GFW list, fallback, then name, or the fallback when none matches |
| Groups.WhoIsAsked | inbound/handler.go:146-161 | the same without the table's order: ordinary groups before the one with the list before the fallback, then by name |
| Groups.TableOrder | inbound/handler.go:146-161 | the table stands in that order |
| Requests.RemoveEDNSCookie | utils/dns.go:94-110 | in place, every option record loses its cookies and nothing else |
| Requests.CookiesIgnored | utils/dns.go:94-110 | only cookies go, wherever they stand, and the rest keeps its order |
| Requests.SetDefaultECS | utils/dns.go:61-91 | in place, a request without a subnet gets the default one in its first option record, or in a new one |
| Requests.NoCookiesKeepsECS | utils/dns.go:94-110 | removing cookies leaves none and keeps the subnet |
| Requests.DefaultECS | utils/dns.go:61-91 | the request then carries its own subnet, or the default |
| Requests.DefaultECSOnlyAdds | utils/dns.go:81-90 | the default is one option in front of the first option record's, or of a new last record; all else is as it was |
| Requests.Request.Copy | outbound/groups.go:450-451 | a deep copy that shares no option record |
| Requests.Prepare | outbound/groups.go:444-458 | what the upstreams get is an edited and rewritten copy; the caller's request is not written to |
| Requests.PreparedECS | outbound/groups.go:452-457 | it carries the client's subnet or the group's, and no cookie if the group drops them |
| Requests.EditedIs | outbound/groups.go:452-457 | cookies go if the group drops them, the default subnet comes if it has one and none is there, and nothing else differs |
| Handler.HandlerImpl.AnswerEarly | inbound/handler.go:308-326 | format error, refusal or the hosts' answer |
| Handler.EarlyIs | inbound/handler.go:308-326 | malformed without a question; else refused for a disabled type, whatever the hosts say; else the hosts' records |
| Handler.HandlerImpl.AskGroup | outbound/groups.go:444-486 | a group answers what its upstreams reply to its own edit of the query, and nothing for a disabled type |
| Handler.GroupAnswerIs | outbound/groups.go:444-486 | a group answers nothing exactly for a type it disables, or for want of a reply to its own prepared query |
| Handler.SentIs | outbound/groups.go:450-458 | that query has every question rewritten forward by the group's rules and its options edited |
| Handler.HandlerImpl.Resolve | inbound/handler.go:336-371 | the chosen group, or the one the redirector names for query and answer, each asked with the query as the client sent it; a redirection without an answer keeps the first |
| Handler.AnswerFromGroups | inbound/handler.go:336-371 | the answer of the group redirected to, whatever the first answered; the first's if that has none or there is no redirection |
| Handler.HandlerImpl.AnswerLate | inbound/handler.go:327-381 | a cached answer, or a group's answer stored |
| Handler.HandlerImpl.AskAndStore | inbound/handler.go:332-381 | the request stored under is the one looked up, though groups rewrite questions and options |
| Handler.HandlerImpl.Handle | inbound/handler.go:212-381 | one query from hosts to cache to groups: which answer, what the store holds afterwards and under which key, and the caller's question as it was |
| Handler.RequestIsSeen | inbound/handler.go:308-381 | the cache sees the first question and all options, the groups all questions |
| Handler.StoredForIs | inbound/handler.go:373-381 | what the store holds after a miss: the entry made of the answer, under the key looked up |
| Handler.AskFirst | inbound/handler.go:327-381 | a query the groups answer finds that answer in the cache until its entry expires |
| Handler.AskAgain | inbound/handler.go:327-331 | such a query is answered from the entry, and asks no one |

## Left out

- Sockets, TLS, HTTP, SOCKS5, connection multiplexing, signals, YAML, file reading and logging.
- Library internals: packing of messages, admission in the cache's store (here a map that may refuse or lose entries),
  the regular expression engine (here what an expression spans, for literals, `.`, `*`, anchors and alternation), ICMP and
  TCP ping (here any listed address or an error).
- Hosts.HostTables.AddHost: a wildcard with expression syntax other than literals, `.`, `*`, `?` and anchors is refused
  here as one that does not compile; Go compiles some of them.
- General progress of the send in getClient: three abandoned requests can fill the pipe, so only the exact bound is
  stated. A waiting call may be released by a token of an earlier request; nothing is said of whose request was resolved.
- Requests that DoH callers make to resolve their own upstream: the lifecycle has that they may come and queue tasks; what
  they ask and get is not connected to DoHHandshake.
- The periodic fetch of the GFW list: the lifecycle has its goroutine, not what it downloads.
- Adblock.NewABPByText: where the code panics, at a wildcard or a rule between slashes that does not compile, there is no
  matcher here; expressions outside the syntax named under Hosts.HostTables.AddHost count as such.
- Walk's callback is a list of calls made after the walk; a matcher that extends itself waits for its own lock in the
  code and is excluded by a precondition.
- parseDuration, ensurePort, GetMinTTL, RemoveA, ParseECS and the redirector's rules: short or library parsing.
- Case folding is ASCII (section 2.3.3 of RFC 1035); Go's folds some letters beyond it.
- Durations are unbounded: a configured TTL large enough to overflow 64-bit nanoseconds is not modelled.
- Race: the receiving loop is that of firstResponse; the one of fastestResp is FastestIP.Receive.
- LifecycleProgress: a request is not counted on to post again, and the bound is for runs without reloads left to build,
  whose handlers can be of any size.
- Hosts.HostReader.Get: whether a record builds from its text is a parameter; one that builds is the record meant.
- Handler.HandlerImpl.Handle: PostProcess is part of the lifecycle model; rule matches and redirections of the query are
  parameters.
- Handler.HandlerImpl.Resolve: which group a redirector names is a parameter, a function of the group, the query and its
  answer, and so is what each group replies to the query it prepared.
- Groups.BuildGroups: the other settings of a group enter as one flag that says whether all are sound.
- HostsConf.NewDNSHosts: wildcards outside the syntax named under Hosts.HostTables.AddHost are refused.
- Handler.HandlerImpl.AskGroup: the reply is the response as the group returns it; HijackAnswer models what the group
  does to it, and Race and FastestIP which one it is.
- LifecycleInvariant.GroupsStep: the refresher and the DoH callers of a group appear only as far as its Stop waits for or
  is reached by them.
