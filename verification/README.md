# Neuro SAN server internals: a verified model

This project models the stateful, recursive and string-rewriting parts of the Neuro SAN agent
server in Dafny and proves what they promise. `dafny verify dfyconfig.toml` checks all of it.

| file | what it models |
|---|---|
| `Connectivity.dfy` | the connectivity report of an agent network: a recursive walk over a graph that may be cyclic |
| `NetworkStorage.dfy`, `ExpiringStorage.dfy` | the table of agent networks with its listeners, and the cache of expiring reservations in front of an optional base storage |
| `StorageInterleaving.dfy` | the same cache under any number of threads, one table access, clock check or lock operation at a time |
| `AnnouncementOrder.dfy` | the announcements of changes to the plain table by threads that overtake each other |
| `ConfigTree.dfy`, `StringReplacement.dfy`, `ReplacementOrder.dfy`, `CommonDefsFilter.dfy` | substitution of common definitions in an agent network config: whole values, and `{holes}` in texts |
| `Utf8.dfy`, `LineStream.dfy` | JSON lines reassembled from chunks of a byte stream |
| `BraceEscaping.dfy`, `ChatHistory.dfy` | the chat history sent back to clients: filtered, redacted, escaped, trimmed |
| `CollatingQueue.dfy` | the message queue with its end marker, and the finalization of a run |
| `OriginatingJournal.dfy` | the journal that can hold one message back |
| `Origination.dfy` | numbering agent uses and rendering origin paths |
| `ServiceProvider.dfy` | lazily made service instances: double-checked locking and reset |
| `Reservations.dfy` | reserving, collecting, deploying and confirming temporary networks |
| `JsonSafe.dfy` | chat responses projected onto JSON values, message types turned into names |
| `Text.dfy`, `Wrappers.dfy` | Python's `str.replace` and `in`; values that may be missing, computations that may raise |

What Python does in place is a class or a method with a loop here, proved against a specification
function; the properties are lemmas about those functions, or about every run of a state machine.
What Python raises is a `Failure` or `None` result. Time is a parameter or a clock that does not
run backwards; `is_external_agent`, `get_safe_agent_name`, `json.loads`, the manifest validator and
generated UUIDs are parameters.

## Where the code differs from its documentation

The model follows the code. Each difference is stated by a member of the table below: with inputs
that show it, with the exact condition under which the documented behaviour holds, or with both.

- The connectivity report is depth-first, not breadth-first; the two agree if and only if the
  report lists its nodes in the order in which its own tool lists first mention them. A node that
  hides its connectivity makes the whole report fail instead of being listed with an empty tool
  list: the report succeeds if and only if no hidden node can be reached from the front man. The
  dictionary form of `args.tools` contributes nothing.
- Common definitions are resolved among themselves once, so chains of value definitions are
  followed for two layers. The comment forbids only cycles, but an acyclic chain of three value
  definitions is left unresolved. (String definitions may be followed further, because each of
  them also passes through the later ones.)
- String replacement of templates depends on the order of the dictionary if and only if some
  definition has a hole for another one. For texts with braces anywhere, and definitions without,
  it does if and only if the text of a definition occurs in the key of another one.
- A maximum message history of 1 means no maximum; with a maximum of 2 or more, processing a batch
  raises as long as nothing has been kept.
- A blank line is skipped when it ends with a newline and parsed (so it raises) when it does not.
- A deferred journal message does not reach the chat history when an immediate message follows.
- `deploy()` without `confirmation`, its default, always raises for a non-empty deployment that
  passes validation.
- `get_service()` returns None, even to the caller that has just made the instance, if and only if
  a reset comes after the last store and before its last read.
- The sweeper and a lookup pop a name without checking it again under the lock: a reservation
  rewritten in between is lost. A lookup can miss a network while another lookup is caching it.
- Listeners are told outside the lock, so a removal can overtake an addition of the same name and
  leave a listener with a name that is gone; this needs a name that is both put and removed.
- A message accepted between the final message and the end marker is received after the final
  message.
- Tool names that end like a rendered index make two origin paths render alike.

## Model

| member | source | states |
|---|---|---|
| Connectivity.ReportNetworkConnectivity | neuro_san/internals/chat/connectivity_reporter.py:71-98 | for every network, cyclic or not: fails iff the first agent of the file is no front man or an agent of this network that hides its connectivity can be reached; else the front man comes first, the entries are exactly the reachable nodes, each once and depth first, and every tool of an entry that is external or has a spec has its own entry; an external entry has no tools, "external_agent" and no metadata, any other the tools and metadata of its spec and the display the spec and the toolbox give it |
| Connectivity.ReportNodeConnectivity | neuro_san/internals/chat/connectivity_reporter.py:100-169 | the recursion over the shared set computes the explicit-stack preorder and leaves the set at exactly what that has seen; an external name gets its one entry with or without a spec, an unknown or reported one gets none |
| Connectivity.PreorderSplits | neuro_san/internals/chat/connectivity_reporter.py:161-169 | walking a concatenation of tool lists is walking the first and then, with what it has seen, the second |
| Connectivity.PreorderIsClosed | neuro_san/internals/chat/connectivity_reporter.py:157-169 | a finished walk reports only new names, each once, and every reportable tool of a reported node has been reported |
| Connectivity.PreorderIsSound | neuro_san/internals/chat/connectivity_reporter.py:114-169 | everything reported is reachable, and a walk fails only because of a reachable hidden node |
| Connectivity.PreorderReportsReachable | neuro_san/internals/chat/connectivity_reporter.py:88-98 | the walk finishes iff no reachable node is hidden, and then reports exactly the reachable nodes |
| Connectivity.ReportIsComplete | neuro_san/internals/chat/connectivity_reporter.py:114-169 | in the report of any network, a tool of an entry has an entry iff it is external or has a spec, and every entry describes its node |
| Connectivity.PreorderIsDepthFirst | neuro_san/internals/chat/connectivity_reporter.py:161-169 | the first tool of an entry that has not been reported yet has the very next entry |
| Connectivity.AssembleToolList | neuro_san/internals/chat/connectivity_reporter.py:171-216 | the tools of the spec and then those of the list form of args.tools, without repeats; nothing from the dictionary form |
| Connectivity.DistinctPicksFirstOccurrences | neuro_san/internals/chat/connectivity_reporter.py:195-214 | removing repeats keeps exactly the first occurrence of every name, in the original order |
| Connectivity.HiddenFrontManIsNotReported | neuro_san/internals/chat/connectivity_reporter.py:44-51 | a network whose front man hides its connectivity fails, where the documentation promises an entry with no tools |
| Connectivity.ReportIsNotBreadthFirst | neuro_san/internals/chat/connectivity_reporter.py:40-41 | in every network with a certain four-node tree a grandchild is reported before a child, and the queue traversal has it the other way round |
| Connectivity.ReportIsBreadthFirstIff | neuro_san/internals/chat/connectivity_reporter.py:161-169 | a report is what the queue traversal gives iff it lists its nodes in the order in which its own tool lists, read from the top, first mention them |
| Connectivity.OnlyLastBranchesIsBreadthFirst | neuro_san/internals/chat/connectivity_reporter.py:161-169 | a condition on the network alone: when in the tool list of every reachable node only the last tool has tools to report, the two traversals agree, in what they report and in when they fail |
| Connectivity.BreadthFirstFollowsMentions | neuro_san/internals/chat/connectivity_reporter.py:40-41 | the queue traversal lists nodes in the order of their first mention |
| Connectivity.MentionsDetermineBreadthFirst | neuro_san/internals/chat/connectivity_reporter.py:40-41 | and it is the only list of new nodes, each a tool of an earlier one, that does |
| Connectivity.DictionaryToolsMissingIff | neuro_san/internals/chat/connectivity_reporter.py:201-214 | dropping a dictionary form of args.tools changes the tool list iff one of its values is not among the agent's own tools |
| Connectivity.DictionaryToolIsNotReported | neuro_san/internals/chat/connectivity_reporter.py:201-214 | a network in which an agent's only tool, given in a dictionary, is not reported |
| NetworkStorage.AgentNetworkStorage.AddAgentNetwork | neuro_san/internals/network_providers/agent_network_storage.py:58-77 | the table has the new network under the name; listeners hear added for a new name and modified for a known one, and a listener that was in sync with the table still is |
| NetworkStorage.AgentNetworkStorage.RemoveAgentNetwork | neuro_san/internals/network_providers/agent_network_storage.py:94-108 | the name is gone, known or not; listeners hear removed, and those in sync stay in sync |
| NetworkStorage.AgentNetworkStorage.SetupAgentNetworks | neuro_san/internals/network_providers/agent_network_storage.py:79-92 | the table ends equal to the new collection, whatever order the sets are visited in, and listeners in sync stay in sync |
| NetworkStorage.Follow | neuro_san/internals/network_providers/agent_network_storage.py:45-108 | after every sequence of operations a listener that was there from the start knows exactly the names in the table |
| AnnouncementOrder.QuietInSyncIff | neuro_san/internals/network_providers/agent_network_storage.py:64-108 | over every run of threads that change the table under the lock and announce afterwards: when all is announced the listener is in sync iff for every name the last announcement agrees with the last change |
| AnnouncementOrder.AdditionsAreToldApart | neuro_san/internals/network_providers/agent_network_storage.py:64-77 | over every run, a change is announced as an addition iff its name was not in the table, and as a modification iff it was |
| AnnouncementOrder.AnyOrderInSyncIff | neuro_san/internals/network_providers/agent_network_storage.py:64-108 | for any list of changes: the order of the announcements does not matter iff no name is both put and removed |
| AnnouncementOrder.RemovalOvertakes | neuro_san/internals/network_providers/agent_network_storage.py:64-108 | a run, for any name, that leaves the listener with a name that is not in the table |
| NetworkStorage.AgentNetworkStorage.RemoveListener | neuro_san/internals/network_providers/agent_network_storage.py:51-56 | the first registration of the listener is removed, and nothing when there is none |
| NetworkStorage.NotifyAll | neuro_san/internals/network_providers/agent_network_storage.py:69-77 | every listener hears all events in order; one registered several times still rebuilds the right names when hearing the events twice changes nothing |
| ExpiringStorage.ExpiringAgentNetworkStorage.GetAgentNetworkProvider | neuro_san/internals/network_providers/expiring_agent_network_storage.py:190-239 | in every reachable state the answer is the network that was last reserved under the name if the time is at most its expiration, and nothing otherwise; only the looked-up name can enter or leave the tables, and listeners in sync stay in sync |
| ExpiringStorage.ExpiringAgentNetworkStorage.AddReservations | neuro_san/internals/network_providers/expiring_agent_network_storage.py:100-143 | every entry that is the last of its name in the batch is served from then on, in cache and base; listeners hear added for new and then modified for known names, a name repeated in the batch included |
| ExpiringStorage.ExpiringAgentNetworkStorage.ExpireReservations | neuro_san/internals/network_providers/expiring_agent_network_storage.py:157-188 | a sweep at a time keeps exactly the entries of both tables whose expiration is at or after it, removes all others, and listeners in sync stay in sync |
| ExpiringStorage.ExpiringAgentNetworkStorage.StoreBatch | neuro_san/internals/network_providers/expiring_agent_network_storage.py:116-133 | both tables together become the old ones with the batch added, later entries winning, and new names are told from known ones |
| ExpiringStorage.ExpiringAgentNetworkStorage.Record | neuro_san/internals/network_providers/expiring_agent_network_storage.py:112-133 | after the base write and the table writes every cached or stored entry is the latest reservation of its name, and no current one is missing from the base (or, without one, from the cache) |
| ExpiringStorage.ExpiringAgentNetworkStorage.ListExpired | neuro_san/internals/network_providers/expiring_agent_network_storage.py:162-171 | a name is found iff the time is after the expiration of its reservation in the snapshot |
| ExpiringStorage.ExpiringAgentNetworkStorage.BaseExpires | neuro_san/internals/network_providers/expiring_agent_network_storage.py:211-212 | the base may expire entries on its own schedule without disturbing what lookups answer |
| ExpiringStorage.ExpiringAgentNetworkStorage.constructor | neuro_san/internals/network_providers/expiring_agent_network_storage.py:45-66 | an empty cache in front of any base, or of none, satisfies the invariant |
| ExpiringStorage.BaseStorage.GetOneReservation | neuro_san/internals/interfaces/reservations_storage.py:43-52 | a base hands out what it has for a name while it is current; for an expired entry it may do either |
| ExpiringStorage.BatchKeepsParts | neuro_san/internals/network_providers/expiring_agent_network_storage.py:112-128 | adding the same batch to a part and to the whole keeps the part a part, and complete where it was complete |
| ExpiringStorage.AddAllDecides | neuro_san/internals/network_providers/expiring_agent_network_storage.py:121-128 | a batch decides the entries of its own names independently of the table it is added to, and leaves all others |
| ExpiringStorage.LatestWins | neuro_san/internals/network_providers/expiring_agent_network_storage.py:121-128 | what is stored for a name after a batch is the last entry of that name in it |
| ExpiringStorage.NamesAreSplit | neuro_san/internals/network_providers/expiring_agent_network_storage.py:125-134 | the names announced as new are those of the batch that were not in the table, each once; every other entry is announced as a change |
| ExpiringStorage.NamesJoin | neuro_san/internals/network_providers/expiring_agent_network_storage.py:125-143 | both in the order of the batch: a later entry is told apart from what is known by then |
| ExpiringStorage.AnnouncementAddsBatch | neuro_san/internals/network_providers/expiring_agent_network_storage.py:135-143 | replaying the announcement of a batch, once or twice, adds exactly the names of the batch |
| ExpiringStorage.AnnouncementRemoves | neuro_san/internals/network_providers/expiring_agent_network_storage.py:183-188 | replaying the announcement of a sweep, once or twice, removes exactly its names |
| StorageInterleaving.TablesAgreeWhenUnlocked | neuro_san/internals/network_providers/expiring_agent_network_storage.py:120-133 | over every run of any number of threads, agents and reservations have equal key sets whenever the lock is free |
| StorageInterleaving.OneThreadInside | neuro_san/internals/network_providers/expiring_agent_network_storage.py:166-181 | at most one thread is in a critical section |
| StorageInterleaving.PopRemovesCurrentIffRewritten | neuro_san/internals/network_providers/expiring_agent_network_storage.py:165-181 | over every run, a pop by the sweeper or a lookup removes the very entry that was found expired iff the name was not written after that; it removes a current reservation iff the last write of the name came after the check and is still current |
| StorageInterleaving.ReservedOnceIsNeverLost | neuro_san/internals/network_providers/expiring_agent_network_storage.py:165-231 | in every run in which each name has one expiration, however often it is cached from the base, no pop ever removes a reservation that has not expired |
| StorageInterleaving.RewrittenReservationIsLost | neuro_san/internals/network_providers/expiring_agent_network_storage.py:178-181 | a run, for any name, after which its reservation is gone from both tables long before it expires, although nothing was written after it |
| StorageInterleaving.LookupCanMissWhileCaching | neuro_san/internals/network_providers/expiring_agent_network_storage.py:195-231 | a run, for any name, in which a lookup reads no agent and answers nothing while another lookup, which got the network from the base, has written the current reservation and not yet the agent |
| StorageInterleaving.ReservedWithoutAgentIffHalfCached | neuro_san/internals/network_providers/expiring_agent_network_storage.py:229-231 | over every run, a name without an agent has a reservation iff the lock holder is a lookup that got it from the base and is half way through caching it, and whoever is half way has written the reservation |
| StorageInterleaving.LookupMissesIff | neuro_san/internals/network_providers/expiring_agent_network_storage.py:195-220 | over every run, when a lookup that saw a current reservation answers nothing, the reservation is still there iff the name is half cached; with the reservation there and nobody half way it answers what the table shows |
| StorageInterleaving.StepKeepsInv | neuro_san/internals/network_providers/expiring_agent_network_storage.py:120-231 | every step of every thread keeps: lock ownership, how far the two key sets may differ inside a pair of writes, that a reservation in the table is the last write of its name, and that what a thread has seen is not newer |
| ConfigTree.MapLeavesCompose | neuro_san/internals/graph/filters/abstract_common_defs_config_filter.py:95-147 | substituting twice in a config tree is substituting once with the composed substitution, for every nesting of dictionaries and lists |
| ConfigTree.LeavesAfterMap | neuro_san/internals/graph/filters/abstract_common_defs_config_filter.py:95-147 | the string leaves after a substitution are exactly the leaves of what was put in for the leaves before |
| ConfigTree.MapLeavesFixes | neuro_san/internals/graph/filters/abstract_common_defs_config_filter.py:95-147 | a substitution leaves a tree alone iff it leaves every string leaf alone |
| ConfigTree.NewKeysFollow | neuro_san/internals/graph/filters/abstract_common_defs_config_filter.py:70-76 | updating the definitions to start with keeps their order and appends new ones in theirs; the order matters to string replacement |
| StringReplacement.ReplaceInText | neuro_san/internals/graph/filters/string_common_defs_config_filter.py:69-92 | the loop applies all definitions one after another, and raises iff one of them is a number |
| StringReplacement.StepIsExpand | neuro_san/internals/graph/filters/string_common_defs_config_filter.py:83-90 | on a template one turn of the loop fills exactly the holes of its key; the guard on the bare key never changes the outcome |
| StringReplacement.InSequenceIsExpand | neuro_san/internals/graph/filters/string_common_defs_config_filter.py:71-92 | on templates the whole loop fills every hole independently, with its definition run through the later entries |
| StringReplacement.SequentialIsSimultaneous | neuro_san/internals/graph/filters/string_common_defs_config_filter.py:71-92 | when no definition uses a defined name, the loop is one simultaneous expansion of the template |
| StringReplacement.BraceFreeDefsAreFlat | neuro_san/internals/graph/filters/string_common_defs_config_filter.py:71-92 | brace-free keys and values are such definitions |
| StringReplacement.OrderDoesNotMatter | neuro_san/internals/graph/filters/string_common_defs_config_filter.py:71-92 | two dictionaries that define the same, in any order, give the same text |
| StringReplacement.OrderDoesNotMatterIff | neuro_san/internals/graph/filters/string_common_defs_config_filter.py:71-92 | every order of a dictionary of template definitions gives every template the same text iff no definition has a hole for another one (one that stands for its own hole aside) |
| StringReplacement.StepChangesNothingIff | neuro_san/internals/graph/filters/string_common_defs_config_filter.py:83-90 | a definition leaves a template alone iff the template has no hole for it or the definition stands for its own hole |
| StringReplacement.SequentialIsSimultaneousIff | neuro_san/internals/graph/filters/string_common_defs_config_filter.py:71-92 | the loop is the simultaneous expansion on all templates iff no definition is changed by the entries after it |
| StringReplacement.OrderMattersForNestedDefinitions | neuro_san/internals/graph/filters/string_common_defs_config_filter.py:71-92 | with a definition that uses another, swapping two entries changes the result |
| ReplacementOrder.AnyOrderSameIff | neuro_san/internals/graph/filters/string_common_defs_config_filter.py:71-92 | with brace-free keys and definitions, every order of the dictionary gives every text at all, template or not, the same result iff no definition's text occurs in the key of another one |
| ReplacementOrder.StepsCommute | neuro_san/internals/graph/filters/string_common_defs_config_filter.py:83-90 | two such definitions that do not clash can be applied to any text in either order |
| ReplacementOrder.OrderMattersOutsideTemplates | neuro_san/internals/graph/filters/string_common_defs_config_filter.py:83-90 | where the text of a definition occurs in another key, a hole inside braces is a text on which the order of the two matters |
| StringReplacement.ExpandCompose | neuro_san/internals/graph/filters/string_common_defs_config_filter.py:87-90 | expanding a template twice is expanding it once with expanded fillings |
| CommonDefsFilter.FilterConfig | neuro_san/internals/graph/filters/abstract_common_defs_config_filter.py:50-93 | every key but "tools" keeps its value; with the "replacement_values" (for string definitions the "replacement_strings") of "commondefs" overriding the definitions to start with, every text of the tools, and every text of what was put in, is what its definition says; string definitions are put into each other once and then into the tools in turn, which for two layers of templates fills all holes twice; it raises iff the section cannot be merged, the tools cannot be walked, or a string definition is a number and meets a text |
| CommonDefsFilter.ValuesArePutIn | neuro_san/internals/graph/filters/dictionary_common_defs_config_filter.py:55-86 | the same for value definitions as a theorem about every config: two substitutions by the definitions found under "replacement_values" |
| CommonDefsFilter.StringsArePutIn | neuro_san/internals/graph/filters/string_common_defs_config_filter.py:53-92 | and for string definitions under "replacement_strings", for all texts, and in closed form for templates |
| CommonDefsFilter.DefinitionIsPutIn | neuro_san/internals/graph/filters/abstract_common_defs_config_filter.py:70-91 | a text whose definition uses no defined text becomes that definition |
| CommonDefsFilter.ValuesFilterIff | neuro_san/internals/graph/filters/abstract_common_defs_config_filter.py:70-93 | filtering with value definitions raises iff the section cannot be merged or, with anything to replace, the tools cannot be walked |
| CommonDefsFilter.StringsFilterIff | neuro_san/internals/graph/filters/string_common_defs_config_filter.py:69-92 | filtering with string definitions also raises iff one of them is a number and any definition or tool has a text |
| CommonDefsFilter.FilterOneDict | neuro_san/internals/graph/filters/abstract_common_defs_config_filter.py:95-121 | the loop substitutes at all string leaves of the values, and raises iff a text meets a numeric string definition |
| CommonDefsFilter.FilterOneList | neuro_san/internals/graph/filters/abstract_common_defs_config_filter.py:123-147 | the same for lists |
| CommonDefsFilter.MakeReplacements | neuro_san/internals/graph/filters/dictionary_common_defs_config_filter.py:57-86 | only strings are replaced: whole by their non-null definition, or hole by hole |
| CommonDefsFilter.NothingBecomesNull | neuro_san/internals/graph/filters/abstract_common_defs_config_filter.py:118-119 | the guard against None never drops a replacement |
| CommonDefsFilter.ResolvedFiltersTwice | neuro_san/internals/graph/filters/abstract_common_defs_config_filter.py:85-91 | filtering any tree with the self-resolved definitions is filtering it twice with the original ones |
| CommonDefsFilter.NormalFormIff | neuro_san/internals/graph/filters/abstract_common_defs_config_filter.py:85-91 | no replaceable text is left in any tree iff definitions used by definitions use no further definition |
| CommonDefsFilter.SecondRunChangesNothingIff | neuro_san/internals/graph/filters/abstract_common_defs_config_filter.py:50-93 | for both filters: filtering a filtered config again changes nothing iff every text left in its tools stands for itself |
| CommonDefsFilter.TwoLayersFilterIsIdempotent | neuro_san/internals/graph/filters/abstract_common_defs_config_filter.py:50-93 | with two layers of value definitions the whole filter is idempotent |
| CommonDefsFilter.TwoTemplateLayersFilterIsIdempotent | neuro_san/internals/graph/filters/abstract_common_defs_config_filter.py:50-93 | so it is with two layers of string definitions, when definitions and tools are templates |
| CommonDefsFilter.ThreeLayersAreNotResolved | neuro_san/internals/graph/filters/abstract_common_defs_config_filter.py:85-87 | a chain of three acyclic definitions leaves a replaceable text behind |
| CommonDefsFilter.StringDefsExpandTwice | neuro_san/internals/graph/filters/string_common_defs_config_filter.py:53-92 | with two layers of template definitions in any order, resolving and then replacing is two simultaneous expansions |
| CommonDefsFilter.StringDefsReachNormalForm | neuro_san/internals/graph/filters/string_common_defs_config_filter.py:53-92 | with two layers of template definitions no defined hole remains and replacing again changes nothing |
| CommonDefsFilter.StringNormalFormIff | neuro_san/internals/graph/filters/abstract_common_defs_config_filter.py:85-91 | for all template definitions: no defined hole remains in any template iff none remains in any definition, resolved and run through the resolved definitions after it |
| CommonDefsFilter.StringDefsFilterTree | neuro_san/internals/graph/filters/abstract_common_defs_config_filter.py:85-91 | the same for a whole config tree of templates |
| LineStream.StreamingChat | neuro_san/session/async_http_service_agent_session.py:124-153 | for every way of cutting the bytes into chunks, the outcome depends on the concatenation alone: its lines up to the first one that raises are skipped when blank and else yielded in order, the unterminated rest is never skipped, and it raises iff a line that is not skipped cannot be decoded or parsed |
| LineStream.BlankIff | neuro_san/session/async_http_service_agent_session.py:137-137 | a line is blank iff all its characters are among the 29 white space characters of Python |
| LineStream.LinesRebuild | neuro_san/session/async_http_service_agent_session.py:130-148 | the lines and the rest contain no newline and, joined with newlines, are the bytes |
| LineStream.LinesAreUnique | neuro_san/session/async_http_service_agent_session.py:130-148 | there is no other way to see the bytes as such lines |
| LineStream.LinesOfMore | neuro_san/session/async_http_service_agent_session.py:128-148 | a further chunk affects only what was not a complete line yet |
| LineStream.DecodeByLines | neuro_san/session/async_http_service_agent_session.py:135-136 | the stream is valid UTF-8 iff every line and the rest are, and the decoded lines are the lines of the decoded stream |
| LineStream.FinalNewlineMattersIff | neuro_san/session/async_http_service_agent_session.py:135-153 | one newline more at the end changes the outcome of a stream iff nothing has raised before its rest and the rest is blank but not empty |
| LineStream.BlankTailIsParsed | neuro_san/session/async_http_service_agent_session.py:137-153 | a rest is treated differently from a line iff it is blank but not empty |
| Utf8.DecodeSplitsAtNewline | neuro_san/session/async_http_service_agent_session.py:136-136 | decoding at a newline byte in parts is decoding the whole (sections 3 and 4 of RFC 3629) |
| Utf8.CharacterByBits | neuro_san/session/async_http_service_agent_session.py:136-136 | the bytes that carry the bits of a scalar value as section 3 of RFC 3629 lays them out decode to it |
| Utf8.DecodeEncode | neuro_san/session/async_http_service_agent_session.py:136-136 | the decoder undoes UTF-8 encoding of every text of scalar values |
| Utf8.EncodeDecode | neuro_san/session/async_http_service_agent_session.py:136-136 | the decoder accepts nothing but such encodings, of values up to U+10FFFF without the surrogates |
| BraceEscaping.EscapeEvensRuns | neuro_san/internals/chat/chat_history_message_processor.py:130-137 | escaping turns every maximal run of n equal braces into 2*ceil(n/2) of them and leaves all else in place |
| BraceEscaping.UndoubleHalvesRuns | neuro_san/internals/chat/chat_history_message_processor.py:130-132 | the first two replacements halve every run of braces, rounding up |
| BraceEscaping.EscapeIsIdempotent | neuro_san/internals/chat/chat_history_message_processor.py:127-137 | escaping an escaped text changes nothing |
| BraceEscaping.EscapeIsReversible | neuro_san/internals/chat/chat_history_message_processor.py:127-137 | un-doubling recovers the text iff it had no doubled brace |
| BraceEscaping.EscapeIdentifies | neuro_san/internals/chat/chat_history_message_processor.py:127-137 | two texts are escaped alike iff they are alike after un-doubling |
| BraceEscaping.EscapedTextReadsBack | neuro_san/internals/chat/chat_history_message_processor.py:127-137 | read back as a brace format string the escaped text has no field and gives the un-doubled text |
| ChatHistory.ChatHistoryMessageProcessor.ProcessMessages | neuro_san/internals/chat/chat_history_message_processor.py:61-80 | after every batch the history is that of all messages so far in one batch; it raises iff there is a maximum and nothing has been kept yet |
| ChatHistory.ChatHistoryMessageProcessor.ProcessMessage | neuro_san/internals/chat/chat_history_message_processor.py:82-104 | the first system message is added as "<redacted>", another human, system or AI message with a text with that text escaped, and nothing else |
| ChatHistory.ChatHistoryMessageProcessor.Trim | neuro_san/internals/chat/chat_history_message_processor.py:68-80 | popping, slicing and inserting is trimming, and the pop raises iff the history is empty |
| ChatHistory.ProcessBatches | neuro_san/internals/chat/chat_history_message_processor.py:61-80 | every split of a conversation into batches leaves the same history; it raises iff there is a maximum and the first batch keeps nothing |
| ChatHistory.ProcessConversation | neuro_san/internals/chat/chat_history_message_processor.py:34-145 | for a new processor with the actual escaping, any batches and any maximum: raises iff there is a maximum and the first batch has nothing to keep; else every message of the history shows one at its position of the conversation, in order, the first system message redacted and any other with each run of n braces turned into the next even number, so that it reads back as its un-doubled text; what is left out lies between the first kept message and the most recent ones, and only when there is a maximum |
| ChatHistory.KeptAreShown | neuro_san/internals/chat/chat_history_message_processor.py:82-145 | without a maximum: a message is kept iff it is human, system or AI and has a text or is the first system message, and it is shown as above |
| ChatHistory.TrimmedIsShown | neuro_san/internals/chat/chat_history_message_processor.py:68-145 | the same after trimming: all kept messages but those between the first and the n most recent |
| ChatHistory.TrimmedKeepsFirstAndRecent | neuro_san/internals/chat/chat_history_message_processor.py:73-80 | trimming keeps the first message and the n most recent others |
| ChatHistory.TrimmedMore | neuro_san/internals/chat/chat_history_message_processor.py:73-80 | trimming, adding and trimming again is trimming the whole |
| ChatHistory.OnlyFirstSystemRedacted | neuro_san/internals/chat/chat_history_message_processor.py:88-104 | in any message list exactly the first system message shows "<redacted>", every other human, system or AI message with a text that text escaped, in order |
| ChatHistory.TrimsAsDocumentedIff | neuro_san/internals/chat/chat_history_message_processor.py:38-41 | for every history and maximum, the code keeps what the constructor documents iff the maximum is not one, or at most two messages are kept |
| CollatingQueue.ConsumerSeesPrefix | neuro_san/internals/chat/async_collating_queue.py:63-114 | in every run the consumer has received a prefix of the accepted messages in order, stops at most once, and nothing is accepted after the marker |
| CollatingQueue.StoppedConsumerHasAllIff | neuro_san/internals/chat/async_collating_queue.py:63-122 | a consumer that has stopped has received everything accepted, and the queue is empty, iff no accepted message looks like the marker |
| CollatingQueue.JournaledRunDeliversAll | neuro_san/internals/chat/data_driven_chat_session.py:314-341 | in every run over journaled messages a stopped consumer has received exactly the accepted messages in order, the final one included, which is the very last iff the run has no put between the two puts of the finalization |
| CollatingQueue.FinalStaysLastIff | neuro_san/internals/chat/data_driven_chat_session.py:326-341 | from any state, the final message is the last accepted one iff it was so far and no step of the run puts a message before the marker |
| CollatingQueue.DrainingStops | neuro_san/internals/chat/async_collating_queue.py:63-73 | once the marker is on the queue, finitely many takes end the consumption |
| CollatingQueue.LateMessageFollowsFinal | neuro_san/internals/chat/data_driven_chat_session.py:326-341 | a run in which another message is received after the final one |
| CollatingQueue.JournaledIsNeverFinal | neuro_san/internals/messages/base_message_dictionary_converter.py:62-113 | no journaled message can be taken for the end marker |
| CollatingQueue.JournaledFields | neuro_san/internals/messages/base_message_dictionary_converter.py:70-113 | every attribute of a message that has a value, and the origin, is kept under its own key, and none without |
| CollatingQueue.JournaledText | neuro_san/internals/messages/base_message_dictionary_converter.py:104-111 | its text is its content, or that of the first content block, "" when the block has none |
| CollatingQueue.StepKeepsInv | neuro_san/internals/chat/async_collating_queue.py:63-122 | every put, take and finalization step keeps: what was taken and what waits is the accepted messages and then at most one marker |
| CollatingQueue.AsyncCollatingQueue.Put | neuro_san/internals/chat/async_collating_queue.py:75-97 | a checked put after the final item does nothing; any other is queued last |
| CollatingQueue.AsyncCollatingQueue.PutFinalItem | neuro_san/internals/chat/async_collating_queue.py:99-114 | the dictionary with "end" is queued once |
| CollatingQueue.AsyncCollatingQueue.Next | neuro_san/internals/chat/async_collating_queue.py:63-73 | the head is taken; a dictionary with a value under "end" stops the iteration, anything else is returned |
| CollatingQueue.ChatSession.FinalizeRun | neuro_san/internals/chat/data_driven_chat_session.py:314-341 | the first call queues the message and then the dictionary with "end", unless the queue has ended; later calls change nothing |
| OriginatingJournal.JournalHoldsContributions | neuro_san/internals/journals/originating_journal.py:57-126 | for every sequence of calls the wrapped journal holds, in call order, each immediate message once and each deferred one once unless an equal immediate one follows or nothing does; likewise for the chat history, when there is one, and the message held back |
| OriginatingJournal.Journal.WriteMessage | neuro_san/internals/journals/originating_journal.py:57-108 | a held message with other content is written first, then the message, both with the given origin or else the own one; the history gains human and AI messages as they are, tool results as AI messages, and no others |
| OriginatingJournal.Journal.WriteMessageIfNextNotDupe | neuro_san/internals/journals/originating_journal.py:116-126 | the message is held; one held before is written once with the own origin |
| OriginatingJournal.Journal.Perform | neuro_san/internals/journals/originating_journal.py:57-126 | a sequence of calls on the object is the sequence of transitions |
| OriginatingJournal.DeferredMissesHistory | neuro_san/internals/journals/originating_journal.py:75-108 | a deferred message followed by another immediate one is in the journal but not in the history |
| Origination.Origination.AddSpecNameToOrigin | neuro_san/internals/messages/origination.py:48-83 | the path is extended by the number of this use of the name, counted since the last reset; without a path or a name nothing is counted |
| Origination.Origination.Reset | neuro_san/internals/messages/origination.py:130-134 | counting starts again |
| Origination.NoComponentRepeats | neuro_san/internals/messages/origination.py:71-80 | between resets no component is issued twice |
| Origination.EveryIndexIsIssued | neuro_san/internals/messages/origination.py:71-80 | the k-th use of a name gets index k, for every k |
| Origination.GetFullNameFromOrigin | neuro_san/internals/messages/origination.py:85-128 | the loop renders the path, a missing index counting as 1, and raises iff some component has no tool |
| Origination.FullNameJoins | neuro_san/internals/messages/origination.py:96-128 | over tools without dots the name is the rendered uses joined with dots, but with nothing before one that starts with a slash |
| Origination.IndexReadsBack | neuro_san/internals/messages/origination.py:110-114 | the zero-padded numeral of an index can be read back |
| Origination.RenderOneIff | neuro_san/internals/messages/origination.py:110-120 | two uses are rendered alike iff they are equal or one name ends like the other's rendered index |
| Origination.FullNameIff | neuro_san/internals/messages/origination.py:96-128 | two paths over names without "." and "/" have the same full name iff they have equal length and are rendered alike use by use |
| Origination.FullNameIsInjective | neuro_san/internals/messages/origination.py:96-128 | without "-" in names the full name identifies the path |
| Origination.DashedNameCollides | neuro_san/internals/messages/origination.py:110-122 | two different issued components that are rendered alike |
| ServiceProvider.ConstructionsAreBounded | neuro_san/service/generic/async_agent_service_provider.py:70-93 | over every run of any number of threads, constructions never exceed resets by more than one |
| ServiceProvider.OneInstanceWithoutReset | neuro_san/service/generic/agent_service_provider.py:71-86 | without resets one instance is constructed and every caller that has returned got it |
| ServiceProvider.NoneIffResetSinceStore | neuro_san/service/generic/async_agent_service_provider.py:70-93 | over every run, a caller returns with nothing iff a reset came after the last store of an instance and before the caller's last read; otherwise it gets a constructed instance |
| ServiceProvider.ResetCanLeaveCallerWithNone | neuro_san/service/generic/async_agent_service_provider.py:85-93 | a run in which that happens to the very caller that constructed the only instance |
| ServiceProvider.StepKeepsInv | neuro_san/service/generic/async_agent_service_provider.py:70-93 | every step keeps: one lock holder, constructions counted against resets, and what each thread knows of an instance |
| ServiceProvider.AgentServiceProvider.GetService | neuro_san/service/generic/agent_service_provider.py:71-86 | called alone: the stored instance, made only when there is none |
| ServiceProvider.UseProvider | neuro_san/service/generic/async_agent_service_provider.py:70-100 | called alone: the same service until a reset, and then a new one |
| Reservations.ReserveAndDeploy | neuro_san/internals/reservations/accumulating_agent_reservationist.py:77-184 | from reserving to confirmation: confirmed iff the prefix has no "/", ":" or space and the network is acceptable; then every storage has the reservation once more under the prefix and UUID, and it expires at a clock reading plus a time that is none longer than the requested lifetime or either maximum and equals one of the three; otherwise no storage changes |
| Reservations.AccumulatingAgentReservationist.Deploy | neuro_san/internals/reservations/accumulating_agent_reservationist.py:115-169 | a group is collected whole or not at all; a bad id anywhere is reported first, then bad networks, then the missing confirmation |
| Reservations.AccumulatingAgentReservationist.Exit | neuro_san/internals/reservations/accumulating_agent_reservationist.py:171-184 | all collected groups reach every storage once, in order, under one source, are confirmed, and are forgotten |
| Reservations.AccumulatingAgentReservationist.Reserve | neuro_san/internals/reservations/accumulating_agent_reservationist.py:77-91 | raises iff the prefix has a "/", ":" or space; the lifetime is at most the requested one and the maximum and equals one of them; the id is prefix, dash and UUID, or the UUID, and valid |
| Reservations.AccumulatingAgentReservationist.Enter | neuro_san/internals/reservations/accumulating_agent_reservationist.py:106-113 | earlier deployments are forgotten and a supporting reservation is made under the agent's name, for a day or the maximum, whichever is shorter |
| Reservations.DirectAgentReservationist.Deploy | neuro_san/internals/reservations/direct_agent_reservationist.py:37-92 | all storages are swept, then group by group all storages are written and only then the group is confirmed; expiries come from one clock reading for each group, in order |
| Reservations.DirectAgentReservationist.DeployTogether | neuro_san/internals/reservations/abstract_agent_reservationist.py:95-119 | one reading of the clock for the group: every reservation has left its lifetime or the maximum, whichever is shorter, and every storage gets the group |
| Reservations.StoredExactlyOnce | neuro_san/internals/reservations/direct_agent_reservationist.py:68-90 | in the actions of a deployment every group reaches every storage exactly once and is confirmed once, if it wants to be |
| Reservations.ConfirmedOnlyAfterStored | neuro_san/internals/reservations/direct_agent_reservationist.py:78-90 | at every confirmation the group is in every storage already |
| Reservations.ReservedIdIsValidIff | neuro_san/internals/reservations/accumulating_agent_reservationist.py:186-202 | an id made from a prefix and a UUID is valid iff the prefix is empty or valid |
| JsonSafe.ProjectionIsSafe | neuro_san/service/generic/chat_message_converter.py:83-113 | every projected value consists of string-keyed dictionaries, lists, primitives and message types only |
| JsonSafe.ProjectionFixesIff | neuro_san/service/generic/chat_message_converter.py:83-113 | the projection leaves a value alone iff it is such a value already, and is idempotent |
| JsonSafe.ProjectionByParts | neuro_san/service/generic/chat_message_converter.py:83-113 | primitives and message types stay, lists and tuples become lists of their projected elements, enum members their value if it is primitive, all else None |
| JsonSafe.DictionaryByEntries | neuro_san/service/generic/chat_message_converter.py:101-107 | a dictionary keeps exactly its entries with string keys, in order, with their values projected |
| JsonSafe.ConvertMessage | neuro_san/service/generic/chat_message_converter.py:54-68 | the nested loops convert a message and everything below it as specified, or raise |
| JsonSafe.ConversionNamesTypes | neuro_san/service/generic/chat_message_converter.py:59-68 | after conversion the type of every message at any depth is missing, None or a name, and nothing but types has changed |
| JsonSafe.ConversionIsIdempotent | neuro_san/service/generic/chat_message_converter.py:54-68 | converting again changes nothing |
| JsonSafe.ToDict | neuro_san/service/generic/chat_message_converter.py:31-52 | to_dict raises iff the object is no dictionary or its message is not well-shaped at some depth; whatever it returns is ready: all types in its response are missing, None or names, apart from types the response is the projected one, and every other entry is untouched |
| JsonSafe.ConvertsIffWellShaped | neuro_san/service/generic/chat_message_converter.py:54-68 | conversion raises iff some message below has a type without a name, or something on the way to it has the wrong shape |
| JsonSafe.ResponseIsReady | neuro_san/service/generic/chat_message_converter.py:44-68 | converting the projected response of any object names every type at any depth and changes nothing else |
| JsonSafe.NamesAreNames | neuro_san/internals/messages/chat_message_type.py:63-87 | the name of a type is one of the eight names, and naming a name keeps it |
| JsonSafe.TypeIsNamedByTable | neuro_san/internals/messages/chat_message_type.py:40-87 | the type of a converted message is the name that its type, number or name has in the table of message types |
| JsonSafe.NestedMessageIsConverted | neuro_san/service/generic/chat_message_converter.py:64-68 | every message under "chat_context", "chat_histories" and "messages" of a message is converted as a message, in its place |

## Left out

- StorageInterleaving: the write to the base storage, which comes before the lock is taken, and the notification of listeners, which comes after, are not steps there; the sequential model has both, and AnnouncementOrder has the notifications of the plain storage.
- ExpiringStorage: other servers that write to a shared base storage, clocks that run backwards, and the inherited add, remove and setup operations called on the expiring storage, which bypass its reservations.
- ExpiringStorage.ExpiringAgentNetworkStorage.ExpireReservations: does not state the order in which removed names are announced, because it is the order of a dictionary.
- ExpiringStorage.ExpiringAgentNetworkStorage.Record: does not tell the base write from the table write in time, because no sequential caller can observe their order.
- NetworkStorage: listeners that change the storage or the list of listeners while they are being told.
- Connectivity: entries of `tools` that are dictionaries (MCP servers), and `tools` that is not a list. `is_external_agent` is any predicate on names.
- CommonDefsFilter: definitions given as a list of pairs instead of a dictionary count as malformed; config keys that are not strings; deep copies are values.
- CommonDefsFilter.FilterConfig: numbers and truth values among string definitions raise one error, whatever Python's message says.
- LineStream.StreamingChat: HTTP and its errors, and what `json.loads` accepts; parsing is any function that may fail. The wrapping of exceptions in friendlier ones is not modelled.
- ChatHistory: messages are a type, an optional text and the rest; `int()` of the configured maximum happens before.
- CollatingQueue: `reset()` inside whole runs, closing the queue, and the asynchronous and synchronous ends of the janus queue, which are one FIFO here; a put and a take are atomic.
- CollatingQueue.ChatSession.FinalizeRun: closing the reservationist and the sly data afterwards; the tracing interceptor hands the message on.
- OriginatingJournal: message classes are five, and content is compared as text.
- Origination.FullNameIff: names with "." or "/" are not covered, because ".", "/" and external agent names are what the path syntax is made of; `get_safe_agent_name` is any function that keeps plain names.
- ServiceProvider: the constructor of a service returns; services that raise while being made.
- Reservations: setting the event is immediate, where the code schedules it on the event loop; the manifest validator is a predicate; URLs and recognizing reservation names.
- Reservations.AccumulatingAgentReservationist.Deploy: the text of the validation errors.
- JsonSafe: booleans count as integers, as they do in Python; keys that are not strings are numbers here; the dictionaries that conversion changes in place are values, so what a failed conversion has already changed is not described.
- NameCorrectionConfigFilter: its intended property does not hold, because it writes to a key named by the tool.
- LLM activation, middleware, tracing, message filters, HTTP and gRPC servers, file and environment access, the S3 storage and HOCON parsing.
