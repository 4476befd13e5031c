# ATOM: verified models of the agent and the server

ATOM monitors compute nodes. A C agent loads plugins, samples their metrics in one
thread per plugin, packs eight metrics into a bulk, turns the bulk into a JSON array,
and hands it through a queue to sender threads that publish it. A Node server stores
what arrives and answers requests for statistics, energy and run times. This project
models the parts whose behaviour cannot be read off one function body and proves what
they are for.

* `Pipeline.dfy`, `Shutdown.dfy`, `Readings.dfy`, `Hooks.dfy`, `Delivery.dfy`: the agent's threads as a
  transition system in which every queue call, every read of the `running` flag and
  every hook call is one atomic step of one thread. The theorems hold in every
  interleaving: nothing is lost or sent twice, few bulks are left at shutdown, every
  shutdown ends within an explicit number of steps, every registered plugin is run by
  exactly one thread, every bulk of an available plugin but its last is full, and every
  bulk of an unavailable one is empty.
* `StartUp.dfy`: plugin discovery, the plugin intervals and the number of senders.
* `BulkJson.dfy`, `Meminfo.dfy`: the text of a bulk and of the meminfo plugin, assembled
  in character buffers and read back by the RFC 8259 parser of `Json.dfy`
  (`JsonTheorems.dfy`, `JsonParts.dfy`).
* `Arduino.dfy`, `ArduinoWindow.dfy`, `HalvingMean.dfy`, `ArduinoChannels.dfy`: the serial line between the
  Movidius power meter and the agent: the sketch's printer, the agent's resynchronising
  decoder, and the halving average.
* `IniLines.dfy`, `IniScanner.dfy`, `IniTheorems.dfy`, `IniRoundTrip.dfy`, `IniMeaning.dfy`: the in-place
  INI scanner, the fold over lines that it refines, and what follows for that fold.
* `ConfigStore.dfy`: the heap of nested configuration tables that the scanner fills.
* `NvidiaMessage.dfy`: the message buffer that is rebuilt in twice the space until the
  message fits.
* `Acme.dfy`: the streaming mean with one sample counter per device.
* `StatsQuery.dfy`: the query texts of the statistics route.
* `Energy.dfy`, `Runtime.dfy`: the grouping of power records, and the earliest start and
  latest end folded over callbacks in any order.

Where the code does less than one would hope, the exact condition is proved:

* a queue freed at shutdown may hold one bulk per plugin, and that bound is attained
  (`Shutdown.LeftoverAttained`); with no sender besides the one that is never joined
  there is no bound at all (`Shutdown.LeftoverBoundIff`);
* a plugin thread runs the hook of its own table entry exactly when it is the matching
  one to arrive (`Hooks.HookByArrival`, `Hooks.NamesMayCross`);
* an empty bulk is sent as a lone `]`, which is not JSON. A plugin may register its hook
  before its init function fails with 0, and it is then run although it is unavailable:
  all its bulks are empty for as long as the agent runs (`Delivery.EmptyBulksWithoutEnd`).
  An available plugin sends an empty bulk at most as its last one, after the stop signal
  (`Delivery.TextsReadable`, `Delivery.EmptyBulkHappens`). So unreadable texts are confined
  to the end of every run exactly when each registered plugin's init function returned 1
  (`Delivery.UnreadableOnlyAtEndIff`, `Delivery.DiscoveredOnlyAtEndIff`);
* plugins behind the last entry of `[timings]` get no interval (`StartUp.LeastInterval`);
* a statistics query without a metric, and a filtered query with a type or host but no
  interval, is not JSON (`StatsQuery.AggregationReadable`, `StatsQuery.FilterReadable`);
* a workflow without any data reports a negative total run time
  (`Runtime.TotalBoundsTasks`).

The code and its documentation disagree in two places, and the model follows the code:
`mf_parser.h` says that a parse clears the stored configuration, but `mfp_parse` only
overrides it; the statistics route documents `host` as a filter, but the code ignores it
unless both ends of the interval are given.

## Model

| member | source | states |
|---|---|---|
| Pipeline.InvRun | client/src/agent/thread_handler.c:128-143 | conservation, FIFO order, per-producer order, loss-freedom, the leftover bound, the hook count and the join order survive every run of any length |
| Pipeline.ConservedStep | client/src/agent/thread_handler.c:133-140 | one step of any thread moves a handle between queue, hands and the cleaned list without creating or losing one |
| Pipeline.InOrderStep | client/src/agent/thread_handler.c:252-263 | every producer's handles stay numbered in issue order and all but the one in its hand are enqueued |
| Pipeline.NoMetricLostStep | client/src/agent/thread_handler.c:252-263 | what a hook returned so far equals the metrics of the issued bulks plus those of the bulk being filled: cutting a bulk at its first NULL drops nothing |
| Pipeline.BoundedStep | client/src/agent/thread_handler.c:133-142 | once some sender has left, queue length plus plugin threads inside an iteration stays within the number of plugins |
| Pipeline.HooksMatchStep | client/src/agent/plugin_manager.c:68-82 | hooks still queued and hooks already taken make up the registered ones, and as many hooks wait as threads |
| Pipeline.JoinedStep | client/src/agent/thread_handler.c:96-107 | main frees the queue only after every joined thread has exited |
| Shutdown.ExactlyOnePlace | client/src/agent/thread_handler.c:128-143 | in every interleaving an issued bulk is in exactly one of queue, plugin hand, sender hand, cleaned, and is cleaned at most once |
| Shutdown.ProductionOrder | client/src/agent/thread_handler.c:252-263 | senders receive the bulks of each plugin in production order without a gap |
| Shutdown.AfterFirstExit | client/src/agent/thread_handler.c:133-142 | after the first sender exit, queue plus bulks still coming never exceed the number of plugins |
| Shutdown.LeftWhenFreed | client/src/agent/thread_handler.c:96-107 | with a joined sender at most one bulk per plugin is left in the freed queue, no plugin holds one, and all but those and one more were cleaned |
| Shutdown.LeftoverAttained | client/src/agent/thread_handler.c:96-107 | that bound is reached for every number of plugins and senders |
| Shutdown.UnboundedWithoutJoinedSender | client/src/agent/thread_handler.c:100-107 | with the never-joined thread as only sender any number of bulks can be left |
| Shutdown.LeftoverBoundIff | client/src/agent/thread_handler.c:75-107 | the bound holds in all runs exactly when there is a joined sender or no plugin |
| Shutdown.EveryMetricIssued | client/src/agent/thread_handler.c:252-267 | when a plugin thread has exited, its enqueued bulks hold every metric its hook returned, in order, and nothing else |
| Readings.SampledAreReturned | client/src/agent/thread_handler.c:252-259 | a run appends to what a thread has sampled exactly the metrics its hook returned in the schedule, unchanged and in order |
| Readings.IssuedAreReturned | client/src/agent/thread_handler.c:252-262 | at any moment the issued bulks and the one being filled hold exactly what the hook returned |
| Readings.EnqueuedAreReturned | client/src/agent/thread_handler.c:252-267 | the enqueued bulks of a finished thread are exactly what its hook returned, cut into bulks |
| Readings.MetricsInPlace | client/src/agent/thread_handler.c:252-262 | a metric of a bulk keeps its place in the sequence of all metrics |
| Shutdown.HooksAreShared | client/src/agent/plugin_manager.c:68-82 | no plugin thread gets NULL, and together the threads take exactly the registered hooks |
| Shutdown.DistinctHooks | client/src/agent/plugin_manager.c:68-82 | two plugin threads never share a hook |
| Shutdown.StepLowersRank | client/src/agent/thread_handler.c:133-140 | after the stop signal every step of every thread lowers a natural number, a lost dequeue race included |
| Shutdown.ShutdownEnds | client/src/agent/thread_handler.c:96-107 | every run after the signal is at most as long as an explicit bound in queue length, plugins and senders, and a run that cannot go on has freed the queue |
| Shutdown.StillRunnable | client/src/agent/thread_handler.c:96-107 | shutdown never deadlocks |
| Shutdown.SenderTurn | client/src/agent/thread_handler.c:133-140 | a sender's turn with a bulk in the queue takes the oldest one and cleans it |
| Hooks.HookByArrival | client/src/agent/thread_handler.c:246-247 | a thread gets the hook numbered by how many threads asked before it, so thread i runs plugin i exactly when i threads asked before it |
| Hooks.NamesMayCross | client/src/agent/thread_handler.c:232-247 | with two plugins some run gives each thread the other's hook |
| Hooks.EveryPluginRuns | client/src/agent/plugin_manager.c:55-82 | once all threads have asked, every registered plugin is run by exactly one of them |
| Delivery.ShortBulkIsLast | client/src/agent/thread_handler.c:252-263 | a bulk with fewer than eight metrics is the last of its plugin and was issued after the stop signal, unless the plugin is unavailable |
| Delivery.UnavailableIsEmpty | client/src/plugins/c/acme/src/mf_plugin_acme.c:58-75 | every bulk of a plugin whose init failed after it registered is empty |
| Delivery.TextsReadable | client/src/agent/thread_handler.c:285-316 | every text handed over is the JSON array of the bulk's objects or, for an empty bulk, unreadable: never from an available plugin while the agent runs, always from an unavailable one |
| Delivery.EmptyBulkHappens | client/src/agent/thread_handler.c:252-263 | the signal between loop test and first hook call makes the last bulk empty, of an available plugin too |
| Delivery.EmptyBulksWithoutEnd | client/src/plugins/c/movidius_arduino/src/mf_plugin_movidius_arduino.c:39-75 | an unavailable plugin can have issued any number of empty bulks while the agent still runs |
| Delivery.ShortOnlyAtEndIff | client/src/agent/thread_handler.c:252-263 | short bulks are confined to the end of all runs exactly when every registered plugin is available |
| Delivery.UnreadableOnlyAtEndIff | client/src/agent/thread_handler.c:252-316 | unreadable texts are confined to the end of all runs exactly when every registered plugin is available |
| Delivery.DiscoveredOnlyAtEndIff | client/src/agent/plugin_discover.c:73-82 | for a given directory the condition is that every init function that registered a hook returned 1 |
| StartUp.Agent.RegisterHook | client/src/agent/plugin_manager.c:55-65 | the hook goes to the end of the queue and is counted |
| StartUp.Agent.GetHook | client/src/agent/plugin_manager.c:68-82 | the oldest hook is taken; an empty queue yields none; count and availability stay |
| StartUp.Agent.DiscoverPlugins | client/src/agent/plugin_discover.c:88-142 | the queue holds exactly the named entries not set to "off" that register, in directory order, entry i of the queue and name entry 2+i being the same plugin; open are exactly those not set to "off" whose init did not return below 0, newest first; available are those whose init returned 1; behind the names stands the last loaded name if it registered nothing |
| StartUp.AllAvailable | client/src/agent/plugin_discover.c:73-79 | all registered plugins are available exactly when each init function that registered returned 1 |
| StartUp.NameStored | client/src/agent/plugin_discover.c:122-124 | writing the name before the load keeps queue and table in step whether or not the load registers |
| StartUp.Agent.InitTimings | client/src/agent/thread_handler.c:187-229 | every entry of the interval table in terms of the section: the two fixed numbers, then the number of each name, or the default; the minimum is the least of the default and the intervals read, and is attained |
| StartUp.LeastInterval | client/src/agent/thread_handler.c:206-226 | with positive timings the minimum bounds every plugin's interval exactly when `[timings]` has at least as many entries as there are plugins |
| Text.AtoiForms | client/src/agent/thread_handler.c:194-213 | numbers are read behind blanks and with a sign, and text without digits reads as 0 |
| StartUp.SendersSuffice | client/src/agent/thread_handler.c:73-75 | the senders strictly outnumber the hook calls of all plugins while one text is published, eight of which make a bulk |
| StartUp.SendingThreadsIs | client/src/agent/thread_handler.c:74 | the number of sending threads is exactly the quotient, rounded down |
| StartUp.DemandIs | client/src/agent/thread_handler.c:74 | with one interval for all, the hook calls in one publish time are their number times publish time over interval |
| StartUp.Agent.PrepareThreads | client/src/agent/thread_handler.c:61-75 | discovery, intervals and sender count put together from the initial state |
| BulkJson.PrepareJson | client/src/agent/thread_handler.c:285-316 | the buffer holds the array text of the metrics before the first NULL and never overflows when each object with comma and terminator fits its local buffer |
| BulkJson.StrCat | client/src/agent/thread_handler.c:310 | appends behind the terminator and terminates again |
| BulkJson.BulkParsesBack | client/src/agent/thread_handler.c:294-313 | the text of one or more metrics is an RFC 8259 array of exactly their objects in order, five header members and then the plugin's members |
| BulkJson.ReadableIffNonempty | client/src/agent/thread_handler.c:312-313 | the text is readable exactly when the bulk has a metric |
| JsonTheorems.ReadBack | client/src/agent/thread_handler.c:301-309 | every document written with quotes-free strings, numbers and any white space is parsed back to its tree |
| Meminfo.Register | client/src/plugins/c/meminfo/src/mf_meminfo_connector.c:51-111 | the events registered and the requests left open add up to the requests, and success is reported exactly when every request is offered as often as it is made |
| Meminfo.RegisteredIsCommon | client/src/plugins/c/meminfo/src/mf_meminfo_connector.c:69-90 | the registered events are the multiset intersection of the names offered and the names requested |
| Meminfo.CleanedIs | client/src/plugins/c/meminfo/src/mf_meminfo_connector.c:71-75 | a name listed with its colon is looked up without it |
| Meminfo.MeminfoToJson | client/src/plugins/c/meminfo/src/mf_meminfo_connector.c:145-160 | the buffer holds a JSON member list when that list fits it |
| Meminfo.MeminfoTree | client/src/plugins/c/meminfo/src/mf_meminfo_connector.c:149-156 | that list reads as the type and then each event with its value in order |
| Arduino.PrintFrame | client/src/plugins/c/movidius_arduino/arduino_source/MCP3424_Multichannel_MOVIDIUS.ino:40-51 | one round prints the frame of its counter and its sixteen measurements, measurement i of chip j in place 4j + i |
| Arduino.Convert | client/src/plugins/c/movidius_arduino/src/mf_movidius_arduino_connector.c:401-509 | 1000 times every channel value is its coefficient times the weighted sum of the integers the one-character decoder hands to it, and 0 without any |
| Arduino.SeekFrame | client/src/plugins/c/movidius_arduino/src/mf_movidius_arduino_connector.c:422-453 | the two search loops advance the decoder to the first number of a frame or the end of the input |
| Arduino.ReadNumbers | client/src/plugins/c/movidius_arduino/src/mf_movidius_arduino_connector.c:457-507 | the number loop advances decoder, scratch buffer and averages together, number by number |
| ArduinoWindow.WindowTheorem | client/src/plugins/c/movidius_arduino/src/mf_movidius_arduino_connector.c:417-508 | for every stretch of the sketch's output the numbers decoded are exactly the printed values whose frame mark and terminator lie in it, in order, and the scratch buffer is never overrun |
| ArduinoWindow.ChannelTheorem | client/src/plugins/c/movidius_arduino/src/mf_movidius_arduino_connector.c:489-506 | each channel receives its own printed values and nothing else |
| ArduinoWindow.ConvertedWindow | client/src/plugins/c/movidius_arduino/src/mf_movidius_arduino_connector.c:401-509 | for a stretch of the output, the integers of a channel are the printed ones and its value is their weighted sum in thousandths of the coefficient |
| ArduinoWindow.ConvertStretch | client/src/plugins/c/movidius_arduino/src/mf_movidius_arduino_connector.c:401-509 | convert, called on any stretch of the sketch's output, leaves that value in every channel; a single printed value n gives n/1000 times the coefficient |
| ArduinoWindow.Resync | client/src/plugins/c/movidius_arduino/src/mf_movidius_arduino_connector.c:471-480 | a frame mark in the middle of a number costs one stale number and the frame of that mark, and everything behind is decoded exactly |
| HalvingMean.AverageClosedForm | client/src/plugins/c/movidius_arduino/src/mf_movidius_arduino_connector.c:492-501 | 1000 times the fold is the coefficient times the weighted sum of the integers, the newest counting 1/2 and the oldest 1/2^(n-1) |
| HalvingMean.WeightsSum | client/src/plugins/c/movidius_arduino/src/mf_movidius_arduino_connector.c:492-501 | the weights add up to 1 |
| HalvingMean.AverageBetween | client/src/plugins/c/movidius_arduino/src/mf_movidius_arduino_connector.c:492-501 | the result lies between any bounds of the scaled values |
| ArduinoChannels.Filter | client/src/plugins/c/movidius_arduino/src/mf_movidius_arduino_connector.c:512-524 | a request gets the value of the channel with its label and is left alone when there is none |
| ArduinoChannels.LabelsFollowNames | client/src/plugins/c/movidius_arduino/src/mf_movidius_arduino_connector.c:208-223 | label i is published name i, but for one blank |
| ArduinoChannels.AnsweredIff | client/src/plugins/c/movidius_arduino/src/mf_movidius_arduino_connector.c:145-160 | a published metric name is a label exactly when its own label does not end in a blank |
| ArduinoChannels.UnansweredName | client/src/plugins/c/movidius_arduino/src/mf_movidius_arduino_connector.c:208-223 | the labels are distinct, and `VDDIO_B` is the one published name that none of them equals |
| IniScanner.ParseFile | client/src/contrib/parser/libs/ini/ini.c:62-165 | the in-place scanner makes the same handler calls and returns the same line number as the pure fold over classified lines, for every file and every handler |
| IniScanner.ScanLine | client/src/contrib/parser/libs/ini/ini.c:91-152 | one line in the buffer changes section, previous name, calls and error as the classifier says |
| IniScanner.ScanPair | client/src/contrib/parser/libs/ini/ini.c:128-142 | the pair is cut in place into the name and value that the pair reading of the line gives |
| IniScanner.ScanSection | client/src/contrib/parser/libs/ini/ini.c:115-127 | a closed section header is copied and ends continuation; an open one changes nothing |
| IniScanner.RStripAt | client/src/contrib/parser/libs/ini/ini.c:24-30 | terminates the string behind its last visible character and changes nothing else of it |
| IniScanner.LSkipAt | client/src/contrib/parser/libs/ini/ini.c:33-38 | stops at the first visible character |
| IniScanner.FindAt | client/src/contrib/parser/libs/ini/ini.c:43-51 | stops at the character, at a comment behind white space, or at the end |
| IniScanner.StrNCpy0 | client/src/contrib/parser/libs/ini/ini.c:54-59 | copies what fits and always terminates |
| IniScanner.Fgets | client/src/contrib/parser/libs/ini/ini.c:91 | reads one line or the part of it that fits the buffer |
| IniTheorems.FirstFault | client/src/contrib/parser/libs/ini/ini.c:104-152 | the result is the number of the first line that is malformed or rejected, 0 if there is none, for every handler |
| IniTheorems.ZeroIffWellFormed | client/src/contrib/parser/libs/ini/ini.c:62-165 | with an accepting handler the result is 0 exactly when no line is malformed |
| IniTheorems.InsertedNoise | client/src/contrib/parser/libs/ini/ini.c:102-152 | blank and comment lines inserted anywhere but ahead of a byte order mark change no call and only shift the reported line |
| IniRoundTrip.RoundTrip | client/src/contrib/parser/libs/ini/ini.c:90-158 | a configuration written with any blanks around its separators, with `=` or `:`, and with comments behind its values is read back binding by binding with result 0 |
| IniRoundTrip.PairRead | client/src/contrib/parser/libs/ini/ini.c:128-142 | a line of blanks, key, blanks, separator, blanks, value, and blanks or a comment reads as exactly that key and value; a `;` that directly follows the separator belongs to the value |
| IniMeaning.LinesAre | client/src/contrib/parser/libs/ini/ini.c:91 | the lines are the file, cut behind every newline and after 199 characters |
| IniMeaning.NoiseIs | client/src/contrib/parser/libs/ini/ini.c:102-106 | the lines that mean nothing are exactly the blank ones and those whose first visible character is `;` or `#` |
| IniMeaning.BomIgnored | client/src/contrib/parser/libs/ini/ini.c:95-101 | a byte order mark in front of the first line changes nothing |
| IniMeaning.HeaderStep | client/src/contrib/parser/libs/ini/ini.c:115-122 | a section header sets the section to the text before the first `]`, cut to 49 characters, and ends continuation |
| IniMeaning.ContinuationRead | client/src/contrib/parser/libs/ini/ini.c:107-113 | an indented line behind a pair is handed over whole, under the pair's key |
| IniMeaning.PairContinued | client/src/contrib/parser/libs/ini/ini.c:107-146 | a pair and its continuation call the handler twice, the second time with the continuation line as value and the key cut to 49 characters |
| IniMeaning.FoundIff | client/src/contrib/parser/libs/ini/ini.c:43-51 | the search succeeds exactly when the character occurs in front of any comment |
| IniMeaning.MalformedIff | client/src/contrib/parser/libs/ini/ini.c:115-151 | a line is malformed exactly when, in front of any comment, its section is not closed or it has neither `=` nor `:` |
| ConfigStore.StoreRoundTrip | client/src/contrib/parser/src/mf_parser.c:46-82 | printing a two-level map and loading the text into an empty store gives the map back |
| ConfigStore.EveryConfigReadBack | client/src/contrib/parser/src/mf_parser.c:46-82 | every printable two-level map has such a text |
| ConfigStore.LastBindingWins | client/src/contrib/parser/src/mf_parser.c:60-82 | after any sequence of bindings a key has its last value, or its old one if it was not bound |
| ConfigStore.ReloadIdempotent | client/src/contrib/parser/src/mf_parser.c:46-66 | loading the same bindings again changes nothing |
| ConfigStore.Store.SetValue | client/src/contrib/parser/src/mf_parser.c:69-82 | one key of one section changes, and tables of distinct sections stay distinct objects |
| ConfigStore.Store.GetValue | client/src/contrib/parser/src/mf_parser.c:99-114 | yields the stored value, and leaves the caller's buffer alone when there is none |
| ConfigStore.Store.Load | client/src/contrib/parser/src/mf_parser.c:46-66 | the store is overridden by the file's bindings in order and never cleared; malformed lines do not make it fail |
| ConfigStore.Store.GetDataFilteredByValue | client/src/contrib/parser/src/mf_parser.c:118-150 | without a filter exactly the keys of the section are listed, with one exactly those whose value equals it, each once and with its value |
| NvidiaMessage.Append | client/src/plugins/c/nvidia/src/mf_plugin_nvidia.c:78-86 | writes only inside the buffer and saturates at its end |
| NvidiaMessage.AppendFormatted | client/src/plugins/c/nvidia/src/mf_plugin_nvidia.c:89-102 | writes only inside the buffer, and a saturated buffer stays terminated |
| NvidiaMessage.Build | client/src/plugins/c/nvidia/src/mf_plugin_nvidia.c:111-168 | the end is reached exactly when the concatenation of the enabled segments does not fit; otherwise the buffer holds all of it |
| NvidiaMessage.MessageIs | client/src/plugins/c/nvidia/src/mf_plugin_nvidia.c:111-168 | the complete message is the type and the texts of exactly the keys that are switched on, in their order |
| NvidiaMessage.Plugin.CreateJsonMsg | client/src/plugins/c/nvidia/src/mf_plugin_nvidia.c:105-176 | the result is the complete message of the first attempt that fits, retries end, and the capacity stays within twice the longest overflowing message |
| NvidiaMessage.FewDiscarded | client/src/plugins/c/nvidia/src/mf_plugin_nvidia.c:169-174 | the buffers discarded over a whole run are logarithmic in the longest message |
| Acme.MeanUpdate | client/src/plugins/c/acme/src/mf_acme_connector.c:358 | the incremental update turns the mean of n absolute samples into that of n+1 |
| Acme.Connector.PrintSample | client/src/plugins/c/acme/src/mf_acme_connector.c:343-361 | one callback moves one value toward the absolute sample; only channel 0 counts |
| Acme.Connector.ReadBuffer | client/src/plugins/c/acme/src/mf_acme_connector.c:174-181 | after any number of scans every channel holds the mean of its absolute samples since the reset |
| Acme.Connector.Filter | client/src/plugins/c/acme/src/mf_acme_connector.c:364-384 | each request gets mean times scale of the first channel with its label, and is left alone when no channel has it |
| Acme.Connector.ReportedIs | client/src/plugins/c/acme/src/mf_acme_connector.c:368-383 | the answer to a request, in terms of the label table alone |
| Acme.Connector.Reset | client/src/plugins/c/acme/src/mf_acme_connector.c:387-397 | all channels start over |
| Acme.Connector.Sample | client/src/plugins/c/acme/src/mf_acme_connector.c:169-189 | a failed refill keeps the samples read so far and reports nothing; a successful call reports the means and starts over |
| StatsQuery.AggregationBy | server/routes/v1/statistics.js:304-351 | what the loop and the slice build parses to the intended tree exactly for a nonempty list of metrics |
| StatsQuery.AggregationReadable | server/routes/v1/statistics.js:304-351 | the text is JSON exactly for a nonempty list of metrics, and then has the intended tree: the optional type query and three aggregations per metric in order |
| StatsQuery.SliceRemovesComma | server/routes/v1/statistics.js:346 | with a metric the slices remove exactly the trailing comma and the outer braces |
| StatsQuery.SliceTakesBrace | server/routes/v1/statistics.js:346 | without a metric the slice removes the opening brace of the aggregations instead |
| StatsQuery.FilterAndAggregateBy | server/routes/v1/statistics.js:242-267 | the text built from the optional filters and the unwrapped aggregation text parses to the intended tree, or not at all, as the next row says |
| StatsQuery.FilterReadable | server/routes/v1/statistics.js:242-285 | the filtered text is JSON exactly when there is a metric and the interval is given or neither type nor host is, and then has the intended tree |
| StatsQuery.QueryBody | server/routes/v1/statistics.js:163-185 | a missing metric is answered with an error, and otherwise the body sent parses to the filtered or the plain query |
| StatsQuery.BodyReadable | server/routes/v1/statistics.js:163-185 | what is sent is the intended query for every nonempty list of metrics and every choice of type, host and interval |
| Energy.Group | server/routes/v1/dreamcloud/energy.js:219-254 | the nested loops yield the kept records followed by one entry per time stamp |
| Energy.StoreMetric | server/routes/v1/dreamcloud/energy.js:230-249 | a power record contributes at most its first metric, to the group of its time stamp |
| Energy.KeptInOrder | server/routes/v1/dreamcloud/energy.js:226-229 | every non-power record is kept, behind exactly those before it |
| Energy.OnlyKept | server/routes/v1/dreamcloud/energy.js:226-229 | nothing else is kept |
| Energy.TimesAppear | server/routes/v1/dreamcloud/energy.js:237-247 | the entries' time stamps are distinct and are exactly those of power records with a metric |
| Energy.TimesInOrder | server/routes/v1/dreamcloud/energy.js:237-253 | entries come in the order in which their time stamps first appear |
| Energy.TimesGrow | server/routes/v1/dreamcloud/energy.js:237-253 | the place of an entry grows with the place of the record that opens it |
| Energy.MetricsCarried | server/routes/v1/dreamcloud/energy.js:237-247 | an entry holds exactly the metrics carried at its time stamp |
| Energy.MetricsAreLast | server/routes/v1/dreamcloud/energy.js:237-247 | each metric has the parsed value of the last record that carries it there |
| Energy.GroupsAreProper | server/routes/v1/dreamcloud/energy.js:231-253 | no entry is empty or repeats a time stamp, and no skipped key becomes a metric |
| Energy.FirstMetricIs | server/routes/v1/dreamcloud/energy.js:231-236 | the metric of a record is its first key that is neither `@timestamp` nor `type` nor `host` nor empty |
| Energy.CarriesIs | server/routes/v1/dreamcloud/energy.js:226-247 | a record carries a metric exactly when it is a power record of that time stamp whose first key besides time stamp, type and host is that metric |
| Runtime.Report.OnStart | server/routes/v1/dreamcloud/runtime.js:142-162 | the first callback of a task lowers the shared start and remembers the task's own |
| Runtime.Report.OnEnd | server/routes/v1/dreamcloud/runtime.js:169-204 | the second callback raises the shared end and lists the task |
| Runtime.Reported | server/routes/v1/dreamcloud/runtime.js:127-212 | for every order of callbacks the list is a permutation of the workflow's tasks, each run time is the difference of its instants in seconds, and start and end bound those of all tasks and are attained or still initial |
| Runtime.TaskReported | server/routes/v1/dreamcloud/runtime.js:132-204 | for every order of callbacks a task is listed under its name with the start and end that its own two queries returned |
| Runtime.MinimumAndMaximum | server/routes/v1/dreamcloud/runtime.js:127-212 | the reported start is the minimum start exactly when some task started by 2200, the end the maximum end exactly when some task ended after the epoch |
| Runtime.TotalBoundsTasks | server/routes/v1/dreamcloud/runtime.js:207-212 | the total is at least every task's run time exactly when the workflow is empty or some task has data |

## Left out

- libcurl, HTTP, log and PID files, option parsing, `dlopen` and the hardware libraries: a send, a load or a reading is a step or a parameter.
- The lock-free queue: its implementation is not part of this repository; enqueue, try_dequeue and is_empty are single atomic steps.
- Threads are a transition system on values, not running code: hooks, sends and sleeps are assumed to return, and nothing is said about memory models.
- The configuration thread: it reloads the tables while other threads read them, without synchronisation.
- Steps after the queue was freed: the never-joined thread may still touch it, and the model stops there.
- Floating-point rounding: doubles are reals. Integer overflow is left out too, except that printed Arduino values are 32-bit.
- Arduino.Convert: asks that its 128-character scratch buffer is not overrun, which the code does not check; the window theorem shows that the sketch's output never overruns it. It also asks for a length below the size of the read buffer: a failed `read` stores -1 as the largest `size_t`, and the code then runs past the buffer. Of damage on the wire only a frame cut short by lost characters is treated.
- ConfigStore.Store.Load: applies the handler's bindings after the scan instead of during it; the handler always succeeds, so the order of bindings is the same.
- ConfigStore.Store.GetDataFilteredByValue: takes sections of at most 256 entries, the size of the caller's arrays, which the code does not check; the lengths of copied keys and values are not modelled.
- IniScanner.ParseFile: the file is a character sequence; a read error in the middle of a file is not modelled.
- StartUp.Agent.DiscoverPlugins: the plugin name of a directory entry is given, get_plugin_name is not modelled; the caller promises fewer than 254 plugins, which the code does not check. A plugin registers at most once; an init function that returns a negative number after registering, which no plugin here does, would leave a hook into a closed library, and its hook is modelled as unavailable.
- StartUp.Agent.InitTimings: takes at most 254 entries in `[timings]`, which the code does not check; the 20-character value buffer is not modelled.
- NvidiaMessage.AppendFormatted: a negative result of `vsnprintf`, which would move the position back, is not modelled.
- Meminfo.MeminfoToJson: the length of one event text is not bounded by its own 128-character buffer.
- Energy.Group: parseInt is a parameter; time stamps are strings such as ISO dates, which JavaScript objects enumerate in insertion order, and every record has one.
- Runtime.Report.OnStart: parsing of dates and the replacement of blanks in them are not modelled; instants are integers, and an unreadable date is absent.
- Runtime.Reported: covers runs without a query error; after an error the route answers at once.
- StatsQuery.BodyReadable: names, type, host and interval ends are free of quotes, backslashes and control characters; the code inserts them without escaping.
- StatsQuery.AggregationBy: an absent metric is an error reply; the query text computed before that check is not modelled.
- The reply of the statistics route, the other Express routes, the C++ queue adapter, the unit tests and the duplicated utilities.
- PAPI, lm_sensors and the other plugins: their bodies are member lists like the one modelled for meminfo.
