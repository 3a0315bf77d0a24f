# io-monitor in Dafny

A model of [io-monitor](https://github.com/karthikprabhu17/io-monitor) and proofs about it. io-monitor is a
shared library that records intercepted C library calls on a SysV message queue, and a listener that hands
the records to a chain of plugins. `dafny verify dfyconfig.toml` checks everything.

## What is modelled

**Capture** (`Stages`, `Gate`, `Recording`, `Sampling`, `Sender`, `Capture`). `record()` works on static variables: a
paused latch, a 1-in-k counter, a time-window sampler that uses 0 for "no window yet", the queue handles and
four counters. `Capture.Monitor` is that state as an object, `Gate` and `Sender` its steps by value. `Stages`
says what is kept of a list of events without any state. The main results are that the two agree for all
settings and all runs in which no sum of time sampling wraps, a budget for time sampling, and the accounting of
the send loop; for the first two the exact settings and times up to which they hold. `Recording` writes out, test by
test, which calls are reported and when capture starts.

**Tracking** (`Resolver`). The sorted mount table and the table of open descriptors, with the dispatch of
`input_loop()`. The mount scan is proved to find the shortest prefix, and the descriptor table to answer
exactly what the history of opens and closes says.

**Plugins** (`Plugins`, `Instances`, `Commands`, `Machines`, `Lifetimes`, `Chain`, `InputLoop`). `Chain.PluginChain` and
`Commands.Registry` are the two linked lists on the heap, edited in place; plugin instances are shared between
them, as the `void* state` pointers are. A plugin is any function from its callback history to an answer.
`Machines` is the same listener by value. Every heap method is proved to be the step by value, and the theorems
about runs are proved there; `Lifetimes` adds the instances that have left the list.

**Filters and the whole path** (`Filter`, `Pipeline`). `filter_domains` as a plugin; what stands behind such
filters; and whether choosing domains at the source can be told from choosing them with a filter.

**Parsers and printers** (`Text`, `Bits`, `Domains`, `Arguments`, `Escape`). Domain lists and masks of 32 bits,
argv and configuration lines with their 128-slot pointer arrays, and the escaping of tag values into a buffer.

## What the proofs found

- Time sampling adds `unsigned long`s, and settings are read so that -1 means 2^64 − 1. With TIME_SAMPLE_FREQUENCY=-1
  and a window of two seconds, calls in the seconds 10, 11, 12 and 12 are recorded in three seconds where two are
  allowed (`Capture.NegativeFrequency`). Up to the second T record() keeps what the stages keep exactly when
  T + duration < 2^64 and T + frequency < 2^64 + duration (`Gate.KeptUpTo`), and the budget holds exactly when the
  second of these does (`Sampling.BudgetUpTo`).
- Capturing with a narrow mask and filtering with it at the listener put the same records on the queue while the
  queue is steady, but not the same devices in them: a mask that keeps, say, FILE_READ without FILE_OPEN_CLOSE
  loses the devices of the reads. `Pipeline.SourceOrFilter` gives the exact condition.
- When the first `msgget` fails, not even the records are the same: the wide capture asks first and is lost for
  good, the narrow one may ask later and be served (`Pipeline.QueueLostByWideMask`). Without an assumption on the
  queue only the masks with all domains or none are safe in every run (`Pipeline.SentNarrowedAlways`), and in a given
  run the two agree exactly when no call of the mask between the two starts gets through (`Pipeline.SentNarrowedInRun`).
- `free_command()` is given the library path only. With two instances of one library, which the help text
  advertises, unloading the first takes the command of the second and leaves the first one's behind, pointing to
  a closed instance (`Machines.SameLibraryTwice`). `Machines.UnloadFreesRight` says exactly when the right command goes,
  and `Machines.RunsStaySound` in which runs it always does. The command left behind still calls the closed instance
  (`Lifetimes.ClosedInstanceTold`); `Lifetimes.DanglesExactly` says exactly when one is left behind.
- An unmounted device (`MOUNTPOINT=""`) enters the mount table under the empty name and from then on owns
  every path (`Resolver.EmptyMountPointTakesAll`).
- `last_ch` starts uninitialised. `Escape.StaleCharacter` and `Escape.StaleBuffer` say exactly when that shows.
- Once `ftok` has succeeded and `msgget` has failed, every later record fails, and there is no other way to be
  lost for good (`Sender.LostForGood`).
- Comments in include/domains.h number START_STOP 17; the enum makes it 16, and so does the model.

## Where the code is modelled as it is meant

- `free_command()` assigns in a condition where it means to compare (mq_listener/command_parser.c:62).
  `Commands.Registry.FreeCommand` compares. `Commands.FreedAsWritten` is the code as it stands, and
  `Commands.AsWrittenFreesRight` says exactly when the two do the same, and `Machines.AsWrittenUnloadsTheNewest`
  exactly when unloading with it takes the right command.
- `send_msg_queue()` falls off its end after five EAGAINs; `SendMsgQueue` returns the last nonzero result there.
- The list head and the plugin looked up by name are read just before the mutex is taken
  (mq_listener/plugin_chain.c:52-54, 175-177). Each method of `PluginChain` is one atomic step.
- `unload_plugin_by_name()` dereferences NULL for an unknown name, so that the name is known is its precondition.
- `print-mask` indexes past the name table for masks with a bit at or above END_DOMAINS, so it requires
  `Printable`; `Domains.PrintableLists` says that a configured mask is printable exactly when ALL is not in its list.

## Model

| member | source | states |
|---|---|---|
| Gate.PassedAreKept | io_monitor/io_monitor.c:421-527 | for all settings and all event lists in which no sum of time sampling wraps (every time + duration < 2^64 and time + frequency < 2^64 + duration), what passes the stateful filter is what admission, start trigger, every-k-th and time windows keep, in that order, a stage that is off being the identity |
| Gate.Fused | io_monitor/io_monitor.c:421-527 | the filter works the stages in that order from any state of latch, counter and clock, sums that wrap included |
| Recording.ReportedFromTheStart | io_monitor/io_monitor.c:437-479 | with sampling off the reported calls are those on no standard stream (unless of domain 16), of a domain in the mask and not opening . or .., that are or come after the first such call with more elapsed than the threshold, or opening a path with the given text in it; all of them if neither is set |
| Recording.SampledFromTheStart | io_monitor/io_monitor.c:437-527 | with sampling on, the counter and then the clock are given exactly those calls, sums that wrap included |
| Gate.CounterKeepsEveryKth | io_monitor/io_monitor.c:481-487 | a counter at c keeps the last event of every block of k, the first block being c shorter; frequencies below one keep all |
| Gate.CountedAt | io_monitor/io_monitor.c:481-487 | from a new counter, with frequency k the calls k, 2k, 3k and so on are kept, below 1 all |
| Gate.ClockKeepsWindows | io_monitor/io_monitor.c:491-527 | flag and start time, with 0 for none, sample exactly the windows of the list definition, including the event lost when a window is found over, from every clock and for all events whose sums do not wrap |
| Gate.KeptUpTo | io_monitor/io_monitor.c:498-517 | with time sampling alone on and a mask that has some domain, the filter keeps what the stages keep in every run up to the second T exactly when T + duration < 2^64 and T + frequency < 2^64 + duration |
| Sampling.WindowsAreSpaced | io_monitor/io_monitor.c:491-527 | with an ordered clock every window lies in [start, start+duration) and window starts are max(frequency, duration) apart |
| Sampling.WindowsOfRun | io_monitor/io_monitor.c:491-527 | what time sampling passes, by places: a window takes the calls within duration of its first, the call that finds it over is lost, and the next opens at the first call after that which comes frequency or more after the opening |
| Sampling.RunInWindows | io_monitor/io_monitor.c:491-527 | what passes in any run falls into such windows, also where the end of a window wraps, as long as every time + frequency stays below 2^64 + duration |
| Sampling.RunBudget | io_monitor/io_monitor.c:491-527 | over any run at most duration × (1 + (last − first) / max(frequency, duration)) distinct seconds are recorded, under the same condition |
| Sampling.BudgetUpTo | io_monitor/io_monitor.c:498-517 | with time sampling alone on and a mask that has some domain, that budget holds of every run up to the second T with an ordered clock exactly when T + frequency < 2^64 + duration |
| Capture.NegativeFrequency | io_monitor/io_monitor.c:260-273 | the environment that asks for a frequency of -1, and a run of four calls that breaks the budget it sets |
| Sender.Accounting | io_monitor/io_monitor.c:301-319 | over any run of sends records + failures = sends, records = deliveries, retries ≤ 5 × sends, 1024 × retries ≤ lost time and 5 × lost time ≤ 31744 × retries |
| Sender.CountersCount | io_monitor/io_monitor.c:301-319 | every counter grows by exactly what each send contributes, lost time by 0, 1024, 3072, 7168, 15360 or 31744 for 0 to 5 EAGAINs |
| Sender.OneSend | io_monitor/io_monitor.c:280-319 | one send, spelled out: when it is connected, what it counts, how long it sleeps for 0 to 5 EAGAINs, and which record it delivers |
| Sender.BackoffIs | io_monitor/io_monitor.c:311-313 | the first EAGAIN of a send adds 1024 to the lost time, each further one twice what the one before it added |
| Sender.LostForGood | io_monitor/io_monitor.c:283-295 | from a given state nothing is ever delivered, whatever the queue answers, exactly when there is a key without a queue |
| Sender.NoSecondMsgget | io_monitor/io_monitor.c:283-295 | in that state every event counts as a failure and no time is lost |
| Capture.ReadEnvironment | io_monitor/io_monitor.c:206-273 | the settings that initialize_monitor and load_library_functions leave behind, conversions to unsigned long and int included |
| Capture.StartSettings | io_monitor/io_monitor.c:206-217 | START_ON_OPEN holds capture back, and without it a START_ON_ELAPSED of more than 100 microseconds |
| Capture.DomainSettings | io_monitor/io_monitor.c:236-246 | a domain is captured exactly when a list is given and names it or ALL |
| Capture.SamplingSettings | io_monitor/io_monitor.c:248-273 | sampling is on exactly for numbers that are not 0 as unsigned longs; the window has that duration and that frequency, the counter that frequency as an int |
| Capture.Monitor.constructor | io_monitor/io_monitor.c:111-129 | a new monitor has the configured settings and the state of an empty run |
| Capture.Monitor.Passes | io_monitor/io_monitor.c:437-527 | the statements of record() before the send perform the filter step and return its verdict |
| Capture.Monitor.SampleByCount | io_monitor/io_monitor.c:481-487 | the counter statements perform the counting step |
| Capture.Monitor.SampleByTime | io_monitor/io_monitor.c:491-527 | the window statements perform the clock step, unsigned wrap included |
| Capture.Monitor.SendMsgQueue | io_monitor/io_monitor.c:280-319 | returns 0 exactly when the queue took the record within five tries, with the retries, the handles and the lost time of that send, which is 0, 1024, 3072, 7168, 15360 or 31744 for 0 to 5 EAGAINs |
| Capture.Monitor.Record | io_monitor/io_monitor.c:404-559 | after any call the whole state is that of the longer history |
| Capture.RunAccounted | io_monitor/io_monitor.c:404-559 | a monitor's queue holds the accepted ones among the events of its history that pass, and its counters account for all of those events; they are the kept ones unless a sum of time sampling wraps |
| Resolver.FirstIsShortest | mq_listener/resolver.cpp:163-175 | the first prefix in a sorted table is the shortest |
| Resolver.FirstAgreesWithLongest | mq_listener/resolver.cpp:163-175 | first match and longest match agree on every path exactly when no mount point lies under one with another device |
| Resolver.DeviceIndex.PathToDev | mq_listener/resolver.cpp:163-175 | the iterator loop returns the device of the first mount point that is a prefix of the path, which is the shortest, and the root device when none is |
| Resolver.DeviceIndex.RegisterFile | mq_listener/resolver.cpp:179-184 | an open with a descriptor and a path sets that descriptor's device and no other |
| Resolver.DeviceIndex.DeregisterFile | mq_listener/resolver.cpp:188-195 | a close removes its descriptor and no other |
| Resolver.DeviceIndex.ResolveFile | mq_listener/resolver.cpp:199-207 | the record gets its descriptor's device cut to DEVICE_LEN, or stays as it is |
| Resolver.TableIsHistory | mq_listener/resolver.cpp:179-207 | for every descriptor the table holds the device of its latest open not followed by a close, and nothing otherwise |
| Resolver.DevicesAreHistory | mq_listener/mq_listener.c:147-161 | every record of every sequence carries the device its history gives it; an open counts itself, a close still sees the device it ends |
| Resolver.UseAfterOpen | mq_listener/resolver.cpp:199-207 | after an open, SYNCS, FILE_SPACE, FILE_METADATA, FILE_WRITE and FILE_READ records and the close get the device of the path opened, cut to ten characters, unless the descriptor was opened again or closed in between; other records that are no opens get none |
| Resolver.OpenTracked | mq_listener/mq_listener.c:147-150 | an open with a descriptor and a path gets the device of its own path |
| Resolver.UseUnopened | mq_listener/resolver.cpp:199-207 | before any open of its descriptor, or since its close, a record that is no open is left as it is |
| Resolver.DeviceIndex.Receive | mq_listener/mq_listener.c:147-161 | the dispatch gives a record the answer of the history received so far |
| InputLoop.HandleMessage | mq_listener/mq_listener.c:147-163 | one message is tracked and the plugins are given the tracked record |
| InputLoop.HandleMessages | mq_listener/mq_listener.c:131-168 | over any answers of msgrcv, errors included, the heap listener ends where delivering the records received, each with the device its history gives it, takes the chain by value, and its commands are as before |
| Plugins.DeliveredExactly | mq_listener/plugin_chain.c:52-76 | a plugin is offered a record exactly when no earlier plugin dropped it and it is unpaused after its poll; it is polled only when paused and reached; refusing hides nothing; behind a drop nothing changes |
| Plugins.DeliverSpelledOut | mq_listener/plugin_chain.c:52-76 | one place of the chain by the numbers the callbacks return: 1 ends a pause, 0 begins one, -1 keeps the record from those behind |
| Plugins.DeliverObeys | mq_listener/plugin_chain.c:55-72 | delivery keeps every plugin within the pause protocol |
| Plugins.PausesBalance | include/plugin.h:13-24 | along a legal history a plugin is paused exactly while refusals exceed resumptions by one |
| Plugins.DeliverKeepsIdentity | mq_listener/plugin_chain.c:50-77 | delivery changes nothing but paused flags and plugin histories |
| Commands.FreeUndoesSet | mq_listener/command_parser.c:38-75 | freeing a command by a name it answers to gives the list without it, and so the dispatch of every name, exactly when no command registered after it answers to that name |
| Commands.AsWrittenFreesRight | mq_listener/command_parser.c:55-75 | the assignment in the condition is harmless exactly when no command answers to the name or the newest one does |
| Commands.Registry.SetCommand | mq_listener/command_parser.c:38-45 | the new command comes first, the others follow unchanged |
| Commands.SetCommandsArray | mq_listener/command_parser.c:47-53 | the commands of the array come before the old ones, the last of the array first |
| Commands.Registry.FreeCommand | mq_listener/command_parser.c:55-75 | the first command that answers to the name leaves the heap list, the order of the rest stays |
| Commands.Registry.RunCommand | mq_listener/command_parser.c:82-95 | the first command that answers is called, with its own state and no other |
| Machines.RunIsPlain | mq_listener/plugin_chain.c:97-286 | after any interleaving of steps the plugins, their names and order are those of a plain list on which loading appends and unloading removes the first match |
| Machines.RunsObey | mq_listener/plugin_chain.c:55-72 | in every run, whatever the plugins answer and are called, every plugin is polled only while paused and given records only while not, and its flag is that of its history |
| Machines.FlagsBalanceInEveryRun | mq_listener/plugin_chain.c:55-72 | in every run of a listener a plugin's paused flag is its refusals minus its resumptions since it was loaded |
| Machines.RunsStaySound | mq_listener/plugin_chain.c:84-286 | in every run of loads, unloads, deliveries and commands, whatever the plugins are called, the command list mirrors the plugin list after every step exactly when at every unload nothing in the way answers to the path of what is unloaded |
| Machines.DispatchReachesLoaded | mq_listener/command_parser.c:82-95 | while it does, a name reaches the newest plugin with commands that goes by it; every other name resolves as among the built-in commands |
| Machines.DispatchInEveryRun | mq_listener/command_parser.c:82-95 | the same after every such run from the start, one library loaded twice included |
| Machines.CommandReachesItsPlugin | mq_listener/command_parser.c:82-95 | a command changes the history of the newest plugin that goes by its name and of no other |
| Machines.OwnNamesReach | mq_listener/command_parser.c:82-95 | in a run in which every load brings names of its own, each name of a loaded plugin with commands reaches that plugin and every built-in name is reached as before |
| Machines.UnloadFreesRight | mq_listener/plugin_chain.c:84-87 | for any plugin list, unloading frees the right command exactly when no later plugin with commands answers to the library path, or, for a plugin without commands, when nothing does |
| Machines.AsWrittenUnloadsTheNewest | mq_listener/command_parser.c:55-75 | for any plugin list, with the assignment in place unloading frees the right command exactly when no later plugin has commands, or, for a plugin without commands, when nothing answers to its path |
| Machines.SameLibraryTwice | mq_listener/plugin_chain.c:84-87 | two instances of one library: unloading the first leaves its command and loses the second one's |
| Lifetimes.ClosedOnceInEveryRun | mq_listener/plugin_chain.c:84-105 | in every run no loaded instance has been closed, and every instance that has left was closed exactly once |
| Lifetimes.CloseIsTheEnd | mq_listener/plugin_chain.c:84-105 | in every run in which each unload frees the right command, from any sound state, an instance that has left ends in its only close |
| Lifetimes.CloseIsTheEndOfAll | mq_listener/plugin_chain.c:84-105 | the same from the start of a listener, on the callback history itself |
| Lifetimes.DanglesExactly | mq_listener/plugin_chain.c:84-87 | a command that carries the closed instance stays behind exactly when the plugin had commands and a later one that has some answers to its library path |
| Lifetimes.ClosedInstanceTold | mq_listener/command_parser.c:82-95 | the run in which a closed instance is called: one library loaded twice, the first unloaded and then addressed |
| Chain.PluginChain.ExecutePluginChain | mq_listener/plugin_chain.c:50-77 | the traversal of the heap list is the delivery of the record, and leaves the links alone |
| Chain.PluginChain.OfferTo | mq_listener/plugin_chain.c:56-72 | the loop body polls, offers, and sets the paused flag as the protocol says |
| Chain.PluginChain.LoadPlugin | mq_listener/plugin_chain.c:205-286 | failing loads return 1 and change nothing; otherwise a new instance is appended and its command put first |
| Chain.PluginChain.LocatePluginByName | mq_listener/plugin_chain.c:157-171 | the first node whose library or alias is the name, or none |
| Chain.PluginChain.UnloadPlugin | mq_listener/plugin_chain.c:84-95 | the instance is closed and the first command that answers to its library path freed |
| Chain.PluginChain.Unlink | mq_listener/plugin_chain.c:179-201 | head or middle, exactly that node leaves the list |
| Chain.PluginChain.Predecessor | mq_listener/plugin_chain.c:188-200 | the search always finds the node before, so the error exit is never reached |
| Chain.PluginChain.UnloadPluginByName | mq_listener/plugin_chain.c:173-202 | the first plugin of that name is closed and unloaded, no other instance is called, the others keep their order, and the result is 0 |
| Chain.PluginChain.UnloadAllPlugins | mq_listener/plugin_chain.c:97-105 | unloads from the head on until the list is empty, closing every instance once |
| Chain.PluginChain.RunCommand | mq_listener/command_parser.c:82-95 | the instance that the command carries is told and its answer returned, the others are not; a built-in is named, an unknown name found to be none |
| Chain.PluginChain.CountPlugins | mq_listener/plugin_chain.c:110-121 | the number of nodes |
| Chain.PluginChain.ListPlugins | mq_listener/plugin_chain.c:123-152 | library, and colon and alias if there is one, for each node in order |
| Chain.SplitPluginName | mq_listener/mq_listener.c:209-217 | library before the first colon, alias after it unless empty |
| Chain.SplitAtColon | mq_listener/mq_listener.c:209-217 | library:alias gives library and alias, library: and library alone give no alias |
| Chain.SplitUndoesListed | mq_listener/mq_listener.c:209-217 | splitting a listed name gives back library and alias |
| Filter.FilterPlugin.ProcessData | plugins/filter_domains.c:58-67 | answers 1 to the domains in the current mask and -1 to the rest, and keeps the mask |
| Filter.FilterPlugin.PluginCommand | plugins/filter_domains.c:80-102 | update-mask replaces the mask, print-mask prints the names of its bits, anything else changes nothing |
| Filter.PrintBits | plugins/filter_domains.c:89-99 | the loop prints the set bits' names ascending with commas between, and ends |
| Filter.BehindFilters | plugins/filter_domains.c:58-67 | plugins behind filters, with any plugins that never drop standing among them, go through the same states as alone on the records in the intersection of the filters' masks |
| Filter.FilterOrderIsIrrelevant | mq_listener/plugin_chain.c:52-76 | filters with the same set of masks, in any order and with other plugins that never drop among them, make no difference to what stands behind them |
| Pipeline.SentIs | io_monitor/io_monitor.c:283-319 | with sampling off, whatever ftok, msgget and msgsnd answer, what is sent is what gets through from the first admitted event that finds the key, if that one finds the queue |
| Pipeline.SentNarrowed | io_monitor/io_monitor.c:443-447 | with sampling off, in every run with a steady queue (once ftok finds the key it keeps finding it, and then msgget succeeds) capturing mask m sends the records in m of what capturing everything sends |
| Pipeline.SentNarrowedAlways | io_monitor/io_monitor.c:443-447 | with ftok and msgget free to answer anything, this holds of every run exactly when m has every domain or none |
| Pipeline.SentNarrowedInRun | io_monitor/io_monitor.c:443-447 | in any given run, whatever ftok, msgget and msgsnd answer, this holds exactly when no call of the mask between the starts of the two captures gets through |
| Pipeline.QueueLostByWideMask | io_monitor/io_monitor.c:283-295 | the run that shows it: the wide capture asks msgget too early and delivers nothing, the narrow one delivers |
| Pipeline.SourceOrFilter | io_monitor/io_monitor.c:443-447 | source mask and listener filter give the plugins the same records, devices included, in every run with a steady queue exactly when the mask keeps FILE_OPEN_CLOSE, or no domain whose records are given a device, or no path that capture admits has a device |
| Pipeline.SourceOrFilterAlways | io_monitor/io_monitor.c:443-447 | with no assumption on the queue, exactly when the mask has every domain or none |
| Pipeline.ChainCannotTell | plugins/filter_domains.c:58-67 | for such a mask, in a run with a steady queue or with a mask of all domains or none in any run, every chain goes through the same states either way |
| Domains.DomainListToBitMask | include/utility_routines.h:8-31 | the nested loops compute the mask of the list |
| Domains.MaskBits | include/utility_routines.h:16-27 | a bit is set exactly when its domain is named or ALL is |
| Domains.BitsByName | include/domains.h:22-46 | the mask of each of the nineteen names and of ALL, as a number |
| Domains.DomainsByName | include/domains.h:22-46 | the domains with a treatment of their own are those of their names |
| Domains.SameTokensSameMask | include/utility_routines.h:16-27 | order, duplicates and unknown names never change the mask |
| Domains.MaskOfJoinedLists | include/utility_routines.h:16-27 | two lists joined by a comma give the bitwise OR of their masks |
| Domains.PrintableLists | plugins/filter_domains.c:91-94 | print-mask stays within the name table exactly when the list did not say ALL |
| Domains.ParseOfPrinted | plugins/filter_domains.c:86-100 | parsing the printed names of a printable mask gives the mask back |
| Domains.PrintOfParsed | plugins/filter_domains.c:86-100 | printing a parsed list gives its known names ascending and once each |
| Arguments.ParseArgs | mq_listener/command_parser.c:138-201 | for every argv whose collected groups fit the slots: calls exactly the groups up to and including the first failure, and returns 0 exactly when argv is well formed and every group succeeded |
| Arguments.WellFormedIs | mq_listener/command_parser.c:155-190 | arguments are free of syntax errors exactly when they begin with a dash and none is - or -- alone |
| Arguments.GroupsOfRendered | mq_listener/command_parser.c:143-190 | the groups of a rendered list of calls are that list |
| Arguments.RenderedRuns | mq_listener/command_parser.c:138-201 | parse_args on a rendered list runs it in order up to and including the first failure |
| Arguments.ParseCommand | mq_listener/command_parser.c:99-119 | a line calls its first token with the other tokens, an empty line nothing |
| Arguments.LineOfWords | mq_listener/command_parser.c:108 | a line of words, with the newline that fgets leaves, calls the first word with the others |
| Arguments.BlanksAround | mq_listener/command_parser.c:108 | a space or newline at either end of a line makes no difference |
| Arguments.LineAgreesWithArgv | mq_listener/command_parser.c:99-190 | a line of words, with its newline, and its dashed form make the same call |
| Text.NextToken | include/utility_routines.h:16 | strtok_r as used here: the first token and what is left |
| Escape.CopyEscapedTagValue | plugins/output_influxdb.c:30-74 | the buffer holds the longest escaped prefix of the text's meaning that fits, then zeros |
| Escape.WrittenLine | plugins/output_influxdb.c:36-73 | unescaping the buffer gives the source line without backslashes and without a space, comma or equals sign that repeats the character before it: all of it exactly when it fits, otherwise as much as fits |
| Escape.SeparatorsEscaped | plugins/output_influxdb.c:59-65 | in the buffer every space, comma and equals sign stands behind a backslash, and every backslash before one of them |
| Escape.WrittenMeans | plugins/output_influxdb.c:39-73 | unescaping gives a prefix of the meaning, and all of it exactly when it fits |
| Escape.WrittenWell | plugins/output_influxdb.c:59-71 | always terminated; every special behind a backslash, no backslash dangling |
| Escape.EscapingIsIdempotent | plugins/output_influxdb.c:39-73 | escaping the result again with the same room reproduces it |
| Escape.StaleCharacter | plugins/output_influxdb.c:36-48 | the uninitialised last_ch changes the meaning exactly when the text begins with the special it holds, and then by that one character |
| Escape.StaleBuffer | plugins/output_influxdb.c:36-73 | it changes the buffer exactly then, except where the buffer is too small to show it, which is said exactly |

## Left out

- The TCP transport and its socket exclusion (`failed_socket_connections`, `socket_fd`): MESSAGE_QUEUE_PATH is taken as set.
- `ftok`, `msgget`, `msgsnd`, `dlopen`, `dlsym`, `open_plugin` and the plugins' answers: arbitrary values chosen per event, per load or per callback history.
- Building the message (facility, pid, second string, truncation to field widths): a record is its domain, operation, descriptor, first string, time and device.
- Overflow of the `int` counters of sends, retries, records and lost time: they are unbounded. Timestamps are positive and fit an unsigned long.
- Elapsed time is in whole microseconds with the same strict comparison; the source uses floating-point milliseconds.
- The value of MQ_KEY_NONE is not defined in the repository; it is taken to be the -1 that both handles start with.
- `parse_device_fields` and `capture_device_info`: the mount table is given, in the order of its map.
- A device of ten characters or more fills its field without a terminator; the model keeps its first ten characters.
- Widths of `struct command` strings, allocation sizes and the freeing of strings.
- A plugin is given a pointer to the record and may write through it, and may call commands through its listener while a record is being delivered: here a record is the same for every plugin, and a delivery changes nothing but the plugins' own states.
- Threads: every listener operation is one step, and the input plugin's thread and process exit are not part of the model.
- The bodies of the built-in commands other than loading and unloading; to the argument parsers a command is any function of the calls made so far.
- `c_config`'s file reading, help texts, the CSV, table and InfluxDB output formats, `is_all_whitespace`: formatting only.
- Generated interposers, exec helpers and check_for_http.cpp.
- Chain.PluginChain.ExecutePluginChain: each load is an instance whose answers depend on its own callbacks only; a plugin that keeps its state in globals and is loaded twice shares more than that.
- Arguments.ParseArgs: requires that no group whose parameters are collected has more of them than the 128-slot array takes, beyond which the source writes past it.
- Pipeline.SentNarrowed: assumes a steady queue, because without it the claim is false; `Pipeline.SentNarrowedAlways` is the exact condition then.
