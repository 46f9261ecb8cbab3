# DDS discovery snapshot analysers, modelled in Dafny

The two analysers read one XML snapshot of DDS discovery data. Each entry
under `domain_participants` holds a participant's `participant_data` and its
`publication_data` and `subscription_data` blocks. From these the analysers
build domains of participants and endpoints, summary tables and topology
diagnostics. This project models both scripts.

- `dds_analyze.py`, the object analyser:
  - `parse_participant` and `parse_endpoint` turn XML children into
    `Participant`, `Device` and `Endpoint` values;
  - `ProcessFile` files them under one `Domain` object per domain id;
  - `extract_tables` fills the device, topic and type tables and the four
    reliability dictionaries in place;
  - the computing half of `export_analysis` finds orphan writers and readers,
    reliability mismatches, topics with several types, and the totals;
  - the sort keys of the export sheets order participants, endpoints and
    topics.
- `dds_analyze_v3.py`, the data-frame analyser:
  - the same decoders, returning rows;
  - a `ProcessFile` that appends those rows to two frames;
  - the `test_*` checks over the endpoint frame, and `get_devices`.

Module layout, one module per file:

| module | file | what it holds |
|---|---|---|
| `Wrappers` | `wrappers.dfy` | `Option`, `Result`, `Outcome`, and `Fault`, one value per exception the scripts can raise |
| `Text` | `text.dfy` | `str.split`, `str.join`, `[-4:]`, `int(s, base)`, `str(n)`, and Python's string order |
| `Seqs` | `seqs.dfy` | filtering and counting rows |
| `Sorting` | `sorting.dfy` | Python's stable `sorted` |
| `Locator` | `locator.dfy` | the unicast and multicast locator loops and address decoding |
| `LocatorExample` | `locatorexample.dfy` | one worked address |
| `Records` | `records.dfy` | the record types and the two decoders |
| `Topology` | `topology.dfy` | `Domain` and the module-level `domains` dictionary as classes, and `ProcessFile` |
| `Tables` | `tables.dfy` | `extract_tables` as a method on a class whose fields are its dictionaries |
| `TableFacts` | `tablefacts.dfy` | what the tables hold, and which of them ignore endpoint order |
| `Analysis` | `analysis.dfy` | the computing half of `export_analysis` and the sort keys |
| `Groups` | `groups.dfy` | pandas `groupby` keys and groups, and `concat` |
| `Frames` | `frames.dfy` | the v3 `ProcessFile` and the two data frames |
| `FrameTests` | `frametests.dfy` | the v3 `test_*` functions |
| `DeviceTable` | `devices.dfy` | the v3 `get_devices`, as written and as evidently intended |

How the model works:

- **Loops.** The state-changing loops are `while` loops in methods:
  - the decoders' child walks and locator walks;
  - `ProcessFile` in both scripts;
  - `extract_tables`;
  - the orphan search;
  - the adjacent-pair type scan;
  - the v3 group loops.
  Each method's `ensures` ties its result, or its new state, to a function of
  its inputs. Lemmas then state what that function means.
- **Errors.** A Python exception ends the run. It becomes a `Failure` or
  `Fail` value carrying the `Fault` that names it. The state already written
  stays in place, as in the source.

## Model

| member | source | states |
|---|---|---|
| `Text.JoinSplit` | dds_analyze.py:88-96 | joining the parts of `s.split(sep)` with `sep` gives `s` back |
| `Text.SplitJoin` | dds_analyze.py:88 | splitting a join of separator-free parts gives exactly those parts |
| `Text.SplitPartsFree` | dds_analyze.py:88 | no part of a split holds the separator |
| `Text.SplitSuffix` | dds_analyze.py:88 | splitting `t + sep + w`, with `w` separator-free, gives the parts of `t` followed by `w` |
| `Text.LastFour` | dds_analyze.py:89 | `[-4:]` keeps four items, or all of them when there are fewer |
| `Text.ParseNumeral` | dds_analyze.py:95 | `int(s, base)` succeeds exactly on a non-empty string of digits of that base |
| `Text.Numeral` | dds_analyze.py:96 | `str(n)` is a non-empty string of decimal digits |
| `Text.NumeralRoundTrip` | dds_analyze.py:95-96 | reading back the printed numeral of `n`, in base 10 or 16, gives `n` |
| `Text.NumeralNoLeadingZero` | dds_analyze.py:96 | a printed numeral starts with `0` only when the number is 0 |
| `Text.LexLeTotal` | dds_analyze.py:308 | any two strings are ordered one way or the other under Python's `<=` |
| `Text.LexLeAntisymmetric` | dds_analyze.py:308 | two strings each `<=` the other are equal |
| `Text.LexLeTransitive` | dds_analyze.py:308 | Python's string `<=` is transitive |
| `Sorting.SortBy` | dds_analyze.py:308 | `sorted` returns a permutation of its input, ordered by the key |
| `Sorting.SortByStable` | dds_analyze.py:393 | `sorted` is stable: rows with equal keys keep their input order |
| `Locator.DecodeTokensMeaning` | dds_analyze.py:95 | decoding fails iff some token is not hexadecimal; on success it gives one value per token, each the token's value |
| `Locator.FirstUdpMeaning` | dds_analyze.py:91-97 | the element the loop stops at has kind "1" and none before it has; when none has kind "1" the loop does not stop |
| `Locator.ScanUnicast` | dds_analyze.py:84-97 | the unicast loop leaves the state its specification function gives: the first kind "1" element decodes the tokens of the latest element up to it that has an address |
| `Locator.ScanToUdp` | dds_analyze.py:85-97 | the loop up to its `break` stops at the first kind "1" element, holding the tokens of the latest addressed element up to it, or runs to the end |
| `Locator.DecideUdp` | dds_analyze.py:94-97 | the kind "1" branch raises `UnboundLocalError` when no address came before it; it raises `ValueError` iff some token is not hexadecimal; otherwise it keeps the tokens and gives the dotted decimal of the tokens' values |
| `Locator.UdpAddressMeaning` | dds_analyze.py:94-97 | the same three outcomes, stated of the specification function the branch is proved against |
| `Locator.UnicastIgnoresLaterElements` | dds_analyze.py:97 | because of the `break`, elements after the first kind "1" element change nothing |
| `Locator.UnicastWithoutUdpKeepsIp` | dds_analyze.py:84-99 | a locator list without a kind "1" element leaves `ip_str` as it was |
| `Locator.LastAddressedMeaning` | dds_analyze.py:138-141 | the element chosen is the last one with an address; none is chosen only when no element has an address |
| `Locator.ScanMulticast` | dds_analyze.py:137-145 | the multicast loop leaves the value its specification function gives |
| `Locator.MulticastFailsAt` | dds_analyze.py:144 | one address anywhere with a non-hex token makes the whole multicast scan raise |
| `Locator.LatestDecodedIsLastAddressed` | dds_analyze.py:138-145 | when every address decodes, the result is the decoding of the last address, with no kind check |
| `Locator.DottedRoundTrip` | dds_analyze.py:96 | splitting the dotted output on `.` gives back one decimal numeral per value |
| `Locator.TokensOfJoin` | dds_analyze.py:88-89 | the last four tokens of a comma-joined address are the last four parts it was joined from |
| `Locator.EncodedAddressDecodes` | dds_analyze.py:86-96 | an address ending in the hex numerals of four values decodes to those values in dotted decimal |
| `Locator.HexTokensDecode` | dds_analyze.py:95 | `int(t, 16)` of the hex numeral of each value gives the values back |
| `LocatorExample.UdpV4Example` | dds_analyze.py:84-97 | a kind "1" locator whose address ends in `c0,a8,00,01` gives the device address `192.168.0.1` |
| `Records.Label` | dds_analyze.py:196-198 | a participant is shown by its name, or by its key when it has no name |
| `Records.ParseParticipant` | dds_analyze.py:46-102 | the child loop computes the fields its specification function gives, or raises as the source does |
| `Records.ParticipantFailureSticks` | dds_analyze.py:95 | once a child raises, later children change nothing |
| `Records.KeyIsLastKeyChild` | dds_analyze.py:57-58 | the key is unset iff no `key` child exists, and otherwise is the `value` text of the last `key` child |
| `Records.KeyChildrenHaveValues` | dds_analyze.py:57-58 | when the participant decodes, every `key` child has a `value` element |
| `Records.KeyWithoutValueRaises` | dds_analyze.py:58 | a `key` child without a `value` element makes the participant raise |
| `Records.LastKeyMeaning` | dds_analyze.py:57-58 | the key specification picks the last `key` child, and nothing when there is none |
| `Records.NameIsLastNameChild` | dds_analyze.py:60-82 | the name is unset iff no child sets it, and otherwise comes from the last `participant_name` or named `property` child |
| `Records.LastNameMeaning` | dds_analyze.py:60-82 | the name specification picks the last child that sets a name, and nothing when there is none |
| `Records.PropertiesKeepName` | dds_analyze.py:68-79 | the property elements change neither the name, the key nor the unicast locals |
| `Records.HostnameIsLastHostnameProperty` | dds_analyze.py:68-76 | with complete elements, the hostname is the value of the last hostname property, or stays as it was when there is none |
| `Records.HostnameTakesEarlierValue` | dds_analyze.py:69-76 | a hostname element with no `value` picks up the value of the element before it |
| `Records.FilepathIsLastFilepathProperty` | dds_analyze.py:68-79 | with complete elements, the executable path is the value of the last filepath property, or stays as it was when there is none |
| `Records.NoUdpNoAddress` | dds_analyze.py:84-99 | with no kind "1" locator, `ip_str` stays unbound and decoding the participant raises |
| `Records.LaterChildrenKeepAddress` | dds_analyze.py:84-99 | in a participant that decodes, children after the last unicast locator list do not change the address |
| `Records.ParticipantAddress` | dds_analyze.py:84-99 | the address comes from the last unicast locator list, decoded at its first kind "1" element |
| `Records.DecodeDeadline` | dds_analyze.py:127-133 | the deadline is the infinite marker iff either field is its sentinel; it raises iff neither is a sentinel and one is not a decimal numeral |
| `Records.DeadlineRoundTrip` | dds_analyze.py:133 | printed seconds and nanoseconds decode to the same finite period |
| `Records.DeadlineExample` | dds_analyze.py:133 | `5` s and `500000000` ns decode to a finite deadline of 5.5 seconds |
| `Records.ParseEndpoint` | dds_analyze.py:105-149 | the child loop computes the fields its specification function gives, or raises as the source does |
| `Records.EndpointFailureSticks` | dds_analyze.py:133 | once a child raises, later children change nothing |
| `Records.EndpointChildrenReadable` | dds_analyze.py:125-129 | when the endpoint decodes, every `reliability` child has a `kind` and every `deadline` child has both `period/sec` and `period/nanosec` |
| `Records.UnreadableChildRaises` | dds_analyze.py:125-129 | a `reliability` child without `kind`, or a `deadline` child missing a period field, makes the endpoint raise |
| `Records.LastSetMeaning` | dds_analyze.py:116-145 | a field is its initial value when no child sets it, and otherwise the value set by the last child that sets it |
| `Records.EndpointFieldsAreLast` | dds_analyze.py:107-145 | topic, type, size, reliability, deadline, filter and multicast address of a decoded endpoint are each the value set by the last child that sets that field, or the initial value |
| `Records.EndpointStepSets` | dds_analyze.py:116-145 | one child sets exactly the fields its tag names and keeps the others |
| `Topology.Domain.constructor` | dds_analyze.py:33-37 | a new domain has its id and no participants or endpoints |
| `Topology.Domain.File` | dds_analyze.py:528-541 | the domain's new contents are the old ones plus the participant, its writers, then its readers, as far as decoding got |
| `Topology.Domain.FileBlocks` | dds_analyze.py:533-541 | one endpoint loop appends one endpoint per block, in order, up to the first block that raises |
| `Topology.Snapshot.DomainFor` | dds_analyze.py:523-526 | the domain of an id is looked up, or created and filed under its id; other domains are untouched |
| `Topology.Snapshot.FileOne` | dds_analyze.py:519-541 | one record changes only its own domain's entry, as the specification function gives |
| `Topology.Snapshot.ProcessFile` | dds_analyze.py:511-541 | the `domains` dictionary ends as the fold of all records gives, stopping at the first exception |
| `Topology.BlocksDecoded` | dds_analyze.py:533-541 | the endpoint loop passes iff every block decodes, and then yields one endpoint per block in order |
| `Topology.FiledInOrder` | dds_analyze.py:531-541 | a record appends its participant once, then its writers, then its readers, all owned by that participant |
| `Topology.DomainsCreated` | dds_analyze.py:521-526 | existing domains are kept; a domain is created only for a record's domain id, and for all of them when no record raises |
| `Topology.OneParticipantPerRecord` | dds_analyze.py:531 | each domain holds one participant per record of that domain id |
| `Topology.MissingChildrenRaise` | dds_analyze.py:519-529 | a record with no `domain_id` raises before any domain is touched; one with no `participant_data` raises after its domain is looked up or created |
| `Tables.Tables.Extract` | dds_analyze.py:153-264 | `devices` gets one write per participant, and the tables end as the fold over the endpoints gives, stopping where `int()` raises |
| `Tables.Tables.Add` | dds_analyze.py:164-264 | one endpoint updates every table as one step of the fold |
| `Tables.Tables.Classify` | dds_analyze.py:165-185 | the if/elif chain files the topic in the one reliability dictionary its kind and reliability select |
| `Tables.Tables.CountDevice` | dds_analyze.py:192-210 | the device table cell of (ip, label, topic, kind) goes up by one and the cells are created on demand |
| `Tables.Tables.FileTopic` | dds_analyze.py:222-257 | the topic entry is created on first sight and updated as the specification function gives |
| `Tables.BuildFailureSticks` | dds_analyze.py:263-264 | once `int()` raises on a size, later endpoints change nothing |
| `TableFacts.BuildPasses` | dds_analyze.py:263-264 | `extract_tables` completes iff every reported size is a decimal numeral |
| `TableFacts.TypesAreMaxima` | dds_analyze.py:259-264 | a type is in the table iff some endpoint has it; its entry bounds every size reported for it and is 0 or one of them |
| `TableFacts.SizeTypeAt` | dds_analyze.py:259-264 | one endpoint seeds its type with 0, never lowers it, and raises it to a reported size |
| `TableFacts.SizesOnlyRise` | dds_analyze.py:263-264 | a type's entry never goes down, and an unreported size leaves it unchanged |
| `TableFacts.TopicCounts` | dds_analyze.py:222-235 | a topic is in the table iff some endpoint has it; its writer and reader numbers count the endpoints of each kind on it |
| `TableFacts.SidesCoverTopic` | dds_analyze.py:235 | the writers plus the readers on a topic are all the endpoints on it |
| `TableFacts.TopicLevels` | dds_analyze.py:225-237 | a side of a topic is RELIABLE iff some endpoint of that kind on it reports RELIABLE_RELIABILITY_QOS |
| `TableFacts.LevelsOnlyRise` | dds_analyze.py:236-237 | a RELIABLE side is never downgraded |
| `TableFacts.TopicTypeFirstSeen` | dds_analyze.py:222-224 | a topic's type is the type of the first endpoint on it |
| `TableFacts.TopicHosts` | dds_analyze.py:248-251 | a topic's devices are the addresses of its endpoints, each with the hostnames seen there |
| `TableFacts.TopicParticipants` | dds_analyze.py:253-257 | a topic's participant keys are the keys of its endpoints' participants |
| `TableFacts.ReaderLists` | dds_analyze.py:238-246 | a topic's multicast and filter lists are its readers' multicast addresses and filters, in order |
| `TableFacts.ReliabilitySets` | dds_analyze.py:165-185 | each reliability dictionary holds exactly the non-empty topics with an endpoint of its kind and reliability |
| `TableFacts.DeviceCounters` | dds_analyze.py:192-210 | each (ip, label, topic, kind) counter counts the endpoints in that cell |
| `TableFacts.DeviceCountersTotal` | dds_analyze.py:192-210 | the writer and reader counters of the device table add up to the number of endpoints |
| `TableFacts.CellsAreOccupied` | dds_analyze.py:192-210 | a device, participant and topic cell exists only where some endpoint falls |
| `TableFacts.DeviceEntries` | dds_analyze.py:192-193 | a device is in the table iff an endpoint is on it, and it is named by the first such endpoint's hostname |
| `TableFacts.DevicesLastWrite` | dds_analyze.py:160-161 | `devices[ip]` is the hostname of the last participant on that address |
| `TableFacts.PassesInAnyOrder` | dds_analyze.py:164-264 | whether the run raises does not depend on endpoint order |
| `TableFacts.TypesIgnoreOrder` | dds_analyze.py:259-264 | the type table does not depend on endpoint order |
| `TableFacts.TopicCountsIgnoreOrder` | dds_analyze.py:222-237 | topic membership, counts and reliability do not depend on endpoint order |
| `TableFacts.TopicMembersIgnoreOrder` | dds_analyze.py:248-257 | a topic's devices and participants do not depend on endpoint order |
| `TableFacts.ReliabilitySetsIgnoreOrder` | dds_analyze.py:165-185 | the four reliability dictionaries do not depend on endpoint order |
| `TableFacts.DeviceCountersIgnoreOrder` | dds_analyze.py:192-210 | the device counters do not depend on endpoint order |
| `TableFacts.TopicTypeDependsOnOrder` | dds_analyze.py:222-224 | two endpoints on one topic with different types give different topic types in the two orders |
| `Analysis.ParticipantsListed` | dds_analyze.py:308 | the participant sheet lists every participant once, ordered by address |
| `Analysis.EndpointsListed` | dds_analyze.py:319 | the endpoint sheet lists every endpoint once, ordered by (topic, ip, key, kind) |
| `Analysis.KeyLeTotal` | dds_analyze.py:319 | the tuple key order is total |
| `Analysis.KeyLeTransitive` | dds_analyze.py:319 | the tuple key order is transitive |
| `Analysis.TopicsListed` | dds_analyze.py:333 | the rows are a permutation of the topic table's items: every topic once, each with its own reader count, ordered by descending reader count and then by name |
| `Analysis.TopicSheet` | dds_analyze.py:333 | over the tables `extract_tables` builds, the sheet has a row for each endpoint's topic, no other topic, and each row's reader count is the number of readers on that topic |
| `Analysis.CombinedLevelMeaning` | dds_analyze.py:336 | the exported reliability is RELIABLE iff both a writer and a reader on the topic report RELIABLE_RELIABILITY_QOS |
| `Analysis.HasCounterpart` | dds_analyze.py:365-371 | the inner loop finds a match iff an endpoint of the opposite kind shares the topic |
| `Analysis.Noted` | dds_analyze.py:374-380 | noting a label creates the topic's list if needed, appends the label and leaves other topics alone |
| `Analysis.FindOrphans` | dds_analyze.py:355-380 | the two dictionaries list, per topic, the label of every endpoint with no counterpart, in endpoint order |
| `Analysis.OrphanMapMeaning` | dds_analyze.py:357-380 | a topic is a key iff an endpoint of that kind on it has no counterpart, and it maps to those endpoints' labels |
| `Analysis.OrphanLabelsEmpty` | dds_analyze.py:372-380 | a topic with no orphan endpoint gets no labels |
| `Analysis.MismatchedTopics` | dds_analyze.py:383-388 | a topic is flagged iff it has a reliable writer and a best-effort reader and no reliable reader |
| `Analysis.MismatchMeaning` | dds_analyze.py:383-388 | the same condition stated over the endpoints themselves |
| `Analysis.AdjacentTypes` | dds_analyze.py:395-403 | the adjacent-pair loop builds the map its specification function gives |
| `Analysis.ScanMeaning` | dds_analyze.py:392-403 | on topic-contiguous input a topic is flagged iff its endpoints have two or more type names, and its set then holds all of them |
| `Analysis.SortedIsContiguous` | dds_analyze.py:393 | sorting by topic makes each topic's endpoints contiguous |
| `Analysis.TopicTypeNamesIgnoreOrder` | dds_analyze.py:393 | a topic's type names do not depend on endpoint order |
| `Analysis.MultipleTypes` | dds_analyze.py:392-403 | the result raises iff two or more endpoints include one with no topic; otherwise it maps each topic with several types to all its types |
| `Analysis.ReadersAndWriters` | dds_analyze.py:413-416 | the readers count plus the writers count is the number of endpoints |
| `Analysis.TopicNamesAreTableKeys` | dds_analyze.py:409-411 | the distinct non-empty topic names are the truthy keys of the topic table |
| `Analysis.TypeCountIsDistinctTypes` | dds_analyze.py:408 | the type table's keys are the distinct type names of the endpoints |
| `Analysis.TotalsMeaning` | dds_analyze.py:406-416 | the six totals count devices, participants, types, topics, readers and writers |
| `Groups.GroupKeys` | dds_analyze_v3.py:124 | the group keys are the present keys, each once, in ascending order |
| `Groups.Group` | dds_analyze_v3.py:124 | a group holds exactly the rows with its key, in frame order |
| `Groups.Concat` | dds_analyze_v3.py:128 | `concat` holds exactly the rows of its frames |
| `Frames.Frames.AddRecord` | dds_analyze_v3.py:188-205 | one record appends the rows its specification function gives to the two frames |
| `Frames.Frames.ProcessFile` | dds_analyze_v3.py:179-205 | the frames end as the fold over all records gives, stopping at the first exception |
| `Frames.RecordRows` | dds_analyze_v3.py:193-205 | a record appends one participant row, then one writer row per publication and one reader row per subscription; each carries the participant's name in `participant_key` |
| `Frames.FileRowCounts` | dds_analyze_v3.py:188-205 | the frames grow by one participant row per record and one endpoint row per block |
| `Frames.BlockRowsAreOwned` | dds_analyze_v3.py:197-205 | every endpoint row of a block list has the record's domain, the block's kind and the owner column passed in |
| `Frames.BlocksAgree` | dds_analyze_v3.py:62-103 | the row decoder raises exactly when the object decoder does, and gives the same fields |
| `Frames.RecordAgrees` | dds_analyze_v3.py:188-205 | both scripts raise alike on a record; one without `domain_id` adds nothing to either, and otherwise the v3 rows are the rows of the participant and endpoints the object `ProcessFile` files |
| `Frames.DomainRowsAgree` | dds_analyze_v3.py:190-205 | for a record naming its domain, the v3 rows are the rows of what `Domain` receives, and the outcome is the same |
| `FrameTests.ExcessFails` | dds_analyze_v3.py:109-115 | the test raises `KeyError` iff the frame lacks writers or lacks readers |
| `FrameTests.ExcessKeeps` | dds_analyze_v3.py:111-116 | the `left_only` rows are exactly the rows of one kind whose topic no row of the other kind has, each as often as in the frame |
| `FrameTests.CollectGroups` | dds_analyze_v3.py:123-128 | the group loop appends the groups that pass, and `concat` raises when there are none |
| `FrameTests.SelectedMeaning` | dds_analyze_v3.py:121-128 | the result raises iff no group passes, and otherwise holds exactly the rows of passing groups |
| `FrameTests.InconsistentTypeNames` | dds_analyze_v3.py:121-128 | it keeps the topic groups whose distinct type name count is not 1 |
| `FrameTests.InconsistentMeaning` | dds_analyze_v3.py:125 | a topic group qualifies iff two of its rows differ in type name |
| `FrameTests.DisagreeIffInconsistent` | dds_analyze_v3.py:125 | a non-empty group has other than one type name iff two of its rows disagree |
| `FrameTests.PotentialMulticastReaders` | dds_analyze_v3.py:132-142 | it keeps the reader groups in which no reader has a filter and there are more than two readers |
| `FrameTests.MulticastMeaning` | dds_analyze_v3.py:137-140 | a reader group qualifies iff no reader on the topic has a filter and at least three readers are on it |
| `FrameTests.ReliableWriterBesteffortReaders` | dds_analyze_v3.py:146-162 | it builds the list its specification function gives, and raises when the list is empty |
| `FrameTests.CollectMismatches` | dds_analyze_v3.py:149-160 | the loop over topic groups appends each group as often as its row scan says |
| `FrameTests.ScanAndAppend` | dds_analyze_v3.py:151-160 | one group is appended once per best-effort reader after the found flag is set |
| `FrameTests.ScanGroupMeaning` | dds_analyze_v3.py:151-160 | the flag is set iff the group has a reliable writer; a group is appended iff a best-effort reader follows a reliable writer |
| `FrameTests.MismatchDependsOnOrder` | dds_analyze_v3.py:153-160 | a reliable writer then a best-effort reader is one append; the other order is none |
| `FrameTests.MismatchIgnoresReliableReaders` | dds_analyze_v3.py:153-160 | a reliable reader between them does not prevent the append |
| `FrameTests.MismatchesMembers` | dds_analyze_v3.py:149-160 | a group is in the list iff it has at least one append |
| `FrameTests.MismatchReport` | dds_analyze_v3.py:146-162 | the test raises iff no topic has a best-effort reader after a reliable writer, and otherwise holds exactly the rows of such topics |
| `FrameTests.MismatchAsSelected` | dds_analyze_v3.py:148-162 | apart from repetitions, the result holds the same rows as keeping the qualifying groups once each |
| `DeviceTable.DeviceIpsOrdered` | dds_analyze_v3.py:168 | the `device_ip` group keys are distinct and ascending |
| `DeviceTable.DeviceIps` | dds_analyze_v3.py:168 | the group keys are exactly the participants' addresses |
| `DeviceTable.NewRow` | dds_analyze_v3.py:169-173 | `new_row` is the group's address with its first row's device name |
| `DeviceTable.FirstOfGroup` | dds_analyze_v3.py:169 | the first row of a group is the first participant row on that address |
| `DeviceTable.ScanDevices` | dds_analyze_v3.py:168-173 | after the loop, `new_row` holds only the last group's row, and nothing when there are no groups |
| `DeviceTable.GetDevices` | dds_analyze_v3.py:166-175 | as written: it raises iff there are no participant rows, and otherwise appends exactly one row, the last group's |
| `DeviceTable.GetDevicesDropsDevices` | dds_analyze_v3.py:168-175 | two participants on two addresses yield one row, so one device is missing |
| `DeviceTable.GetAllDevices` | dds_analyze_v3.py:166-175 | corrected: one row per group is appended |
| `DeviceTable.AppendDevices` | dds_analyze_v3.py:168-175 | the corrected loop appends one row per group key, in order |
| `DeviceTable.AllDevicesCover` | dds_analyze_v3.py:168-175 | corrected: the appended rows cover exactly the participants' addresses |
| `DeviceTable.AllDevicesOrdered` | dds_analyze_v3.py:168 | corrected: the rows have distinct addresses in ascending order |
| `DeviceTable.AllDevicesFirst` | dds_analyze_v3.py:169-173 | corrected: each row's name is that of the first participant row on its address |

## Left out

- XML parsing with ElementTree, `argparse`, and opening the file:
  - the model starts from already-parsed records, one datatype per child tag
    the decoders read;
  - a child the decoders reach with `find(...)` is `None` when absent, and
    reading its `.text` then raises (`Fault.MissingChild`); a missing
    `participant_data` raises when the decoder iterates it
    (`Fault.NoParticipantData`);
  - the text of a present element is a string. The model does not tell apart
    an element whose `.text` is `None` from one with text.
- Spreadsheet and CSV output: worksheets, tables, column widths, bold cells,
  `to_csv`, `wb.save`, and the analysis sheet's wording.
  - The numbers and lists the sheets show are modelled.
  - Which cell each one lands in is not.
- `int()` leniency (whitespace, signs, `0x` prefixes, underscores):
  - tokens and sizes are plain digit strings;
  - anything else raises.
- Floating point:
  - a finite deadline is kept as the exact pair (seconds, nanoseconds), with
    its exact real value;
  - float rounding of `int(sec) + int(nanosec) / 1000000000` is not modelled.
- Python's `sorted` on keys holding `None`:
  - `Analysis.ParticipantsListed`, `Analysis.EndpointsListed` and
    `Analysis.TopicsListed` order `None` before every string;
  - Python raises `TypeError` when it has to compare `None` with a string
    there;
  - the type scan's sort does raise in the model (`Analysis.MultipleTypes`).
- The participant objects stored in `topics_table[t]["participants"][key]`:
  - only the set of keys is modelled, which is all that is read (its `len`).
- The four reliability dictionaries are sets. Their insertion order is only
  iterated into a list of flagged topics, and the model states that list's
  membership.
- pandas internals:
  - `groupby` is a partition by key, in ascending key order, dropping rows
    whose key is missing;
  - `merge` with `indicator` is a matched/unmatched filter on the topic,
    where two missing topics match each other;
  - `concat` is concatenation;
  - merge output columns (the `_x`/`_y` suffixes) and row order after a merge
    are not modelled; `FrameTests.ExcessKeeps` states the kept rows as a
    multiset.
- FrameTests.MismatchAsSelected: states that the mismatch list holds the
  same rows as the qualifying groups, but not how often each repeats. The
  exact repetition is stated by `FrameTests.CollectMismatches` with
  `FrameTests.ScanAndAppend`.
- The module-level `participants` and `endpoints` dictionaries of
  `dds_analyze.py`: they are declared and never written.
- `dds_capture.py`: live discovery listeners, polling with `time.sleep`, and
  CSV writing. Its writer/reader pairing is made inside the live DDS
  callbacks.
- `rtispy.py`: a terminal user interface with asyncio tasks over the
  `rti.connextdds` library.
- LocatorExample.UdpV4Example: states the example for any address whose
  last four tokens are `c0,a8,00,01`, not for one concrete sixteen-byte
  address text.

## Findings

| source | as written | input that shows it | evidently intended | confidence | as-written member | corrected member |
|---|---|---|---|---|---|---|
| dds_analyze_v3.py:168-175 | `pd.concat` and the `new_row` it appends sit after the `groupby` loop, so only the last `device_ip` group's row is appended; with no participant rows `new_row` is never bound and the call raises | two participant rows on addresses `10.0.0.1` and `10.0.0.2` give a devices frame with only the `10.0.0.2` row | one row per `device_ip` group, holding that group's first device name | high, not executed | `DeviceTable.GetDevices`, `DeviceTable.GetDevicesDropsDevices` | `DeviceTable.GetAllDevices`, `DeviceTable.AllDevicesCover`, `DeviceTable.AllDevicesOrdered`, `DeviceTable.AllDevicesFirst` |
