# wificond: a verified model

wificond is Android's Wi-Fi daemon. It talks to the kernel in nl80211 messages over netlink and to an offload HAL
over HIDL, and serves the framework over binder. This project models its protocol core in Dafny and proves what
that core promises:

- **the attribute and packet codec** (`AttributeFormat`, `AttributeTree`, `Nl80211Attribute`, `Nl80211Packet`,
  `WireLayout`): attributes edited in place in a byte vector, nested to any depth, read back by search and by list, and
  where every byte of them lies;
- **the split wiphy dump** (`SplitWiphyDump`, `WiphyInfo`, `SplitRefinement`, `WiphyMeaning`): fragments merged per
  wiphy and per attribute id and then parsed, the theorem that this means the same as parsing the unsplit packet, and
  what the answer says about the device;
- **the netlink engine** (`NetlinkManager`, `NetlinkRuns`, `NetlinkReach`): sequence numbers, pending handlers, the
  receive loop over an adversarial stream of datagrams, how far it gets, and the synchronous collect loop;
- **scans** (`PnoRequest`, `SchedScanRequest`, `SchedScanDecode`, `PnoOverNetlink`, `PnoMeaning`, `OffloadScanManager`,
  `ScannerImpl`, `ScannerMeaning`, `InfoElement`): pruning by capacity, scan-plan arithmetic, the request and what its
  reader finds in it network by network, and the failover state machine and what each of its events does;
- **handler registrations and parcels** (`Server`, `Parcelables`, `ParcelLayout`).

## How to read it

Code that changes state step by step is a class or a method with loops. Its `ensures` ties the new state to a function
of the old one (`Encode`, `Find`, `Slices`, `Joined`, `Processed`, `Received`, `Collected`, `Pruned`, `Step`, `Run` and
so on), and the lemmas are about these functions. Every lemma carries `{:induction false}`.

What these functions compute is stated a second time without naming them, by positions and with the numbers of the
protocol written out: `WiphyMeaning` for the answers about a device, `NetlinkReach` for the loops, `PnoMeaning` for what
is asked of the kernel and the HAL, `ScannerMeaning` for the events of the scanner, `WireLayout` and `ParcelLayout` for
the formats. `Filters` says what it is to pick elements out of a list, each once and in order.

- Bytes are `u8`; integers are unbounded, and every 16- or 32-bit store, every 32-bit product and every narrowing cast
  is written out as a remainder. Hosts are taken to be little-endian.
- What the kernel, the HAL and the clock do is an input: datagram contents and the outcome and duration of every poll
  (`Poll`), whether sending works, interface listings, and the answers of each HAL call (`Answers`). Nothing is assumed
  about them beyond the `requires` clauses listed under "Left out".
- The run of a handler on a packet is recorded in `deliveries`; AppendPacket also appends to the response vector.
  Requests to the kernel, calls to the HAL and notices to a subscriber are recorded in `requests`, `calls` and
  `notices`. These records stand for their effects.

## Promises that the code does not keep for every input

Each has a lemma with a concrete input that breaks it, and others that say exactly when it holds.

- The two backends of a PNO scan exclude each other. For the scanner's own two flags: `ScannerImpl.BothBackendsCanRun`
  breaks it; exactly when is `ScannerImpl.RunExclusion`, and what a caller can check is `ScannerImpl.SafeToStart` and
  `ScannerImpl.GuardedStartsExclude`. For the backends themselves, a netlink scan beside a subscription that the HAL
  acknowledged and whose end it did not: `ScannerImpl.RestartLeavesSubscription`,
  `ScannerImpl.LostUnsubscribeLeavesSubscription` and `ScannerImpl.FailoverLeavesSubscription` break it in runs that
  never set both flags; exactly when is `ScannerImpl.RunApart`, and what keeps it is
  `ScannerImpl.SafeToStartApart` and `ScannerImpl.CarefulRunsStayApart`.
- An offload scan falls back to netlink when the HAL fails: it does for failures that the HAL reports
  (`ScannerImpl.Failover`), but when the HAL dies during a scan the fallback calls it through the handle that was just
  dropped (`ScannerImpl.DeathDuringScanFaults`, `ScannerImpl.DeathIsNotSurvived`, `ScannerImpl.RunFaults`).
- Live interface objects have their handlers: `Server.RecreatingLosesHandlers` and `Server.SharedIndexTakesHandlers`;
  exactly when is `Server.RunServes`, for single objects `Server.CreateKeepsOther`, `Server.CreateServesNew` and
  `Server.TearDownKeepsOther`.
- Scan plans are used when the device supports them, and respect its limits: `PnoRequest.WrappedLimitHidesPlans` and
  `PnoRequest.WrappedIntervalExceedsLimit`; exactly when is `PnoRequest.SupportedPlansAreUsed`,
  `PnoRequest.PlansAreUsedWhenSupported` and `PnoRequest.FastPlanWithinLimit`.

## Model

| member | source | states |
|---|---|---|
| `SplitRefinement.SplitDumpRefinesUnsplitDump` | net/netlink_utils.cpp:284-311 | GetWiphyInfo returns the same result and writes the same bands, capabilities and features for a split dump as for the packet it was split from, with fragments of several wiphys interleaved |
| `SplitRefinement.DistributedDumpRefinesPacket` | net/netlink_utils.cpp:284-311 | the promise for a packet with distinct attribute ids: whole attributes and parts of the band list, cut at any band or frequency boundaries, go to any fragments, and GetWiphyInfo answers as for the packet |
| `SplitRefinement.SplitMayBeParsed` | net/netlink_utils.cpp:284-311 | the packets left after merging a split, and the unsplit packet, meet the demands of GetWiphyInfo, so the theorem is about what that method returns |
| `SplitRefinement.SplitKeepsMeaning` | net/netlink_utils.cpp:528-572 | the merged attributes have the meaning of the original ones: same payload for every id, and band lists with the same channels wherever bands were cut |
| `SplitRefinement.DistributionIsSplit` | net/netlink_utils.cpp:284-293 | any distribution of a packet's attributes with distinct ids, with the band list in parts over any number of fragments, is a split in the sense of the theorem |
| `SplitRefinement.EndToEndOfParts` | net/nl80211_attribute.cpp:94-125 | parts of a list, encoded one by one and merged end to end, are the encoding of the whole list |
| `SplitRefinement.JoinedIsEndToEnd` | net/netlink_utils.cpp:544-558 | what the merge holds for an id is its payloads end to end in order of arrival |
| `SplitRefinement.MeaningOfEncodedBands` | net/netlink_utils.cpp:388-457 | a band list and the same list cut at band or frequency boundaries give the same channels in the same order |
| `SplitRefinement.CutAtFrequency` | net/netlink_utils.cpp:404-421 | a band split at any of its frequencies into two entries gives pieces of that band |
| `SplitRefinement.CutFurther` | net/netlink_utils.cpp:404-421 | any entry of any cut may be cut further, so bands may be cut at any number of boundaries |
| `SplitRefinement.WholeIsCut` | net/netlink_utils.cpp:404-421 | an uncut band list is a cut of itself |
| `SplitRefinement.LookupInMerged` | net/netlink_utils.cpp:561-570 | reading a merged packet for an id finds the concatenation of all payloads of that id |
| `SplitRefinement.SelectedFromMerged` | net/netlink_utils.cpp:295-311 | of the merged packets, exactly the requested wiphy's is parsed |
| `SplitRefinement.SameParse` | net/netlink_utils.cpp:313-341 | packets whose attributes have the same meaning parse alike, including what a failing parse leaves behind |
| `SplitWiphyDump.MergePacketsForSplitWiphyDump` | net/netlink_utils.cpp:528-572 | succeeds exactly if every fragment is well formed and names its wiphy; then gains one packet per contributing wiphy, ascending, with the joined payloads in ascending order of id; otherwise the output is untouched |
| `SplitWiphyDump.CollectAttributes` | net/netlink_utils.cpp:531-559 | the map of maps holds exactly the in-order concatenation per wiphy and id |
| `SplitWiphyDump.AddAttributeToMap` | net/netlink_utils.cpp:544-558 | one attribute is dropped, inserted or merged, and the map still holds the concatenations |
| `SplitWiphyDump.BuildPacket` | net/netlink_utils.cpp:562-570 | the packet of one wiphy: its index, then its attributes in order of id |
| `SplitWiphyDump.HoldsDomain` | net/netlink_utils.cpp:531-559 | the keys of the maps are exactly the wiphys and ids that occurred |
| `SplitWiphyDump.AscendingIsSorted` | net/netlink_utils.cpp:562-568 | the order in which the maps are walked: every key once, strictly ascending |
| `WireLayout.PiecesAreSelected` | net/netlink_utils.cpp:544-558 | a fragment contributes all its attributes but those with the ids 1, 3 and 153, each once and in order |
| `WiphyInfo.GetWiphyInfo` | net/netlink_utils.cpp:278-311 | after the dump arrived: merge if split, then the first packet of the wanted wiphy that parses decides |
| `WiphyInfo.ParseWiphyInfoFromPacket` | net/netlink_utils.cpp:313-341 | the three parsers in order, with the outputs a failure leaves |
| `WiphyInfo.ParseBandInfo` | net/netlink_utils.cpp:388-457 | reads every frequency of every band, in order, into the 2.4 GHz, 5 GHz or DFS list; output untouched on failure |
| `WiphyInfo.AddFrequency` | net/netlink_utils.cpp:415-453 | one frequency: disabled ones are skipped, passive or DFS ones go to the DFS list, the others to the list of their band, by ReadsFrequency |
| `WiphyInfo.ParseScanCapabilities` | net/netlink_utils.cpp:343-386 | the six limits with their defaults; output untouched without the three mandatory ones |
| `WiphyInfo.SelectWiphyInfo` | net/netlink_utils.cpp:295-311 | the search among the packets left after merging |
| `WiphyMeaning.BandsMeanFrequencies` | net/netlink_utils.cpp:404-455 | the three lists are the frequencies of the entries, in order and with multiplicity: without DISABLED, between 2400 and 2500; between 5000 and 5850 without NO_IR and without an allowing DFS state; and between 5000 and 5850 with one of these |
| `WiphyMeaning.ListedFrequencies` | net/netlink_utils.cpp:404-455 | a value is in one of the lists exactly if some enabled entry holds it and falls into that class |
| `WiphyMeaning.ReadsFrequency` | net/netlink_utils.cpp:415-453 | which class one encoded frequency entry falls into |
| `WiphyMeaning.LimitsMeanAttributes` | net/netlink_utils.cpp:343-386 | which attribute, by number and width, fills which of the six limits |
| `WiphyMeaning.FeaturesMeanBits` | net/netlink_utils.cpp:53-87 | which bit of the feature flags and of the extended feature bytes decides each feature, none when a byte is missing |
| `WiphyMeaning.ParseReadsAll` | net/netlink_utils.cpp:313-341 | a packet parses exactly if it is a NEW_WIPHY with bands, the mandatory limits and features, and the answer is all of them |
| `WiphyMeaning.FirstCompleteAnswers` | net/netlink_utils.cpp:295-311 | the answer is that of the first complete packet of the wanted wiphy, and there is none exactly without such a packet |
| `Nl80211Attribute.NL80211Attr.GetAttributeImpl` | net/nl80211_attribute.cpp:67-91 | terminates if no header before the first match has length zero, and finds the first attribute with the id in the list view, whatever follows it |
| `Nl80211Attribute.NL80211Attr.Merge` | net/nl80211_attribute.cpp:94-125 | succeeds exactly for a valid attribute of the same id; the payload is then the concatenation with fresh padding, whatever padding came in; otherwise nothing changes |
| `Nl80211Attribute.MergeIsValid` | net/nl80211_attribute.cpp:55-61 | a merge is a valid attribute exactly if the joint length fits 16 bits, and then decodes to the concatenation |
| `Nl80211Attribute.MergeAssociative` | net/nl80211_attribute.cpp:94-125 | merging is associative byte for byte |
| `Nl80211Attribute.MergeConcatenatesChildren` | net/nl80211_attribute.cpp:94-125 | on nested attributes with aligned payloads the list of children of a merge is the concatenation of the lists |
| `Nl80211Attribute.SlicesOfConcat` | net/nl80211_attribute.cpp:226-247 | the list view of two lists end to end is the concatenation of their views |
| `Nl80211Attribute.NL80211Attr.InitHeaderAndResize` | net/nl80211_attribute.cpp:42-48 | an attribute with a zero payload of the given length |
| `Nl80211Attribute.NL80211Attr.Raw` | net/nl80211_attribute.cpp:35-40 | the encoding of the id and bytes |
| `Nl80211Attribute.NL80211Attr.Integral` | net/nl80211_attribute.h:67-74 | the encoding of the id and the integer in its width |
| `Nl80211Attribute.NL80211Attr.String` | net/nl80211_attribute.cpp:145-153 | the encoding of the string and one terminating zero |
| `Nl80211Attribute.StringRoundTrip` | net/nl80211_attribute.cpp:145-169 | a string reads back as itself exactly if it does not end in a zero |
| `Nl80211Attribute.NL80211Attr.GetStringValue` | net/nl80211_attribute.cpp:159-169 | the payload without its trailing zeros |
| `WireLayout.TrimmedString` | net/nl80211_attribute.cpp:159-169 | exactly the zeros at the end are cut off |
| `Nl80211Attribute.NL80211Attr.AddAttribute` | net/nl80211_attribute.cpp:180-188 | appends the child and grows the recorded length |
| `Nl80211Attribute.NL80211Attr.AddFlagAttribute` | net/nl80211_attribute.cpp:190-200 | appends an attribute without payload |
| `Nl80211Attribute.AppendChild` | net/nl80211_attribute.cpp:180-188 | appending a child to an encoded nested attribute encodes the longer list, even when the length wraps |
| `Nl80211Attribute.NL80211Attr.HasAttribute` | net/nl80211_attribute.cpp:202-206 | whether a search finds the id, which is whether the list view has it unless the match has length zero |
| `Nl80211Attribute.NL80211Attr.GetAttribute` | net/nl80211_attribute.cpp:208-224 | copies the first child with the id, and nothing nested deeper; untouched without a match, emptied by one of length zero |
| `Nl80211Attribute.NL80211Attr.GetUIntValue` | net/nl80211_attribute.h:157-170 | a typed read succeeds exactly if the first attribute with the id has that integer's size |
| `Nl80211Attribute.NL80211Attr.GetListOfNestedAttributes` | net/nl80211_attribute.cpp:226-247 | all children in order, exactly if the list is well formed to its end; output untouched otherwise |
| `Nl80211Attribute.NL80211Attr.GetListOfBytesValues` | net/nl80211_attribute.h:180-202 | all payloads in order, exactly if the list is well formed; output untouched otherwise |
| `Nl80211Attribute.NL80211Attr.GetListOfUIntValues` | net/nl80211_attribute.h:180-202 | all integers in order, exactly if the list is well formed and every child has the integer's size |
| `AttributeFormat.EncodeRoundTrip` | net/nl80211_attribute.cpp:35-61 | an encoded attribute is valid exactly if its length did not wrap, and then decodes to itself |
| `AttributeFormat.EncodeAllRoundTrip` | net/nl80211_packet.cpp:172-237 | a list of attributes reads back as the same ids and payloads in order |
| `AttributeFormat.FindInEncoded` | net/nl80211_attribute.cpp:67-91 | search by id in encoded attributes is lookup of the first one in the list |
| `AttributeFormat.FoundIsFirst` | net/nl80211_attribute.cpp:67-91 | on any buffer, what the search delivers is the first attribute with the id in the list view, or no bytes at all for a match of length zero |
| `AttributeFormat.FindUIntInEncoded` | net/nl80211_attribute.h:86-104 | a typed read succeeds exactly for the payload's own width, and gives its value |
| `AttributeFormat.FindIsValid` | net/nl80211_attribute.cpp:67-91 | whatever the buffer, a found attribute is valid and has the id searched for |
| `AttributeFormat.SlicesAreValid` | net/nl80211_attribute.cpp:226-247 | every entry of the list view is a valid attribute |
| `AttributeTree.TreeRoundTrip` | net/nl80211_attribute.cpp:180-247 | whatever its depth, an encoded attribute tree reads back as itself |
| `AttributeTree.ReadingIsUnique` | net/nl80211_attribute.cpp:226-247 | a buffer reads as at most one tree of a given shape |
| `WireLayout.ByteOfInteger` | net/nl80211_attribute.h:67-104 | byte i of a stored integer is its i-th digit to the base 256, least significant first |
| `WireLayout.AttributeBytes` | net/nl80211_attribute.cpp:35-61 | the bytes of an attribute: length without padding, type, payload, zeros up to a multiple of four |
| `Nl80211Packet.PacketRoundTrip` | net/nl80211_packet.cpp:61-97 | a packet that fits is valid, its length field is its size, and header and attributes read back |
| `Nl80211Packet.EncodedPacketIsValid` | net/nl80211_packet.cpp:61-97 | any encoded packet whose size fits 32 bits passes IsValid and its header fields read back |
| `Nl80211Packet.AppendToPacket` | net/nl80211_packet.cpp:172-180 | appending to an encoded packet encodes the longer packet |
| `Nl80211Packet.NL80211Packet.constructor` | net/nl80211_packet.cpp:38-59 | the encoding of an empty packet with the request flag |
| `Nl80211Packet.NL80211Packet.AddFlag` | net/nl80211_packet.cpp:147-150 | the bits of the flag are set, bits that were set stay set, and length, type, sequence and everything behind the header are unchanged |
| `Bytes.OrSetsBits` | net/nl80211_packet.cpp:147-150 | the bits of both operands are set in their bitwise or |
| `Nl80211Packet.NL80211Packet.AddAttribute` | net/nl80211_packet.cpp:172-180 | appends the attribute and grows the length field |
| `Nl80211Packet.NL80211Packet.AddFlagAttribute` | net/nl80211_packet.cpp:182-192 | appends an attribute without payload and grows the length field |
| `Nl80211Packet.NL80211Packet.GetAllAttributes` | net/nl80211_packet.cpp:220-237 | appends a copy of every attribute; on failure those before the first broken one |
| `Nl80211Packet.AttrListOfEncoded` | net/nl80211_packet.cpp:220-237 | for a packet built from attributes these are the attributes |
| `Nl80211Packet.NL80211Packet.HasAttribute` | net/nl80211_packet.cpp:194-199 | whether a search finds the id, which is whether the list view has it unless the match has length zero |
| `Nl80211Packet.NL80211Packet.GetAttribute` | net/nl80211_packet.cpp:201-218 | copies the first attribute with the id; untouched without a match, emptied by one of length zero |
| `Nl80211Packet.NL80211Packet.GetUIntValue` | net/nl80211_packet.h:124-156 | a typed read succeeds exactly if the first attribute with the id has that integer's size |
| `Nl80211Packet.NL80211Packet.GetBytesValue` | net/nl80211_packet.h:124-156 | the payload of the first attribute with the id |
| `WireLayout.PacketBytes` | net/nl80211_packet.cpp:38-59 | the bytes of a packet: length, type, flags, sequence number and port, command, version 1, attributes |
| `WireLayout.MergedPacketBytes` | net/netlink_utils.cpp:561-570 | a merged packet is a NEW_WIPHY command without family, sequence number or port |
| `WireLayout.ValidPackets` | net/nl80211_packet.cpp:61-97 | any bytes are a valid packet exactly if the length field covers the headers that the type asks for and no more than there is |
| `WireLayout.CutPacketIsInvalid` | net/nl80211_packet.cpp:61-97 | no proper prefix of an encoded packet is valid |
| `WireLayout.DumpFlags` | net/nl80211_packet.cpp:99-101 | a dump is told by bit 8 or bit 9 of the flags |
| `NetlinkManager.SequenceNumbersCollide` | net/netlink_manager.cpp:88-93 | no number is the broadcast number, and two calls agree exactly if a multiple of 2^32-1 calls lies between them |
| `NetlinkManager.SequenceNumbersAreDistinct` | net/netlink_manager.cpp:88-93 | two requests share no number if fewer than 2^32-1 calls lie between them |
| `NetlinkManager.NetlinkManager.GetSequenceNumber` | net/netlink_manager.cpp:88-93 | the next number, across the wrap |
| `NetlinkManager.NetlinkManager.ReceivePacketAndRunHandler` | net/netlink_manager.cpp:95-167 | one datagram: broadcasts go to the broadcast handler, replies to their handler; an unknown number, a terminator or an invalid message ends the datagram |
| `NetlinkManager.NetlinkManager.RegisterHandlerAndSendMessage` | net/netlink_manager.cpp:262-274 | refuses dumps; installs the handler exactly if the message was sent |
| `NetlinkManager.NetlinkManager.SendMessageAndGetResponses` | net/netlink_manager.cpp:276-323 | the collect loop over polls with a budget of 300 ms; what it returns is the vector that AppendPacket extended |
| `NetlinkManager.NetlinkManager.SendMessageAndGetSingleResponseOrError` | net/netlink_manager.cpp:343-357 | exactly one reply, or failure |
| `NetlinkManager.NetlinkManager.SendMessageAndGetAckOrError` | net/netlink_manager.cpp:359-373 | succeeds exactly for one reply of type 2 that holds a code, and reports the code whose negation its bytes are |
| `NetlinkManager.NetlinkManager.SendMessageAndGetAck` | net/netlink_manager.cpp:375-386 | true exactly for one reply of type 2 whose four bytes behind the netlink header are zero |
| `NetlinkManager.RepliesAreValid` | net/netlink_manager.cpp:109-167 | only packets that pass IsValid reach the response |
| `NetlinkManager.ErrorCodeReads` | net/nl80211_packet.cpp:133-135 | of an encoded error message whose code field is the 32-bit two's complement of -e, the code e is read |
| `NetlinkManager.ErrorIsReported` | net/nl80211_packet.cpp:133-135 | of any packet, the code read is the one whose negation the four bytes behind the netlink header hold |
| `NetlinkManager.ReportedOnce` | net/nl80211_packet.cpp:133-135 | there is only one such code |
| `NetlinkManager.ReportedZero` | net/netlink_manager.cpp:375-386 | it is zero exactly if the four bytes are |
| `NetlinkRuns.RunDelivers` | net/netlink_manager.cpp:95-167 | over any run of datagrams the handler installed for a number, and no other, is run on its own processed messages in order, through the first non-multipart one or up to the first terminator, and never after |
| `NetlinkRuns.EventsDeliver` | net/netlink_manager.cpp:95-323 | over any run of datagrams, registrations and synchronous requests, the handler of a number is run on exactly its reply out of all messages looked at meanwhile, and never after, until something is installed for that number again |
| `NetlinkRuns.RequestDeliversOthers` | net/netlink_manager.cpp:276-323 | while a synchronous request waits, the pending handlers of other numbers are served as by the receive loop |
| `NetlinkRuns.RunReadsAll` | net/netlink_manager.cpp:109-167 | over any run all messages of a number are looked at exactly if none stands, in its datagram, behind the message that ends it |
| `NetlinkRuns.UnreadStandsBehindEnd` | net/netlink_manager.cpp:124-150 | what is not read of a datagram stands behind a message of a number nobody waits for, or a terminator |
| `NetlinkRuns.RunMissesNothing` | net/netlink_manager.cpp:95-167 | then the handler gets its reply out of everything that was sent, whoever else is answered |
| `NetlinkRuns.RunLosesNothing` | net/netlink_manager.cpp:95-167 | if the kernel only answers this request, its handler gets the reply out of all messages sent, however they were cut into datagrams |
| `NetlinkRuns.MessagesOfPackets` | net/netlink_manager.cpp:102-124 | a datagram of whole valid packets holds exactly these |
| `NetlinkRuns.CollectedIsRun` | net/netlink_manager.cpp:276-323 | the collect loop is the receive loop over the datagrams it takes, less its own entry at the end; it succeeds exactly if the handler is gone within the budget |
| `NetlinkRuns.RequestMeaning` | net/netlink_manager.cpp:276-323 | a request leaves no entry of its own and adds none; AppendPacket is run on exactly its reply and appends exactly that to the response; it succeeds exactly if the reply was finished in time |
| `NetlinkReach.DatagramIsReadUpToEnd` | net/netlink_manager.cpp:102-167 | a datagram is read up to and with its first message, broadcasts aside, that is a terminator or that nobody waits for any more, and completely if there is none |
| `NetlinkReach.ReceivedBroadcasts` | net/netlink_manager.cpp:126-130 | the broadcast handler gets the messages with number 0 among those reached, in order and each once |
| `NetlinkReach.EventsBroadcast` | net/netlink_manager.cpp:95-323 | the same over any run of datagrams, registrations and synchronous requests: no request takes a broadcast away |
| `NetlinkReach.EventsMessagesAreReached` | net/netlink_manager.cpp:95-323 | the other handlers are served out of the same messages |
| `NetlinkReach.ForSelects` | net/netlink_manager.cpp:124-136 | the messages of a number among others are each picked once and in order |
| `NetlinkReach.FinishedWhen` | net/netlink_manager.cpp:137-165 | a reply is over exactly if a message of its number is a terminator or lacks the multipart bit |
| `NetlinkReach.RequestTakesUpTo` | net/netlink_manager.cpp:276-323 | a request takes polls exactly as long as they bring data, its handler is pending and less than 300 ms have passed |
| `PnoRequest.ParsePnoSettings` | scanning/scanner_impl.cpp:238-269 | the loop's lists are given by capacity alone: a prefix of the hidden SSIDs, and the first matches among the networks that remain |
| `PnoRequest.PrunedPartitions` | scanning/scanner_impl.cpp:238-269 | each network is matched, skipped for the scan list or skipped for the match list, and each list keeps the order |
| `PnoRequest.PrunedRespectsCapacity` | scanning/scanner_impl.cpp:238-269 | both device limits hold unless the seeded list already exceeds them, and matches and security flags are equally many |
| `PnoRequest.MatchedHiddenIsScanned` | scanning/scanner_impl.cpp:238-269 | a hidden network that is not skipped for the scan list is in it |
| `PnoRequest.CreateScanFilter` | scanning/offload/offload_scan_utils.cpp:72-92 | as many entries as there are both SSIDs and flags, in order |
| `PnoRequest.FilterNamesMatches` | scanning/scanner_impl.cpp:214-232 | the filter of an offload request names exactly the matched networks, in order |
| `PnoRequest.PlansAreWithinLimits` | scanning/scanner_impl.cpp:444-470 | plans, when used, respect the limits on their number and iterations, and the last interval that on intervals, even when a product wraps |
| `PnoRequest.FastPlanWithinLimit` | net/kernel-header-latest/nl80211.h:1938-1939 | the fast interval respects the limit as well if the tripled interval does not wrap; on a device with a limit below 1431655 s only then |
| `PnoRequest.WrappedIntervalExceedsLimit` | scanning/scanner_impl.cpp:444-470 | a concrete interval for which a plan of 1431655 s goes to a device limited to 1000 s, followed by one of 0 s |
| `PnoRequest.SupportedPlansAreUsed` | scanning/scanner_impl.cpp:444-470 | a device that supports the plans gets them exactly if its limit in milliseconds, cut to 32 bits, still covers the tripled interval |
| `PnoRequest.PlansAreUsedWhenSupported` | scanning/scanner_impl.cpp:444-470 | for every nonnegative interval and every limit, use and support coincide exactly if the 32-bit comparison has the outcome of the exact one |
| `PnoRequest.FinalIntervalTriples` | scanning/scanner_impl.cpp:444-470 | the last interval in seconds is between 3f and 3f+2 exactly if the tripled interval does not wrap |
| `PnoRequest.WrappedLimitHidesPlans` | scanning/scanner_impl.cpp:448-450 | a concrete device limit that wraps and hides plans the device supports |
| `SchedScanRequest.BuildStartScheduledScan` | scanning/scan_utils.cpp:400-498 | the packet sent is the encoding of the request's attribute tree |
| `SchedScanRequest.AppendNode` | net/nl80211_attribute.cpp:180-188 | adding a child to an encoded tree encodes the tree with that child |
| `SchedScanDecode.DecodesInterface` | scanning/scan_utils.cpp:455-456 | the interface index reads back |
| `SchedScanDecode.DecodesScanSsids` | scanning/scan_utils.cpp:419-422 | the SSIDs to scan for read back in order, the empty wildcard included |
| `SchedScanDecode.DecodesFrequencies` | scanning/scan_utils.cpp:423-462 | the frequencies read back; they are absent exactly if there are none |
| `SchedScanDecode.DecodesMatchGroups` | scanning/scan_utils.cpp:432-441 | one match group per SSID, each with SSID and 5 GHz threshold |
| `SchedScanDecode.DecodesRssiAdjust` | scanning/scan_utils.cpp:443-452 | the 2.4 GHz correction reads back as a signed byte, exactly when the difference fits one |
| `SchedScanDecode.PlansExcludeInterval` | net/kernel-header-latest/nl80211.h:370-377 | exactly one of the plans and the single interval is present |
| `SchedScanDecode.DecodesPlans` | net/kernel-header-latest/nl80211.h:5155-5162 | one entry more than plans; each but the last has iterations, and the last has none |
| `SchedScanDecode.DecodesFlags` | scanning/scan_utils.cpp:487-498 | random address and low power are asked for exactly as requested |
| `PnoOverNetlink.KernelReadsWithinLimits` | scanning/scanner_impl.cpp:271-310 | for settings with SSIDs of at most 32 bytes, what the kernel reads respects the limits on match groups, plans and the last interval; that on SSIDs exactly if the device takes any, for the wildcard is always sent; and that on the fast interval exactly if tripling does not wrap (for limits below 1431655 s) |
| `PnoOverNetlink.OrdinaryRequestFits` | scanning/scan_utils.cpp:400-498 | such settings give a request in which every attribute and integer fits its field |
| `PnoMeaning.KernelReadsRequest` | scanning/scanner_impl.cpp:271-310 | what the kernel reads, by attribute number: the wildcard and then the hidden networks that fit; one group with SSID and threshold for each matched network, in order; a random address exactly if supported and not associated; low power exactly if supported; the difference of the thresholds; the plans or the interval; the interface; and no frequencies |
| `PnoMeaning.PrunedByPosition` | scanning/scanner_impl.cpp:238-269 | at which place of which list each network stands, by the number of hidden and of eligible networks before it |
| `PnoMeaning.RequestHeaderReads` | scanning/scan_utils.cpp:411-417 | the header of the packet: family, request and ack flags, sequence number, port and command |
| `PnoMeaning.HalReadsRequest` | scanning/scanner_impl.cpp:214-229 | what the HAL is given: interval, hidden networks without the wildcard, and a filter of the matched networks with the threshold as a signed byte |
| `InfoElement.GetSSIDFromInfoElement` | scanning/scan_utils.cpp:244-273 | on all bytes: the first SSID among the complete elements, or failure with the output untouched |
| `InfoElement.SsidOfEncoded` | scanning/scan_utils.cpp:244-273 | for any encoded list and any truncated rest, the first SSID of the list |
| `InfoElement.ElementsRoundTrip` | scanning/scan_utils.cpp:244-273 | an encoded list of elements reads back as itself |
| `InfoElement.ElementsCoverBytes` | scanning/scan_utils.cpp:244-273 | any bytes are the encoding of their complete elements and a truncated rest |
| `WireLayout.SsidIsFirst` | scanning/scan_utils.cpp:244-273 | the SSID is the value of the first element with the identifier 0, and there is none exactly without one |
| `OffloadScanManager.OffloadScanManager.constructor` | scanning/offload/offload_scan_manager.cpp:72-86 | the status is clean exactly if the service was reached at once |
| `OffloadScanManager.OffloadScanManager.InitService` | scanning/offload/offload_scan_manager.cpp:88-123 | which handle, death link, callback and calls each way of failing leaves |
| `OffloadScanManager.OffloadScanManager.StartScan` | scanning/offload/offload_scan_manager.cpp:182-209 | success and reason by availability, status and the two HAL calls; the calls made carry the parameters and the filter of the request |
| `OffloadScanManager.OffloadScanManager.StopScan` | scanning/offload/offload_scan_manager.cpp:132-146 | success and reason by availability, status and the HAL call |
| `OffloadScanManager.OffloadScanManager.ReportScanResults` | scanning/offload/offload_scan_manager.cpp:265-279 | the cache is replaced by the converted results, in order |
| `OffloadScanManager.OffloadScanManager.OnObjectDeath` | scanning/offload/offload_scan_manager.cpp:313-316 | only the death of the object in hand drops the handle; the scanner is told before the rest is forgotten |
| `OffloadScanManager.OffloadScanManager.ForgetService` | scanning/offload/offload_scan_manager.cpp:317-326 | after the scanner was told, the service is no longer available or watched |
| `OffloadScanManager.StartMeaning` | scanning/offload/offload_scan_manager.cpp:182-230 | a start succeeds exactly if the service can be reached, the status is clean and the HAL answers OK twice; then the object in hand, watched and calling back, was configured with the request and has acknowledged the subscription |
| `OffloadScanManager.StopMeaning` | scanning/offload/offload_scan_manager.cpp:132-146 | when a stop succeeds; the object in hand is asked to end its subscription, which is over exactly if the answer arrives |
| `OffloadScanManager.RunStaysConnected` | scanning/offload/offload_scan_manager.cpp:88-130 | in every run an available service is in hand, and the death link and the callback are on that same object; no call is attempted without one; scans are only asked of an object on which both were set up before; no other object is left with a subscription |
| `OffloadScanManager.StatusHistory` | scanning/offload/offload_scan_manager.cpp:281-311 | the status is the last report understood, or else how construction went |
| `OffloadScanManager.StartSucceedsWhen` | scanning/offload/offload_scan_manager.cpp:182-209 | exactly when a start succeeds after any run |
| `ScannerImpl.RunExclusion` | scanning/scanner_impl.cpp:200-236 | over any run the two recorded flags are never both set exactly if no start over offload succeeds while a netlink scan is recorded |
| `ScannerImpl.GuardedStartsExclude` | scanning/scanner_impl.cpp:200-236 | the two recorded flags are never both set if every start finds neither set, or meets the guard that SafeToStart proves exact |
| `ScannerImpl.StepExclusion` | scanning/scanner_impl.cpp:271-350 | one step keeps the two flags exclusive exactly if it is not such a start |
| `ScannerImpl.SafeToStart` | scanning/scanner_impl.cpp:200-236 | in any reachable state, no answer of the HAL lets a start set both flags exactly if no netlink scan is recorded, or offload is unsupported, or the status is not clean |
| `ScannerImpl.OffloadScanIsAsked` | scanning/scanner_impl.cpp:214-236 | a start over offload hands the HAL in use the pruned hidden SSIDs and a filter of exactly the matched networks, within the limits, and then subscribes |
| `ScannerImpl.BothBackendsCanRun` | scanning/scanner_impl.cpp:200-236 | two starts, of which the HAL refuses the first, after which both flags are set and both backends run |
| `ScannerImpl.RunApart` | scanning/scanner_impl.cpp:200-350 | over any run no netlink scan is ever recorded beside an open HAL subscription exactly if no event brings them together: an offload start beside a netlink scan, a netlink start beside an open subscription, or a failover whose unsubscribe is not acknowledged |
| `ScannerImpl.StepApart` | scanning/scanner_impl.cpp:200-350 | one event keeps the backends apart exactly if it is none of these |
| `ScannerImpl.SafeToStartApart` | scanning/scanner_impl.cpp:200-236 | in any reachable state, no answers let a start bring the backends together exactly if no subscription is open, and no netlink scan is recorded where an offload start could succeed |
| `ScannerImpl.CarefulRunsStayApart` | scanning/scanner_impl.cpp:200-350 | if every start finds neither flag set and every unsubscribe is acknowledged, the backends stay apart |
| `ScannerImpl.RestartLeavesSubscription` | scanning/scanner_impl.cpp:225-230 | a start over offload that is refused beside the open subscription of the last one, after which the netlink scan runs as well and no unsubscribe was ever sent |
| `ScannerImpl.LostUnsubscribeLeavesSubscription` | scanning/scanner_impl.cpp:323-334 | a stop whose unsubscribe is lost and a start that falls to netlink, with no start that found either flag set |
| `ScannerImpl.FailoverLeavesSubscription` | scanning/scanner_impl.cpp:512-521 | a failover whose unsubscribe is lost |
| `ScannerImpl.RunsOffloadOnlyIfSupported` | scanning/scanner_impl.cpp:200-236 | offload runs only where it is supported, in every reachable state |
| `ScannerImpl.Failover` | scanning/scanner_impl.cpp:487-529 | in any reachable state a failure the HAL reports asks the HAL to end the subscription, which stays open if it does not acknowledge that, and sends one request with the last start's settings; the scan goes on, or the subscriber is told, or the process ends for want of driver or subscriber |
| `ScannerImpl.DeathIsNotSurvived` | scanning/offload/offload_scan_manager.cpp:313-327 | in any reachable state the death of the HAL in use during a scan makes the fallback call it through the dropped handle, with no request to the kernel; any other death changes nothing but the manager |
| `ScannerImpl.DeathDuringScanFaults` | scanning/offload/offload_scan_manager.cpp:313-327 | a run of two events that shows it |
| `ScannerImpl.RunFaults` | scanning/offload/offload_scan_manager.cpp:132-146 | over any run a HAL call goes through a null handle exactly if the HAL in use dies during a scan |
| `ScannerImpl.RunSettles` | scanning/scanner_impl.cpp:200-350 | in every reachable state of a live process the manager is well behaved, and an offload scan is recorded only where supported, on an available service with a clean status and an open subscription |
| `ScannerImpl.RunsWithLastSettings` | scanning/scanner_impl.cpp:200-212 | the recorded settings are those of the last start |
| `ScannerImpl.ResultSource` | scanning/scanner_impl.cpp:132-147 | results come from the offload cache exactly if an accepted offload result came after every start and every kernel result with a subscriber |
| `ScannerImpl.StepSource` | scanning/scanner_impl.cpp:424-485 | which event switches the source of results |
| `ScannerMeaning.RunStepMeans` | scanning/scanner_impl.cpp:200-529 | for every event in every state reached: whether a request goes to the kernel and what it says, what the subscriber is told, which scans and which status are recorded, what the cache holds, and whether the process ends |
| `ScannerMeaning.HalIsAsked` | scanning/scanner_impl.cpp:214-236 | after a start that the HAL takes, the last two calls to the object in hand give it the networks of the settings and subscribe |
| `ScannerMeaning.RequestForReads` | scanning/scanner_impl.cpp:271-310 | a recorded request says to the kernel, on any interface, what the settings ask for |
| `ScannerMeaning.StartReturns` | scanning/scanner_impl.cpp:200-212 | a start is reported as successful exactly if either backend takes the scan |
| `ScannerMeaning.StopReturns` | scanning/scanner_impl.cpp:312-334 | a stop is reported as successful exactly if the scan ran over offload, whatever the HAL answers, or the kernel stopped it |
| `ScannerMeaning.StartReason` | scanning/offload/offload_scan_manager.cpp:165-230 | which reason a start gives for failing |
| `ScannerMeaning.StopReason` | scanning/offload/offload_scan_manager.cpp:132-146 | which reason a stop gives for failing |
| `ScannerImpl.ScannerImpl.StartPnoScan` | scanning/scanner_impl.cpp:200-212 | offload first, then netlink, with everything recorded |
| `ScannerImpl.ScannerImpl.StartPnoScanDefault` | scanning/scanner_impl.cpp:271-310 | the request that goes to the kernel; the process ends if the driver is gone |
| `ScannerImpl.ScannerImpl.StartPnoScanOffload` | scanning/scanner_impl.cpp:214-236 | the pruned request that goes to the manager, and the notice |
| `ScannerImpl.ScannerImpl.StopPnoScan` | scanning/scanner_impl.cpp:312-350 | stops over offload if it runs there, else over netlink |
| `ScannerImpl.ScannerImpl.OnSchedScanResultsReady` | scanning/scanner_impl.cpp:424-442 | nothing without a subscriber; a stopped scan is a failure only if one was recorded |
| `ScannerImpl.ScannerImpl.OnOffloadScanResult` | scanning/scanner_impl.cpp:472-485 | accepted only while offload runs |
| `ScannerImpl.ScannerImpl.OnOffloadError` | scanning/scanner_impl.cpp:487-529 | notice, stop, start over netlink, and failure notice |
| `ScannerImpl.ScannerImpl.ReportError` | scanning/offload/offload_scan_manager.cpp:281-311 | the scanner falls back before the manager's status changes |
| `ScannerImpl.ScannerImpl.OnHalDeath` | scanning/offload/offload_scan_manager.cpp:313-327 | the scanner falls back while the handle is gone and the service still counts as available |
| `ScannerImpl.ScannerImpl.Dispatch` | scanning/scanner_impl.cpp:200-529 | each event of a run has the effect that the runs reason about |
| `ScannerImpl.ScannerImpl.GetPnoScanResults` | scanning/scanner_impl.cpp:132-147 | the cache or the kernel's answer, appended |
| `Server.NoDanglingHandlers` | server.cpp:97-179 | over any run, every handler in the five tables belongs to a live object with that index |
| `Server.RunServes` | server.cpp:97-179 | over any run every live object always has its own handlers exactly if no creation uses the index of a live object of its kind |
| `Server.DisciplinedRunIsExact` | server.cpp:97-179 | in such runs the tables hold exactly the live indices, and the entry of each is the object itself |
| `Server.CreateKeepsOther` | server.cpp:97-115 | creating takes another object's handler exactly if it registers under its index or replaces an object with its index |
| `Server.CreateServesNew` | server.cpp:97-115 | the new object has its handler exactly if it does not replace an object with the same index |
| `Server.CreateServesAll` | server.cpp:129-149 | where all live objects are served, creating keeps it so exactly if the index is not that of a live object |
| `Server.TearDownKeepsOther` | server.cpp:117-127 | tearing down takes another object's handler exactly if the two share an index |
| `Server.LostForGood` | server.cpp:97-161 | no operation on other names gives an object its handler back |
| `Server.TearDownAllEmpties` | server.cpp:163-179 | after tearing down all, no table has an entry |
| `Server.RecreatingLosesHandlers` | server.cpp:97-115 | creating a name twice leaves the live object without handlers |
| `Server.SharedIndexTakesHandlers` | server.cpp:341-349 | two fresh names that resolve to one index: the second object takes over the handlers of the first |
| `Server.Server.SetupInterface` | server.cpp:316-353 | the entry at the least index with the name; else that at the least index that is neither p2p0 nor an aware interface; else none |
| `Server.ChosenIsFirst` | server.cpp:330-353 | for any listing, the choice is exactly that entry |
| `Server.Server.CreateApInterface` | server.cpp:97-115 | succeeds exactly if the listing offers an interface, and registers the new object under that interface's index before the one it replaces is destroyed |
| `Server.Server.CreateClientInterface` | server.cpp:129-149 | the same for client interfaces and their scanner |
| `Server.Server.TearDownApInterface` | server.cpp:117-127 | succeeds exactly if the name is live |
| `Server.Server.TearDownClientInterface` | server.cpp:151-161 | succeeds exactly if the name is live |
| `Server.Server.TearDownInterfaces` | server.cpp:163-179 | every object is destroyed |
| `Server.Server.NewApInterface` | ap_interface_impl.cpp:39-64 | a new object has both handlers under its index, and every other index keeps its entry |
| `Server.Server.DestroyApInterface` | ap_interface_impl.cpp:66-71 | nothing stands under the index afterwards, whoever's it was, and every other index keeps its entry |
| `Server.Server.NewClientInterface` | client_interface_impl.cpp:99-135 | a new object has the MLME handler and the scanner's two handlers under its index, and every other index keeps its entry |
| `Server.Server.DestroyClientInterface` | client_interface_impl.cpp:137-142 | nothing stands under the index in the three tables afterwards, and every other index keeps its entry |
| `Parcelables.ListRoundTrip` | scanning/single_scan_settings.cpp:44-87 | a list is appended to the target and its items are consumed exactly if its size fits the signed 32-bit count; a longer one never arrives whole |
| `Parcelables.SingleRoundTrip` | scanning/single_scan_settings.cpp:38-110 | a fresh object gets every field back and nothing that follows is consumed, exactly if both list sizes fit |
| `Parcelables.SingleNeedsFreshObject` | scanning/single_scan_settings.cpp:61-110 | reading restores the value only into an object whose lists are empty |
| `Parcelables.SingleScanSettings.WriteToParcel` | scanning/single_scan_settings.cpp:38-59 | nothing is written for an invalid scan type |
| `Parcelables.SingleScanSettings.ReadFromParcel` | scanning/single_scan_settings.cpp:61-110 | the fields as far as they could be read |
| `Parcelables.PnoRoundTrip` | scanning/pno_settings.cpp:34-70 | every field comes back and nothing that follows is consumed, exactly if the number of networks fits |
| `Parcelables.PnoParcelable.ReadFromParcel` | scanning/pno_settings.cpp:48-70 | the fields as far as they could be read |
| `Parcelables.ResultRoundTrip` | scanning/scan_result.cpp:54-104 | every field comes back and nothing that follows is consumed, exactly if the number of radio chains fits |
| `Parcelables.NativeScanResult.ReadFromParcel` | scanning/scan_result.cpp:75-104 | the fields as far as they could be read; a missing capability or association reads as zero |
| `ParcelLayout.SingleLayout` | scanning/single_scan_settings.cpp:38-59 | which item of the parcel holds which field |
| `ParcelLayout.PnoLayout` | scanning/pno_settings.cpp:34-46 | which item of the parcel holds which field |
| `ParcelLayout.ResultLayout` | scanning/scan_result.cpp:54-73 | which item of the parcel holds which field |
| `ParcelLayout.ListCut` | scanning/single_scan_settings.cpp:69-107 | reading a list that is cut short fails and keeps a prefix of it |
| `ParcelLayout.SingleCut` | scanning/single_scan_settings.cpp:61-110 | no proper prefix of a written parcel is read successfully |
| `ParcelLayout.PnoCut` | scanning/pno_settings.cpp:48-70 | no proper prefix of a written parcel is read successfully |
| `ParcelLayout.ResultCut` | scanning/scan_result.cpp:75-104 | no proper prefix of a written parcel is read successfully, although missing flags are no error by themselves |

## Left out

- Nl80211Attribute.NL80211Attr.GetAttributeImpl: requires that no header before the first match has length zero, because there the source's loop does not advance.
- Nl80211Attribute.NL80211Attr.GetListOfBytesValues: requires that no header has a length of one to three, for which the source computes a negative payload size.
- Nl80211Packet.NL80211Packet.GetAllAttributes: requires that no header has a length of one to three, for the same reason.
- Nl80211Packet.NL80211Packet.GetBytesValue: requires that the length of the first match is not one to three, for the same reason.
- Nl80211Attribute.NL80211Attr.Merge: requires that the two objects differ and that lengths cover their headers; a joint length past 16 bits is modelled as the source stores it, truncated.
- Nl80211Attribute.MergeAssociative: only while the joint length fits 16 bits, since a wrapped attribute is not valid.
- SplitWiphyDump.MergePacketsForSplitWiphyDump: requires merged lengths of at most 65535, and of every fragment header lengths other than one to three and no header of length zero before its wiphy attribute, where the source's search does not advance.
- SplitWiphyDump.AddAttributeToMap: the attribute objects inside the map are byte values that are copied in and out; their aliasing is not captured.
- SplitRefinement.DistributedDumpRefinesPacket: requires distinct attribute ids in the packet and merged lengths of at most 65535.
- WiphyInfo.GetWiphyInfo: starts where the dump has arrived; building the request and asking for protocol features are left out. It requires that packets hold both headers, that no search it gets to meets a header of length zero before its match, for which the source's loop does not advance, and that the extended features' length covers its header.
- NetlinkManager.NetlinkManager.ReceivePacketAndRunHandler: requires that no message claims more bytes than its datagram has left; the source would read past the datagram into its static buffer, which is not part of this model. Handlers do not touch the table.
- NetlinkManager.NetlinkManager.SendMessageAndGetResponses: polls, reads and elapsed times are inputs; when they are used up, the next poll times out.
- NetlinkRuns.RequestMeaning: requires that no other synchronous request is in progress; each one leaves the table that way, and no other caller can name AppendPacket.
- PnoOverNetlink.KernelReadsWithinLimits: requires SSIDs of at most 32 bytes, which the source does not check, and capabilities below 256, as their 8-bit fields hold.
- PnoMeaning.KernelReadsRequest: requires the same, and an interface index of 32 bits.
- WiphyMeaning.BandsMeanFrequencies: for band lists whose entries encode nested attributes; of any other bytes `WiphyInfo.ParseBandInfo` says what is read.
- ParcelLayout.SingleCut: for parcels whose list sizes fit the signed 32-bit count, as are ParcelLayout.PnoCut and ParcelLayout.ResultCut; longer lists are not read back even when complete.
- OffloadScanManager.OffloadScanManager.ReportScanResults: the time of each conversion is an input. The conversion has no failing case here: it fails only for a null destination, and the cache is always there.
- OffloadScanManager.RunStaysConnected: its death events are those that find no scan running; a death during a scan is part of the scanner's runs, in `ScannerImpl.RunFaults`.
- ScannerImpl.RunApart: a subscription counts as open from the HAL's acknowledgement to that of its end or its death, and a netlink scan as running while the scanner records it; what became of a request whose answer was lost is not known.
- ScannerImpl.DeathIsNotSurvived: a call through a null handle is undefined in C++ and ends the run in this model.
- Server.Server.SetupInterface: the kernel's listing is an input; the regulatory-domain subscription is left out.
- Server.NoDanglingHandlers: interface objects are their identity and index, and binder references that outlive a tear-down are left out.
- Parcelables.Parcel.ReadItem: items are typed, so a read of the wrong kind fails, where a real parcel would reinterpret bytes.
- Sockets, the event loop, binder and HIDL transport, logging, dumps and permissions: transport only.
- Family and group discovery, broadcast fan-out, channel bandwidths and the interface getters: straight-line decoding with the getters proved here.
- One-shot scans (ScannerImpl::scan, ScanUtils::Scan) and aborting a scan: the same pruning and encoding as the scheduled request, without plans and match groups.
- ParseScanResult, GetStationInfo and GetBssTimestamp: sequences of typed reads.
- MLME association state and the counter of associated stations: single-field updates per event.
- The scanner's `valid_` check: the flag is never cleared in this source, so the check always passes.
- The conversion of scan statistics: sums into a result structure.
- Hostapd and supplicant control, and MAC address setting.
