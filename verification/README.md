# Matter interaction model: models and proofs

This project models the client and server sides of the Matter interaction model (`src/app`) and the
access control engine (`src/access`) and proves what their protocols are for: that what is sent
arrives once and whole, that what is cached is current, that what is decided follows the rule, and
that what is started ends once. Statements hold for every input, every packet size, every
interleaving or every run.

`dafny verify dfyconfig.toml` checks the whole project.

| files | what they model |
|---|---|
| `Core.dfy`, `Tlv.dfy` | shared vocabulary; the TLV writer as a byte budget with reservation, checkpoint and rollback |
| `ListEncoder.dfy`, `ReportEngine.dfy`, `BufferedRead.dfy`, `BufferedStream.dfy`, `ChunkingRoundTrip.dfy` | chunked lists: the attribute encoder, the part of the reporting engine that drives it, the wire, the buffering read callback, and all of them together |
| `PathParams.dfy`, `PathExpansion.dfy`, `PathIterator.dfy` | wildcard path expansion: the nested comprehension, and the resumable iterator that refines it |
| `ClusterCache.dfy`, `ClusterCacheFilters.dfy` | the cluster state cache: the data version protocol over complete and abandoned reports, the filter list, and the agreement of full and metadata-only caches |
| `AccessEntries.dfy`, `AccessStore.dfy`, `BulkDeletion.dfy`, `AccessControl.dfy`, `ListenerRuns.dfy` | access control: valid entries and the decision, the store and its replay, deletion under failure, the listener list, and whole runs of all of them |
| `InvokeResponse.dfy`, `CommandHandler.dfy`, `CommandSender.dfy` | invoke: building one complete response, the handles that hold it off, the sender's timed handshake |
| `ChunkedWrite.dfy`, `DeferredPersistence.dfy` | the status merger for chunked writes and the provider that debounces writes |

Objects whose methods update their fields are classes; each method's contract ties its new state to
a function on values, and the theorems are lemmas about those functions. Clock readings, what a
transport or an allocator answers, and what a delegate returns are parameters.

Where the code differs from what it says it does, or from what one would expect of it, the model
follows the code and a theorem says exactly when:

- The item index of a chunked list is a uint16_t, and 65535 means "never started". After a packet
  that stopped with item n to come the next one carries on there exactly if n is below 65535
  (`ReportEngine.ResumesWhereStopped`). Beyond, a list is opened again (`ReportEngine.ListOpensAgain`)
  or repeats items (`ChunkingRoundTrip.ItemsRepeat`), and one with 65535 items more than a packet
  has bytes is never completed (`ReportEngine.TooManyItems`).
- When a wildcard request names the metadata attribute at index 65534 of a cluster that it covers,
  the iterator hands the same path out for ever; an iteration ends exactly if no request does
  (`PathIterator.Iterate`, `PathIterator.RepeatsAtLastIndex`, `PathIterator.CrowdedNodeRepeats`).
- `AddResponse` promises a Failure status when the data cannot be encoded. Rolling back restores the
  writer and the message builder only, so when the data fails while the message is being completed,
  the status fails too and nothing is sent (`InvokeResponse.AddResponseExact`,
  `InvokeResponse.FallbackLost`).
- Data under an invalid cluster path is never committed and leaves its version pending, and a
  report that is given up may leave one pending. What is committed is current in every run (`ClusterCache.RunSafe`), and
  nothing stays pending between reports exactly if no report strands a version
  (`ClusterCache.QuietExactly`, `ClusterCache.RunSafeExactly`, `ClusterCache.InvalidPathStrandsVersion`).
- Without the whole list first, appended items join what was left buffered. The owner is told what
  the reports owe it exactly if that never happens (`BufferedStream.StreamExactly`,
  `BufferedStream.LeakWithoutWholeList`).
- Updating an access control entry so that it moves to another fabric is announced to the fabric it
  leaves only, so mirrors of both fabrics go wrong (`AccessStore.PerformReplays`,
  `AccessStore.MoveSpoilsMirrors`).
- The number of entries per fabric is checked for the caller's fabric, while the entry is stored
  under its own (`AccessStore.PerformKeepsLimit`, `AccessStore.LimitOverrun`).
- A deferred write of no bytes to an idle attribute reports success and is dropped
  (`DeferredPersistence.WriteTakesEffect`).
- A write that is not deferred does not look through the deferred ones. It returns with every
  deadline ahead exactly if nothing is armed or the timer is not overdue
  (`DeferredPersistence.ReturnsOnTime`, `DeferredPersistence.DirectWriteLate`).

## Model

| member | source | states |
|---|---|---|
| `Tlv.Writer.Put` | src/lib/core/TLVWriter.cpp:760-794 | an element is written whole, or the room left is used up, the bytes are torn and the result is an out-of-space error |
| `Tlv.Writer.ReserveBuffer` | src/lib/core/TLVWriter.h:132-138 | bytes move from the room left to the reservation, or nothing changes and the result is an error |
| `Tlv.Writer.UnreserveBuffer` | src/lib/core/TLVWriter.h:146-153 | reserved bytes come back as room, or nothing changes and the result is an error |
| `ListEncoder.AttributeValueEncoder.EnsureListStarted` | src/app/AttributeAccessInterface.cpp:67-114 | the first call opens the report and reserves the closing bytes or fails without claiming progress; a resumed call writes nothing |
| `ListEncoder.AttributeValueEncoder.EncodeListItem` | src/app/AttributeAccessInterface.h:258-305 | an item is skipped, written whole with both indices advanced (as uint16_t), or rolled back with the reservation restored |
| `ListEncoder.AttributeValueEncoder.HelperEncode` | src/app/AttributeAccessInterface.h:111-128 | an item of another fabric is passed over when the read is fabric filtered, an undefined fabric is an error, anything else goes to EncodeListItem; KeptExactly says what comes out of it |
| `ListEncoder.KeptExactly` | src/app/AttributeAccessInterface.h:111-128 | what is delivered are the values, in order, of exactly the items before the first undefined fabric that have no fabric, have the accessing one, or any if the read is not filtered |
| `ListEncoder.AttributeValueEncoder.EnsureListEnded` | src/app/AttributeAccessInterface.cpp:116-146 | with the reserved bytes in hand every step of closing a list succeeds; partial data is disallowed when no item was encoded |
| `ListEncoder.AttributeValueEncoder.EncodeList` | src/app/AttributeAccessInterface.h:218-243 | one call from any saved state delivers exactly the longest run of remaining items that fits, for a list of any length, and leaves the item index at the number of items delivered in all, as a uint16_t; the errors are told apart |
| `ListEncoder.FitCountIsMaximal` | src/app/AttributeAccessInterface.h:280-296 | the number of items written fits, and one more would not |
| `ListEncoder.IndexAfterExact` | src/app/AttributeAccessInterface.h:156-162 | the saved item index tells how many items were delivered exactly up to 65535 of them, and looks like a list never started exactly at 65535 modulo 65536 |
| `ReportEngine.ParseEmitAll` | src/app/ReadClient.cpp:656-709 | what a client parses out of the bytes of a sequence of reports is that sequence |
| `ReportEngine.AttributeReporter.BuildReport` | src/app/reporting/Engine.cpp:92-296 | one attempt at an attribute: partial data is kept, a failed attempt is rolled back, any other error becomes a status report |
| `ReportEngine.PacketInStep` | src/app/reporting/Engine.cpp:92-296 | each packet continues where the reports sent so far stop, so together they carry a prefix of the list, all of it, or the error |
| `ReportEngine.ResumesWhereStopped` | src/app/AttributeAccessInterface.h:156-162 | after a packet that stopped with item n to come, the next one carries on at item n whatever its size, exactly if n is below 65535 |
| `ReportEngine.NeverCompletes` | src/app/reporting/Engine.cpp:461-560 | a list of which no packet holds what comes from item 65534 on never ends, however many packets are sent |
| `ReportEngine.TooManyItems` | src/app/reporting/Engine.cpp:499-505 | in packets of fewer than some number of bytes that is every list with 65534 items more than that number |
| `ReportEngine.ListOpensAgain` | src/app/AttributeAccessInterface.cpp:67-86 | packets of two items each that reach index 65535, after which the next packet opens the list again |
| `ReportEngine.NoProgress` | src/app/reporting/Engine.cpp:92-296 | a packet goes out without a report for the attribute only if it had too little room for one |
| `ReportEngine.AttributeReporter.SendReports` | src/app/reporting/Engine.cpp:461-560 | over any sequence of packet sizes the reports sent are a prefix of the list, or the whole of it or an error once completed; sufficient packets complete |
| `BufferedRead.BufferedReadCallback.GenerateListTLV` | src/app/BufferedReadCallback.cpp:48-101 | the buffer size computed beforehand always suffices, and the array produced holds exactly the buffered items |
| `BufferedRead.BufferedReadCallback.BufferData` | src/app/BufferedReadCallback.cpp:137-170 | a whole list replaces the buffer by its items, an appended item goes to its end |
| `BufferedRead.BufferedReadCallback.DispatchBufferedData` | src/app/BufferedReadCallback.cpp:172-227 | a buffered list is handed over once, as a replacement of the whole list, when something else follows it |
| `BufferedRead.BufferedReadCallback.OnAttributeData` | src/app/BufferedReadCallback.cpp:229-263 | one report item hands over what it completes, then is buffered or passed on |
| `BufferedRead.BufferedReadCallback.OnReportEnd` | src/app/BufferedReadCallback.cpp:37-46 | the end of a report hands over what is still buffered |
| `BufferedStream.ProcessRun` | src/app/BufferedReadCallback.cpp:137-263 | within a run for one path, list operations are gathered, behind what was left in the buffer if no whole list comes first, and everything else is passed on at once |
| `BufferedStream.PlainItemsPass` | src/app/BufferedReadCallback.cpp:229-263 | whatever else is owed, every item that is not a list operation is passed on unchanged, once and in order |
| `BufferedStream.ProcessMeetsSpec` | src/app/BufferedReadCallback.cpp:137-263 | over a report whose list blocks start with the whole list, the calls are those owed run by run |
| `BufferedStream.StreamMeetsSpec` | src/app/BufferedReadCallback.cpp:32-46 | over any sequence of such reports nothing is lost, repeated, or carried into a later run |
| `BufferedStream.StreamExactly` | src/app/BufferedReadCallback.cpp:137-170 | over any reports, whatever their list blocks start with, the calls are those owed run by run if and only if no list is handed over that starts with an append while earlier runs left items in the buffer |
| `BufferedStream.LeakWithoutWholeList` | src/app/BufferedReadCallback.cpp:188-221 | without a whole list first, items buffered for another path and then overtaken by an error end up in a later list |
| `ChunkingRoundTrip.ChunkedRun` | src/app/AttributeAccessInterface.h:111-128 | the reports of a list attribute, however cut, form one run whose list is the whole list |
| `ChunkingRoundTrip.DeliveredOnce` | src/app/ReadClient.cpp:656-709 | a complete list attribute among other attributes gives exactly one callback with exactly its items |
| `ChunkingRoundTrip.FailedOnce` | src/app/BufferedReadCallback.cpp:172-227 | an attribute whose read failed midway gives the error and no list |
| `ChunkingRoundTrip.UnfinishedSaysNothing` | src/app/BufferedReadCallback.cpp:172-227 | of an attribute whose pieces stop coming before the report ends the client is told nothing |
| `ChunkingRoundTrip.ItemsRepeat` | src/app/AttributeAccessInterface.h:156-162 | packets of two items each that jump over index 65535: the next packet starts over at the first item, and the client's list holds those items twice |
| `ChunkingRoundTrip.ReadListAttribute` | src/app/AttributeAccessInterface.h:218-297 | encoder, engine, wire and buffering callback together: for any packet sizes a completed read delivers, once and whole, the values of exactly the items of no or the accessing fabric (of all, if not filtered), or the error if a fabric is undefined; an unfinished one delivers nothing of it; sufficient packets complete |
| `PathParams.IntersectsMeansShared` | src/app/AttributePathParams.h:101-108 | two requested paths intersect exactly when some concrete path lies in both |
| `PathParams.SupersetMeansAgrees` | src/app/AttributePathParams.h:92-99 | a requested path covers a concrete one exactly when they agree wherever the request holds no wildcard |
| `PathParams.IncludesMeansCovers` | src/app/AttributePathParams.h:110-124 | a request includes attributes of a cluster exactly when it covers some path of it, and all attributes exactly when it covers every path of it |
| `PathExpansion.LookupClusterIndex` | src/app/util/attribute-storage.cpp:727-744 | with unique ids the index of a cluster found through all endpoints is its index in the one named |
| `PathExpansion.LookupCluster` | src/app/util/attribute-storage.cpp:809-818 | with unique ids looking a cluster up by ids leads back to it |
| `PathIterator.AttributePathExpandIterator.PrepareAttributeIndexRange` | src/app/AttributePathExpandIterator.cpp:106-150 | the index range chosen for a cluster covers the metadata attribute, the global attribute, both lists or nothing, as the request asks |
| `PathIterator.PreparedRest` | src/app/AttributePathExpandIterator.cpp:106-150 | choosing that range does not change which paths of the cluster are still to come |
| `PathIterator.LaterEndpointsAre` | src/app/AttributePathExpandIterator.cpp:173-257 | reading the remaining paths off the indices gives what the nested comprehension selects |
| `PathIterator.AttributePathExpandIterator.Next` | src/app/AttributePathExpandIterator.cpp:173-257 | each call takes exactly the next path of what was to come, says when nothing is left, and terminates; the path lies in the cluster the indices stand in |
| `PathIterator.AttributePathExpandIterator.ResetCurrentCluster` | src/app/AttributePathExpandIterator.cpp:152-171 | after a reset the output is the first attribute of the cluster of the path handed out last, and the rest is the expansion from there on |
| `PathIterator.FromClusterIsSuffix` | src/app/AttributePathExpandIterator.cpp:152-171 | the expansion from a cluster on is the tail of the whole expansion |
| `PathIterator.Collect` | src/app/AttributePathExpandIterator.cpp:173-257 | unless a request blocks it, iterating to the end yields exactly the concatenation over the requests of the existing paths each covers, in order, once each |
| `PathExpansion.ExpandExactly` | src/app/AttributePathExpandIterator.cpp:173-257 | the expansion of a wildcard request has exactly the paths that the node serves and that agree with the request, each once; a concrete request stands for itself |
| `PathIterator.Iterate` | src/app/AttributePathExpandIterator.cpp:173-257 | an iteration ends if and only if no wildcard request names, in an enabled cluster that it covers, the attribute at index 65534; then the paths are those of the expansion in order, otherwise there is always another one |
| `PathIterator.RepeatsAtLastIndex` | src/app/AttributePathExpandIterator.cpp:222-251 | when a wildcard request names the metadata attribute at index 65534 of a cluster it covers, the same path comes again and the iterator stays where it is |
| `PathIterator.CrowdedExpansion` | src/app/AttributePathExpandIterator.cpp:222-251 | a node with 65535 attributes in a cluster for which the expansion is a single path |
| `PathIterator.CrowdedNodeRepeats` | src/app/AttributePathExpandIterator.cpp:222-251 | an iterator over that node hands its one path out twice |
| `ClusterCache.ClusterStateCache.UpdateCache` | src/app/ClusterStateCache.cpp:67-162 | one report item stores the attribute, clears the committed version of its cluster, commits the previous cluster, and stamps the pending version if a wildcard path covers the cluster; AttributesExactly and VersionsExactly say what that comes to over runs |
| `ClusterCache.ClusterStateCache.CommitPendingDataVersion` | src/app/ClusterStateCache.cpp:219-232 | the pending version of the last cluster becomes its committed one |
| `ClusterCache.ClusterStateCache.OnReportBegin` | src/app/ClusterStateCache.cpp:211-217 | a new report starts with no cluster arriving and no changes collected, whatever was left of the report before |
| `ClusterCache.ClusterStateCache.OnReportEnd` | src/app/ClusterStateCache.cpp:234-261 | the last cluster is committed and the collected changes are announced |
| `ClusterCache.AttributesExactly` | src/app/ClusterStateCache.cpp:67-162 | after any run an attribute is cached exactly if some item named it, and then as the last such item brought it: the data or the status when data is cached, and their size otherwise |
| `ClusterCache.VersionsExactly` | src/app/ClusterStateCache.cpp:67-237 | after any run a version is committed, or pending, for a cluster exactly if the last data item for it carried that version, a request so far asks for all of the cluster, and the cluster was, or was not, left behind under a valid path |
| `ClusterCache.DeliverReport` | src/app/ClusterStateCache.cpp:211-261 | over one whole report: the owner is told of exactly the attributes named, if data is cached, and their clusters, and of exactly the endpoints of which nothing was cached before, once each |
| `ClusterCache.ArriveVersions` | src/app/ClusterStateCache.cpp:103-131 | what data for one cluster does to the pending and committed versions of every cluster |
| `ClusterCache.RunVersions` | src/app/ClusterStateCache.cpp:67-237 | after any run, and at any point of a report, the versions of each cluster are told by the last report that brought it data alone: its last version, if a wildcard path covers the cluster, is committed once other data or the end of the report follows under a valid path, and pending otherwise |
| `ClusterCache.RunSafe` | src/app/ClusterStateCache.cpp:211-237 | in every run, reports that are given up included, the cluster still arriving has no committed version, and each committed version is the one on the last data item of its cluster, which a wildcard path covers |
| `ClusterCache.QuietExactly` | src/app/ClusterStateCache.cpp:219-237 | between the reports of any run no version is pending if and only if no report strands one: the last covered data item of a cluster carries a version, and its path is invalid or the report was given up right after it |
| `ClusterCache.RunSafeExactly` | src/app/MessageDef/AttributePathIB.cpp:204-210 | for complete reports as the read client delivers them, no version is pending between reports if and only if none brings data for a covered cluster under an invalid cluster path, which parsing a path does not reject |
| `ClusterCache.InsideRunSafe` | src/app/ClusterStateCache.cpp:103-131 | inside a report before which nothing was pending, only the cluster still arriving has a pending version, if and only if no such data was followed by data for another cluster |
| `ClusterCache.InvalidPathStrandsVersion` | src/app/ClusterStateCache.cpp:109-131 | data under an invalid path: its version is still pending after the report ended, while the other cluster's is committed |
| `ClusterCacheFilters.AgreeRun` | src/app/ClusterStateCache.cpp:52-65 | a cache that keeps data and one that keeps sizes go through the same versions and sizes |
| `ClusterCacheFilters.FullAndMetadataAgree` | src/app/ClusterStateCache.cpp:449-506 | over any run of reports the two kinds of cache hold the same filters with the same cluster sizes |
| `ClusterCacheFilters.FiltersAreCurrent` | src/app/ClusterStateCache.cpp:449-506 | every filter names a covered cluster with the version last stamped on it |
| `ClusterCacheFilters.FiltersExactly` | src/app/ClusterStateCache.cpp:449-506 | after any run there is a filter for a cluster exactly if it has a committed version and what was last received for its attributes has bytes; it names that version and counts those bytes |
| `ClusterCacheFilters.GetSortedFilters` | src/app/ClusterStateCache.cpp:449-506 | the filters are those of the clusters with a committed version, each once, by size from the largest down |
| `ClusterCacheFilters.OnUpdateDataVersionFilterList` | src/app/ClusterStateCache.cpp:508-588 | the filters are taken from the largest down, those no requested path touches are skipped, and the longest run of the rest that fits is written, never part of one; the flag says whether it is non-empty; new requests that cover whole clusters are registered |
| `ClusterCacheFilters.TouchedExactly` | src/app/ClusterStateCache.cpp:546-565 | the filters that are not skipped are exactly those, in order, of the clusters some requested path names, wildcards aside |
| `ClusterCacheFilters.UnsharedExactly` | src/app/ClusterStateCache.cpp:514-540 | the requests registered are exactly those for all attributes that share no path with a request for a specific attribute |
| `ClusterCacheFilters.PiecesSpelled` | src/app/ClusterStateCache.cpp:567-575 | each filter is written as its start, its cluster path, its version and its end, in order |
| `ClusterCacheFilters.EncodeFilter` | src/app/ClusterStateCache.cpp:553-575 | one filter is written whole or the writer reports that it ran out of room |
| `ClusterCacheFilters.UnsharedMeetsNone` | src/app/ClusterStateCache.cpp:514-540 | a path registered as covering whole clusters meets no requested specific-attribute path |
| `AccessEntries.IsValid` | src/access/AccessControl.cpp:547-621 | an entry is accepted exactly when its auth mode, privilege, subjects and targets obey the rules |
| `AccessEntries.ValidEntryExactly` | src/access/AccessControl.cpp:547-621 | an entry is valid exactly if its fabric is defined, it is for CASE or, without administering, for a group, and every subject and target is of the required form |
| `AccessEntries.ValidSubjectExactly` | src/access/AccessControl.cpp:72-90 | which numbers are valid node, group and CAT subjects |
| `AccessEntries.ValidTargetIdsExactly` | src/lib/core/DataModelTypes.h:89-125 | which numbers are valid cluster and device type ids: standard ones, or a manufacturer's in its range |
| `AccessEntries.PrivilegeOrder` | src/access/AccessControl.cpp:51-70 | the privileges are ordered View, Operate, Manage, Administer, with ProxyView between View and Administer only, and an entry grants exactly those up to its own |
| `AccessEntries.Check` | src/access/AccessControl.cpp:308-467 | on valid entries the decision is: allowed exactly for PASE or when some entry of the fabric matches auth mode, privilege, subject and target; never an inconsistency error |
| `AccessEntries.AllowedExactly` | src/access/AccessControl.cpp:308-467 | the rule itself: a PASE session, or an entry of the subject's fabric and auth mode whose privilege is at least the one needed, with no subjects or one that is met, and no targets or one that fits the path |
| `AccessEntries.SubjectMatchesExactly` | src/lib/core/CASEAuthTag.h:162-178 | a subject is met by the same number, or, for a CAT, by a tag of the same identifier and at least its version |
| `AccessEntries.OrderDoesNotMatter` | src/access/AccessControl.cpp:341-466 | the order of the entries does not change the decision |
| `AccessEntries.ImpliedPrivilegesAllowed` | src/access/AccessControl.cpp:51-70 | allowing a privilege allows every privilege it implies |
| `AccessStore.Position` | src/access/examples/ExampleAccessControlDelegate.cpp:454-478 | an index among a fabric's entries denotes a stored entry exactly when the fabric has that many |
| `AccessStore.RemoveAt` | src/access/examples/ExampleAccessControlDelegate.cpp:1078-1124 | removing a stored entry removes one index of its fabric and nothing of any other |
| `AccessStore.CreateExactly` | src/access/AccessControl.cpp:205-229 | which creations are refused and with which error; any other one puts the entry last among those of its fabric and announces that index |
| `AccessStore.UpdateExactly` | src/access/AccessControl.cpp:231-239 | which updates are refused; any other one replaces that entry and no other, and announces it |
| `AccessStore.DeleteExactly` | src/access/AccessControl.cpp:241-261 | which deletions are refused; any other one takes out that entry and no other, and announces it |
| `AccessStore.PerformReplays` | src/access/AccessControl.cpp:205-261 | replaying what an operation announces rebuilds a fabric's entries exactly unless a valid update of a stored entry moves it into another fabric, from or into that one |
| `AccessStore.MoveSpoilsMirrors` | src/access/AccessControl.cpp:231-239 | an update that moves an entry from fabric 1 to fabric 2 and leaves the mirrors of both wrong |
| `AccessStore.PerformKeepsLimit` | src/access/AccessControl.cpp:205-239 | an operation keeps every fabric within its number of entries, except exactly when it puts an entry into a fabric other than the caller's that is full |
| `AccessStore.BuiltWithinLimit` | src/access/AccessControl.cpp:205-239 | every store built by operations that leave entries in the caller's fabric keeps that limit |
| `AccessStore.LimitOverrun` | src/access/AccessControl.cpp:205-239 | two creations through fabric 1 that put two entries into fabric 2, where one is allowed |
| `AccessStore.RunReplays` | src/access/AccessControl.cpp:205-261 | over any run of operations that keep entries in their fabrics, a listener present throughout rebuilds each fabric's entries |
| `AccessStore.BuiltFromEmpty` | src/access/AccessControl.cpp:205-239 | every store built from empty by validated operations holds valid entries only |
| `AccessStore.CheckBuilt` | src/access/AccessControl.cpp:308-467 | on every such store the decision is the rule, whatever operations built it |
| `BulkDeletion.SurvivorsAre` | src/access/AccessControl.h:578-597 | an entry is left exactly when its own deletion failed |
| `BulkDeletion.SuccessMeansEmpty` | src/access/AccessControl.h:578-597 | the result is a success exactly when nothing is left |
| `BulkDeletion.FirstFaultIs` | src/access/AccessControl.h:578-597 | the error returned is that of the first attempt that failed |
| `BulkDeletion.BulkDeletionExact` | src/access/AccessControl.h:578-597 | whatever deletions fail: every original entry is attempted once, the failed ones stay in order, the first error is returned, other fabrics keep their entries, and replay keeps up |
| `AccessControl.AccessControl.AddEntryListener` | src/access/AccessControl.cpp:263-286 | a new listener goes to the end of the linked list, one already in it changes nothing, and the links stay acyclic |
| `AccessControl.AccessControl.RemoveEntryListener` | src/access/AccessControl.cpp:288-306 | a listener is unlinked if present, and the others keep their order |
| `AccessControl.AccessControl.NotifyEntryChanged` | src/access/AccessControl.cpp:623-630 | every listener hears a change exactly once |
| `AccessControl.AccessControl.CreateEntry` | src/access/AccessControl.cpp:205-229 | creation validates, checks the limits of the caller's fabric and of the store, stores and announces |
| `AccessControl.AccessControl.UpdateEntry` | src/access/AccessControl.cpp:231-239 | update validates, finds by fabric index, stores and announces |
| `AccessControl.AccessControl.DeleteEntry` | src/access/AccessControl.cpp:241-261 | deletion by fabric index with the entry read beforehand only if somebody listens; a failed one announces nothing |
| `AccessControl.AccessControl.DeleteAllEntriesForFabric` | src/access/AccessControl.h:578-597 | the loop carries out exactly the sequence of deletions whose outcome BulkDeletionExact states, and listeners hear exactly its changes |
| `ListenerRuns.Run` | src/access/AccessControl.cpp:205-306 | over any sequence of creations, updates, deletions, and listeners added and removed, a listener that is present throughout is told exactly the changes of the run, in order, whatever deletions fail |
| `ListenerRuns.ListenerRebuilds` | src/access/AccessControl.cpp:205-306 | if the updates keep entries in their fabrics, it can rebuild the entries of any fabric from what it was told |
| `InvokeResponse.AddToReady` | src/app/CommandHandler.cpp:498-581 | adding a block to a fresh message gives the complete message or fails, and which builders are spoilt depends on where the room ran out |
| `InvokeResponse.AddToDoomed` | src/app/MessageDef/InvokeResponseIBs.cpp:73-86 | once the builder of the responses failed or was closed, or the packet is full, no later attempt completes a message |
| `InvokeResponse.AddStatusExact` | src/app/CommandHandler.cpp:458-472 | a status response ends as one complete message with that status for that path exactly if nothing is spoilt and it fits |
| `InvokeResponse.AddDataExact` | src/app/CommandHandler.h:208-220 | response data ends as one complete message with those fields under the response's id exactly if nothing is spoilt and it fits; otherwise the handler is idle again |
| `InvokeResponse.MessagesSpelled` | src/app/CommandHandler.cpp:498-581 | what a complete data or status message is, element by element |
| `InvokeResponse.RunSound` | src/app/CommandHandler.h:209-248 | after any sequence of AddResponse, AddResponseData and AddStatus calls the state says added only for one complete message |
| `InvokeResponse.FirstResponseStays` | src/app/CommandHandler.cpp:498-521 | once a response was added, no later call changes it |
| `InvokeResponse.AddResponseExact` | src/app/CommandHandler.h:221-248 | exactly when AddResponse ends with the data, with a Failure status, or with nothing that can be sent, for an idle handler whatever was attempted before |
| `InvokeResponse.FallbackLost` | src/app/CommandHandler.cpp:573-581 | for every packet size in which the Failure status fits, a response for which it is not sent, because rolling back leaves the nested builder closed |
| `CommandHandler.Handle.constructor` | src/app/CommandHandler.cpp:620-628 | a handle on a handler holds it off; a null one does not |
| `CommandHandler.Handle.Move` | src/app/CommandHandler.h:114-120 | a moved handle passes its hold on and becomes null |
| `CommandHandler.Handle.Assign` | src/app/CommandHandler.h:125-133 | move assignment releases first, then takes over, also on itself and between handlers |
| `CommandHandler.Handle.Release` | src/app/CommandHandler.cpp:607-616 | a release gives up one hold, once |
| `CommandHandler.CommandHandler.DecrementHoldOff` | src/app/CommandHandler.cpp:187-214 | the last hold to go sends the response unless a status was sent, the exchange is gone or a group, and then calls OnDone |
| `CommandHandler.CommandHandler.SendCommandResponse` | src/app/CommandHandler.cpp:216-233 | the response is sent exactly when nothing is pending, a command was added, an exchange is there and takes the message |
| `CommandHandler.CommandHandler.StartInvoke` | src/app/CommandHandler.cpp:70-87 | a request takes the exchange over and a work handle is created |
| `CommandHandler.CommandHandler.FinishInvoke` | src/app/CommandHandler.cpp:88-98 | a failed request sends its status at once, and the work handle goes |
| `CommandHandler.CommandHandler.AddResponseData` | src/app/CommandHandler.h:208-220 | data that could not be encoded is rolled back to the checkpoint |
| `CommandHandler.CommandHandler.AddResponseOrFailure` | src/app/CommandHandler.h:238-248 | the data, or else a Failure status, is added |
| `CommandHandler.HoldOffConserved` | src/app/CommandHandler.cpp:182-214 | for every interleaving of creating, moving and releasing handles: OnDone once, when the last goes; at most one message, and an invoke response only if complete |
| `CommandHandler.FailureReported` | src/app/CommandHandler.cpp:88-98 | over a whole run in which the request failed the one message sent is its status, and there is none exactly if the exchange was gone or did not take it |
| `CommandHandler.FailedRequestAnswered` | src/app/CommandHandler.cpp:88-98 | so a request that failed while its exchange was open is answered with just its status, whatever was added to the response |
| `CommandHandler.LastHandleSends` | src/app/CommandHandler.cpp:187-233 | the last handle sends the response exactly if it was completed, no status was sent and a unicast exchange takes it; then OnDone is called |
| `CommandHandler.AddedResponseDelivered` | src/app/CommandHandler.cpp:187-233 | once a response was added and nothing disturbs it, it is the one message sent when the last handle goes |
| `CommandSender.CommandSender.FinishCommand` | src/app/CommandSender.cpp:419-432 | of several timed-invoke timeouts the least one counts |
| `CommandSender.CommandSender.SendCommandRequest` | src/app/CommandSender.cpp:65-111 | exactly when a request is launched, and into which state; a launch that fails after the first checks has handed over the packet, and may hold an exchange |
| `CommandSender.CommandSender.OnMessageReceived` | src/app/CommandSender.cpp:144-217 | one message is processed by state and kind, its error reported, and the sender closed unless the invoke was just sent |
| `CommandSender.CommandSender.ProcessInvokeResponse` | src/app/CommandSender.cpp:219-254 | the blocks before the first malformed one are reported in order |
| `CommandSender.RunStays` | src/app/CommandSender.cpp:132-217 | what the trace of a launched sender can be, whatever arrives |
| `CommandSender.ToldExactly` | src/app/CommandSender.cpp:281-360 | each block gets one callback, in order: a response for data or a success, an error with the cluster's status or else the general one for a failure |
| `CommandSender.ResponseTold` | src/app/CommandSender.cpp:144-254 | a sender waiting for its response tells each block before the first malformed one, then the error, if any, answered by a status response, and is done |
| `CommandSender.OtherwiseAnError` | src/app/CommandSender.cpp:144-279 | any other message, or none, ends in the one error it calls for, answered by a status response except for a failure in the handshake or on another exchange |
| `CommandSender.HandshakeSends` | src/app/CommandSender.cpp:144-189 | a success in the handshake sends the invoke request or reports why it could not be sent |
| `CommandSender.SenderLifecycle` | src/app/CommandSender.cpp:132-279 | OnDone once and last, at most two events consumed, the invoke sent at most once and for a timed one only right after a success |
| `ChunkedWrite.ChunkedWriteCallback.OnResponse` | src/app/ChunkedWriteCallback.cpp:24-55 | an append to the same path merges its status, anything else reports the run before and starts a new one |
| `ChunkedWrite.ChunkedWriteCallback.OnDone` | src/app/ChunkedWriteCallback.cpp:62-76 | the last run is reported and the callback is as new |
| `ChunkedWrite.VerdictIsFirstFailure` | src/app/ChunkedWriteCallback.cpp:34-40 | a run reports its first failure, or its last status if there is none |
| `ChunkedWrite.WritesMerged` | src/app/ChunkedWriteCallback.cpp:24-89 | over every stream closed by OnDone the application gets one report per run, in order |
| `ChunkedWrite.OwedExactly` | src/app/ChunkedWriteCallback.cpp:24-89 | a report starts at each response that is not an append to the path of the one before; it is for that path, with the first failure up to the next start or else the last status |
| `ChunkedWrite.ListReportedOnce` | src/app/ChunkedWriteCallback.h:27-35 | a list answered by a first response and appends gets one report, a success exactly if all succeeded |
| `DeferredPersistence.DeferredAttributePersistenceProvider.WriteValue` | src/app/DeferredAttributePersistenceProvider.cpp:45-58 | a write to a deferred path arms its slot and flushes; any other goes straight to the persister |
| `DeferredPersistence.DeferredAttributePersistenceProvider.FlushAndScheduleNext` | src/app/DeferredAttributePersistenceProvider.cpp:66-95 | what is due is persisted and disarmed, and the timer set to the earliest deadline left |
| `DeferredPersistence.FlushNext` | src/app/DeferredAttributePersistenceProvider.cpp:69-85 | the deadline computed is that of some armed slot and no later than any |
| `DeferredPersistence.StepGood` | src/app/DeferredAttributePersistenceProvider.cpp:45-95 | every write and timer keeps each armed slot holding the last value written, due its delay after the write and after the last look through the slots, each other slot's last value persisted once it had waited, and the timer at the earliest deadline |
| `DeferredPersistence.RunGood` | src/app/DeferredAttributePersistenceProvider.cpp:45-95 | the same over every run |
| `DeferredPersistence.ReturnsOnTime` | src/app/DeferredAttributePersistenceProvider.cpp:45-58 | a call returns with every deadline ahead of the clock exactly if it is a timer firing or a deferred write, nothing is armed, or the timer is not overdue |
| `DeferredPersistence.RunReturnsOnTime` | src/app/DeferredAttributePersistenceProvider.cpp:45-58 | the same after every run |
| `DeferredPersistence.DirectWriteLate` | src/app/DeferredAttributePersistenceProvider.cpp:45-58 | a run after which a deadline has passed: a direct write while the timer is late |
| `DeferredPersistence.RunPersistsInTime` | src/app/DeferredAttributePersistenceProvider.h:60-68 | whatever is persisted for a deferred path is its last value, left alone for the delay |
| `DeferredPersistence.FiringProgresses` | src/app/DeferredAttributePersistenceProvider.cpp:66-95 | each firing of the timer disarms something while anything is armed |
| `DeferredPersistence.DrainedIsPersisted` | src/app/DeferredAttributePersistenceProvider.h:60-68 | once no timer is set the last effective write to each deferred path is the one persisted |
| `DeferredPersistence.WriteTakesEffect` | src/app/DeferredAttributePersistenceProvider.cpp:24-36 | a deferred write takes effect exactly if it has bytes or something was armed |
| `DeferredPersistence.DirectWriteExactly` | src/app/DeferredAttributePersistenceProvider.cpp:45-58 | a write to a path that is not deferred is the last one persisted for it if the persister accepts it, and changes nothing else |
| `DeferredPersistence.EmptyWriteDropped` | src/app/DeferredAttributePersistenceProvider.cpp:24-36 | a write of no bytes to an idle slot reports success and is lost |

## Left out

- Tlv.Writer.Put: the maximum length of a writer, whose check fails before anything is written, is not modelled; the room left is the only limit.
- ReportEngine.AttributeReporter.SendReports: drives one attribute of at most 65535 items, because from there on the saved index no longer says where the list stopped (`ResumesWhereStopped`), from an unchanging list; several attributes per read, event reports, subscriptions and a list that changes between packets are not modelled.
- ChunkingRoundTrip.ReadListAttribute: the same bound; `ItemsRepeat` and `ReportEngine.TooManyItems` show what comes beyond it.
- BufferedStream.StreamMeetsSpec: is about blocks of list operations that start with the whole list; `StreamExactly` is about all.
- PathIterator.Collect: is about requests that block no iteration; `Iterate` is about all.
- ClusterCacheFilters.OnUpdateDataVersionFilterList: out of room is the only encoding error.
- AccessStore.RunReplays: is about updates that keep the entry's fabric; `PerformReplays` says what the others do.
- AccessControl.AccessControl.DeleteAllEntriesForFabric: assumes that the entry count can be read, as the delegate modelled always can.
- AccessControl.AccessControl.DeleteEntry: the delegate always keeps the entry that was read beforehand; a listener may be told of a removal without the entry when no copy could be kept.
- CommandHandler.HoldOffConserved: the engine is not restarted while handles are out, and no second message reaches the handler; `OnMessageReceived`, which answers one, is not modelled.
- InvokeResponse.RunSound: an application adds responses by AddResponse, AddResponseData and AddStatus; calling the prepare and finish steps itself is not modelled.
- DeferredPersistence.RunGood: distinct paths, allocation and the persister succeed, and a time stamp plus the delay does not reach the greatest one, as the system clock's documentation promises; deadlines are compared with the last look through the slots, and `ReturnsOnTime` says when they are ahead of the clock.
- CommandSender.CommandSender.SendCommandRequest: launching again after a launch that failed once the packet had been handed over is excluded, because the writer no longer has a packet.
- CommandSender.SenderLifecycle: a callback is set; group requests are not modelled.
- TLV bytes: elements are values with a size, paths and other small structures are single elements, and text or integer encodings are not modelled.
- Packet buffers: allocation failures are not modelled, except where a method takes the result as a parameter.
- The set of request paths of the cache is a mathematical set, because its comparator is not a strict weak ordering.
- Equal sizes in the sorted filter list: the sort is by insertion, the original leaves the order of equal ones open.
- Delegates, iterators and entry pools of the access control example delegate, and its persistence: entries are values.
- Device types of endpoints: an arbitrary relation.
- Order of the cache's change callbacks (`ClusterCache.DeliverReport` says what they name), its event cache, and reading cached data back.
- Processing of invoke requests (decoding, access checks, dispatch to clusters, group commands): its status and the calls an application makes meanwhile are arbitrary.
- Event management, session and exchange management, subscriptions and the write client's encoder: other components.
