# Badge scanner: a verified model

A model, in Dafny, of the parts of the badge scanner where state changes step by step and a guarantee is
meant to survive it, with proofs of those guarantees. Nothing was executed; every statement below is what
the verifier has accepted.

| module | models |
|---|---|
| `RateLimit` | the lookup limiter: check, slow lookup and record of many calls, interleaved without a lock |
| `LookupProtocol` | the C client's connection to the server: FIFO channels, losses, timeouts, error frames, reconnects |
| `ClusterCache` | loading clusters through a cache whose lock is released around every network request |
| `SeatMap` | the one-pass scan of a cluster drawing against nested transform evaluation |
| `CaFetch` | the paginated listing with a visited set |
| `Wiegand`, `Decimal`, `UidHex`, `Text` | badge numbers, decimal and hexadecimal printing and reading, the reader's buffer, string functions |
| `Directory` | the cached directory, its refreshes, manual badge links, badge lookup |
| `IntraCache` | the merging refreshes of a 42 record, and the choice of a coalition |
| `RecordHistory` | the cached record under refreshes and resolutions together |
| `Resolve` | resolving a badge through directory, links, cache and the 42 API |
| `Grouping`, `UserRows` | the user list: entries of one person merged, their blames counted once |
| `Sorting`, `UserOrder` | stable sorting, the filters and the three orders of the user list |
| `Debounce` | the card reader loop with its restarts |
| `LocalStore` | the GUI's notes, flags and hidden entries, in memory and in the state file |

Concurrent behaviour is a total step function: a step that is impossible in a state changes nothing, so a
statement over every sequence of steps is a statement over every interleaving. Remote services are values
or functions that the statements quantify over. Tables are sequences and maps with atomic statements.
Sequential code that updates fields or local variables is a class or a loop, proved against a function;
the lemmas are about that function. Queries and writes succeed unless a parameter says otherwise.

Where the code and what is written about it disagree, the model follows the code:

- `c-client/README.md` line 167 calls the reader debounced per UID. The code remembers one UID only, so A, B, A
  in quick succession reports A twice (`AlternatingBadges`, exactly when: `ReportedAgainExactly`).
- `c-client/README.md` lines 144-149 promise that deleted entries stay hidden across restarts. They do until
  the next save (`HiddenUntilNextSave`, `DeletedComesBack`). Notes are lost in the same way after a start
  whose history fetch failed (`FailedFetchLosesNotes`, exactly when: `NoteSurvivesExactly`).
- The rate limit does not hold while count queries fail, because a failed count lets the call through
  (`FailedCountsRemoveTheLimit`). Each failed count of a window is worth one row in it, and no more
  (`FailuresCostOneEach`, `CostIsAttained`); a closed minute with both windows limited needs both
  (`MinuteReachedExactly`).
- A manual link made with spaces around a valid UID text is stored under a key no scan asks for
  (`SpacedLinkIsLost`, exactly when: `AssociationFoundExactly`).
- A listing of more than 10,001 pages is cut short without an error (`LongListingIsCut`, exactly when:
  `NothingIsLostExactly`). Repeated and cyclic links lose nothing, unless the server answers the same URL
  differently the second time (`ChangingListingIsCut`, `CrawlIsCompleteExactly`).
- A card that answers without any UID byte is accepted, and the text buffer is then left as it was
  (`EmptyUidIsAccepted`, `ReadUid`).
- A failed coalition request during a resolution leaves a blank coalition and no error flag in the cached
  record (`FailedCoalitionLeavesNoFlag`, `CoalitionIsForgotten`), and a failed profile request of a
  resolution leaves no flag either. When fields and flags are right all the same is
  `RecordIsPromisedExactly`.
- Occupants fetched for one campus can be cached under another; results are right all the same
  (`OccupantsCanLandInAnotherEntry`, exactly when: `CachedOccupantsExactly`; `LoadedIsAuthentic`).

## Model

| member | source | states |
|---|---|---|
| RateLimit.SlidingWindowBound | backend/internal/api/lookup_handlers.go:37-67 | Over every interleaving whose counts succeed and with at most C calls of a key between count and record, no closed window (minute or hour) of timestamps holds more than L+C-1 rows of the key. |
| RateLimit.SequentialCallsKeepTheLimit | backend/internal/api/lookup_handlers.go:37-67 | With one call in flight at a time the limit itself holds for every window, however slow the lookups are. |
| RateLimit.LimitsByTheClock | backend/internal/api/lookup_handlers.go:38-49 | The same bounds with the windows spelled out, 60000 and 3600000 ms. |
| RateLimit.BoundIsAttained | backend/internal/api/lookup_handlers.go:38-49 | For every L, C and window there is a run that reaches exactly L+C-1 rows without a failed count for that window: the bound cannot be lowered. If the other window is limited too, its counts fail as often as those rows need. |
| RateLimit.FailuresCostOneEach | backend/internal/api/lookup_handlers.go:37-67 | Over every interleaving, failed counts included, no closed window holds more than L+C-1 rows of the key plus one for every count that failed. |
| RateLimit.CostIsAttained | backend/internal/api/lookup_handlers.go:39-42 | For every L, C, window and number F of failed counts for it there is a run that reaches exactly L+C-1+F rows, with as many failed counts for the other window as those rows need. |
| RateLimit.BoundNeedsCounts | backend/internal/api/lookup_handlers.go:39-42 | L+C-1 bounds all runs with at most F failed counts for the window, whatever the counts for the other window do, if and only if F is 0. |
| RateLimit.MinuteReachedExactly | backend/internal/api/lookup_handlers.go:37-67 | With any two limits and at most C > 0 calls in flight, n rows can get into one closed minute if and only if, for each limited window, n-(L+C-1) of its counts may fail, where that is positive. |
| RateLimit.MinuteNeedsFailures | backend/internal/api/lookup_handlers.go:37-67 | Over every interleaving the rows of any closed minute have cost that many failed counts of either window. |
| RateLimit.CheapestRun | backend/internal/api/lookup_handlers.go:37-67 | For every n and C there is a run that gets n rows into one minute and one hour with exactly the failed counts they need for each window. |
| RateLimit.FailedCountsRemoveTheLimit | backend/internal/api/lookup_handlers.go:39-49 | A sequential caller reaches n rows in one window, for every n and any limits, with exactly one failed count of each limited window for every row beyond its limit. |
| RateLimit.RowsAreRecordedCalls | backend/internal/store/api_keys.go:151-161 | In every run the rows of a key are as many as its answered and recorded calls: rejected and failed calls add none. |
| RateLimit.RejectionsAreJustified | backend/internal/api/lookup_handlers.go:38-49 | Every rejection happened with a positive limit and at least L rows in the window that ended when it read the clock. |
| RateLimit.RejectionsMetFullWindows | backend/internal/api/lookup_handlers.go:38-49 | Every rejection met a full minute or hour of rows up to the clock reading it was judged by. |
| RateLimit.BudgetStep | backend/internal/api/lookup_handlers.go:37-67 | The invariant of every step: rows in a window plus calls that may still land in it never exceed L+C-1, plus one for every count that has failed. |
| RateLimit.UndisturbedIsARun | backend/internal/api/lookup_handlers.go:37-67 | A call run alone by the handler is a run of the step machine with the same rows and outcome. |
| RateLimit.UsageLog.CountUsageSince | backend/internal/store/api_keys.go:165-171 | The count of a key's rows not older than the given time. |
| RateLimit.UsageLog.PerformLookup | backend/internal/api/lookup_handlers.go:37-67 | Table and outcome of a call as a function of the old table, the clock readings and which queries succeeded. |
| LookupProtocol.RepliesMatchTaps | c-client/src/lookup_client.c:52-77 | In every run every successful tap returned the payload that some step of the run resolved a lookup to: the server's answer to a request with that tap's own UID and number, or the answer to that tap's own HTTP request. |
| LookupProtocol.ServedByAStep | backend/internal/api/lookup_handlers.go:130-140 | Every completed lookup was resolved to its payload by a step that handled just that request. |
| LookupProtocol.OneFramePerAnswer | backend/internal/api/lookup_handlers.go:121-143 | A written answer is one frame: the lookup's payload when it resolved for a non-empty UID, an error otherwise; nothing else on any connection changes, and the server stops only when a reply cannot be written. |
| LookupProtocol.UndisturbedTapSucceeds | c-client/src/lookup_client.c:52-77 | A run in which a tap gets the payload its UID is resolved to, for every UID and payload. |
| LookupProtocol.UndisturbedHttpTapSucceeds | c-client/src/lookup_client.c:53-57 | The same over HTTP. |
| LookupProtocol.OneLookupPerTap | backend/internal/api/lookup_handlers.go:121-143 | No two completed lookups belong to the same tap. |
| LookupProtocol.NothingOutstandingBetweenTaps | c-client/src/lookup_client.c:57-66 | Whenever the client is in WebSocket mode and not waiting, nothing it asked is pending or unread on its connection. |
| LookupProtocol.InvRun | c-client/src/httpc.c:191-231 | The protocol invariant holds along every run: at most one outstanding request per connection, of a tap with that UID, and every reply frame is backed by a lookup of its tap. |
| LookupProtocol.UniqRun | backend/internal/api/lookup_handlers.go:121-143 | Along every run pending requests of different connections belong to different taps, none of them served. |
| LookupProtocol.TapEndsWithReceive | c-client/src/httpc.c:204-231 | However the other side interleaves, a waiting tap ends exactly as the bounded receive loop ends on what it saw. |
| LookupProtocol.ReceiveIsFirstArrival | c-client/src/httpc.c:204-231 | The receive loop returns what arrived first within its bounded number of polls, and a timeout only if nothing did. |
| LookupProtocol.LookupClient.EnsureConnected | c-client/src/lookup_client.c:30-46 | Connects with the first attempt that is not refused; a connected client is left alone. |
| LookupProtocol.LookupClient.ReceiveResult | c-client/src/httpc.c:204-231 | The loop over waited milliseconds is the receive function. |
| LookupProtocol.LookupClient.Tap | c-client/src/lookup_client.c:52-77 | Success over the WebSocket is what was received and keeps it open; any failure closes it; HTTP mode is never left. |
| LookupProtocol.SentTapIsARun | c-client/src/lookup_client.c:59-76 | A tap of the step machine, however server and network interleave, ends with the result and in the mode that the method gives for what its receives report. |
| LookupProtocol.UnsentTapIsARun | c-client/src/lookup_client.c:59-64 | The same for a tap whose request cannot be sent. |
| LookupProtocol.HttpTapIsARun | c-client/src/lookup_client.c:53-57 | The same for a tap in HTTP mode, connecting included. |
| ClusterCache.LoadedIsAuthentic | backend/internal/service/clusters.go:40-90 | Under every interleaving an error-free result has list and drawings fetched by one call for the requested campus, occupants fetched for it by this very call, clusters in increasing order of number, and layouts for exactly the listed clusters. |
| ClusterCache.LoadedShows | backend/internal/service/clusters.go:40-90 | Every error-free result seats exactly those that this call's fetch for the campus answered, lists exactly the fetched clusters, and has for each the layout of the drawing fetched from its own link. |
| ClusterCache.FetchesAreAnswers | backend/internal/service/clusters.go:63-80 | What was fetched is what the remote side answered at some step to a call that was waiting for just that campus or link. |
| ClusterCache.NumberInName | backend/internal/service/clusters.go:113-123 | The first run of digits in a name, taken as long as possible, is its number; a name without one, or with one beyond 64 bits, has the greatest. |
| ClusterCache.CacheIsTransparent | backend/internal/service/clusters.go:40-90 | Against a steady remote side every error-free result equals an uncached load, whatever the interleaving. |
| ClusterCache.OccupantsCanLandInAnotherEntry | backend/internal/service/clusters.go:42-55 | For any two campuses there is a run that leaves the occupants of one in the cache entry of the other. |
| ClusterCache.CachedOccupantsExactly | backend/internal/service/clusters.go:42-55 | Against a steady remote side that seats two campuses differently, the cached occupants are those of the cached campus if and only if the last write came from a call for that campus. |
| ClusterCache.WriterRun | backend/internal/service/clusters.go:50-52 | Along every run the cached occupants are those the last writer fetched, for the campus it was called for. |
| ClusterCache.LoadIsARun | backend/internal/service/clusters.go:40-90 | A load by the undisturbed method, from any state and with any failures, is a run of the step machine with the same result and cache. |
| ClusterCache.InvStep | backend/internal/service/clusters.go:40-90 | Every step keeps: the cached clusters and layouts were fetched for the cached campus, and every call holds only what it may. |
| ClusterCache.LayoutsCoverClusters | backend/internal/service/clusters.go:71-78 | An id has a layout if and only if some listed cluster has that id. |
| ClusterCache.LayoutOfLast | backend/internal/service/clusters.go:71-78 | The last cluster with an id has the layout of its own drawing. |
| ClusterCache.BuildLayouts | backend/internal/service/clusters.go:71-78 | Fails if and only if some drawing cannot be fetched; otherwise the layout map of all drawings. |
| ClusterCache.BuildOccupants | backend/internal/service/clusters.go:97-111 | A host is in the map exactly when some location has it, with the login and photo of the last location of that host. |
| ClusterCache.ClusterService.LoadClusters | backend/internal/service/clusters.go:40-90 | The undisturbed method: result and cache on hits, forced loads, and every failure. |
| SeatMap.Parse | backend/internal/clustersvg/clustersvg.go:58-119 | The loop over the tags with one group transform yields the scan of the token sequence; on a well-shaped document with aligned transforms there is one seat for every seat element and one label for every row label, in order, both corners of a seat being the images of the element's corners. |
| SeatMap.FlatScanIsNested | backend/internal/clustersvg/clustersvg.go:65-117 | On a well-shaped document with axis-aligned matrices the flat scan places every seat and label as nested SVG evaluation does. |
| SeatMap.ScanIsNested | backend/internal/clustersvg/clustersvg.go:65-117 | The same for any part of a document, from any point where the two evaluations are in step. |
| SeatMap.ScanShows | backend/internal/clustersvg/clustersvg.go:52-56 | For any part of such a document, the seats with their names and corners and the labels with their texts and points are those of its elements under all the transforms on the way. |
| SeatMap.ShapeDecides | backend/internal/clustersvg/clustersvg.go:65-117 | The side condition is exact: a document has it if and only if the scan agrees with nested evaluation for all axis-aligned transforms put at the same tags. |
| SeatMap.IllShapedDiffers | backend/internal/clustersvg/clustersvg.go:145-161 | A document without the shape comes with a tag whose shift alone makes the two evaluations differ. |
| CaFetch.FetchAllUsers | backend/internal/caclient/caclient.go:54-110 | Terminates against any server that answers; requests a chain of links without repetition, at most 10,001 of them; returns their parsable entries in order, or fails exactly at a refused request. |
| CaFetch.ParsedIs | backend/internal/caclient/caclient.go:95-99 | Of a page's entries the parsable ones are kept, parsed, in order. |
| CaFetch.CrawlIsCompleteExactly | backend/internal/caclient/caclient.go:73-108 | Against a server with a complete listing, which may answer the same URL differently, it never fails, and returns all pages if and only if no URL repeats and there are at most 10,001 pages; otherwise a proper part of them. |
| CaFetch.CrawlFollowsListing | backend/internal/caclient/caclient.go:73-108 | What is requested is a prefix of the listing. |
| CaFetch.NothingIsLostExactly | backend/internal/caclient/caclient.go:57-64 | Against a server whose answers depend on the URL alone, cyclic or endless links included, a crawl without an error has requested every page that any walk along the links reaches if and only if it was not the page limit that ended it. |
| CaFetch.LongListingIsCut | backend/internal/caclient/caclient.go:61-63 | For every n > 0 a server with a complete listing of n distinct URLs, of which exactly the first 10,001, or all if there are fewer, are requested, without an error. |
| CaFetch.ChangingListingIsCut | backend/internal/caclient/caclient.go:61-63 | A server that answers one URL with a link to itself and then without one: the crawl returns the first page only. |
| Wiegand.Wiegand26Value | backend/internal/wiegand/wiegand.go:49-76 | The code read as a number is facility·100000+card, and division by 100000 recovers both. |
| Wiegand.CodesOfBytes | backend/internal/wiegand/wiegand.go:60-64 | The facility is byte 2, the card number has byte 1 above byte 0, the code reads as 100000 times byte 2 plus 256 times byte 1 plus byte 0, and the MIFARE and premium numbers have the four bytes in either order. |
| Wiegand.FourBytes | backend/internal/wiegand/wiegand.go:53-59 | The four bytes are the first four of the UID, or all of it after zeros. |
| Wiegand.PrintedCodes | backend/internal/wiegand/wiegand.go:66-75 | The printed codes: facility and card with five digits or as it is, and the bytes in upper-case hexadecimal. |
| Wiegand.KnownBadge | backend/internal/wiegand/wiegand.go:49-76 | All eight codes of the UID E0 1C BE DB. |
| Wiegand.SameWiegand26 | backend/internal/wiegand/wiegand.go:49-76 | Two UIDs share the padded code if and only if their padded first three bytes agree. |
| Wiegand.PremiumReverses | backend/internal/wiegand/wiegand.go:49-76 | The premium number is the MIFARE number of the reversed bytes. |
| Wiegand.PremiumInjective | backend/internal/wiegand/wiegand.go:49-76 | Two UIDs share the premium number if and only if their four padded bytes agree. |
| Wiegand.UnpaddedAgrees | backend/internal/wiegand/wiegand.go:49-76 | The unpadded code equals the padded one if and only if the card number has five digits. |
| Wiegand.UnpaddedCollides | backend/internal/wiegand/wiegand.go:49-76 | Two different facility and card pairs share the unpadded code. |
| Wiegand.UnpaddedSharedExactly | backend/internal/wiegand/wiegand.go:49-76 | Two UIDs share the unpadded code if and only if the codes read as the same number and both facilities are zero or neither is. |
| Wiegand.CACandidates | backend/internal/wiegand/wiegand.go:25-35 | The loop over a seen set yields the three forms without repetition in order. |
| Wiegand.CandidatesInOrder | backend/internal/wiegand/wiegand.go:25-35 | No candidate repeats and the padded code is first. |
| Wiegand.CandidatesSpelled | backend/internal/wiegand/wiegand.go:25-35 | The candidates are the padded code, the unpadded one and the premium number, in this order, each once. |
| Wiegand.CandidatesParse | backend/internal/store/ca_directory.go:129-148 | Every candidate of every UID parses back within int64 to one of its three numbers, so none is skipped. |
| UidHex.ReadUid | c-client/src/pcsc.c:40-64 | All writes stay in the buffer; the text and its NUL are there exactly when the response is good and fits; otherwise, and for a UID without bytes, nothing is written. |
| UidHex.EmptyUidIsAccepted | c-client/src/pcsc.c:54-59 | The two status bytes alone are accepted as a response whenever the buffer has room. |
| UidHex.CardToBackend | c-client/src/pcsc.c:58-63 | For every UID of 1 to 31 bytes the backend decodes the client's text to the same bytes, and its UIDHex is the same text. |
| UidHex.BackendReads | backend/internal/wiegand/wiegand.go:79-85 | Trimming and decoding the client's text gives back the bytes, for any number of them. |
| UidHex.DecodeUndoesEncode | backend/internal/wiegand/wiegand.go:79-85 | Reading upper-case hexadecimal undoes printing it. |
| UidHex.EncodeUndoesDecode | backend/internal/wiegand/wiegand.go:67 | Printing undoes reading, up to letter case. |
| UidHex.DecodeIgnoresCase | backend/internal/wiegand/wiegand.go:79-85 | Upper-casing a text does not change what it decodes to. |
| Wiegand.UidTextsExactly | backend/internal/wiegand/wiegand.go:79-85 | A text has codes if and only if, without surrounding space, it is a positive number of pairs of hexadecimal digits. |
| UidHex.UidsThatFit | c-client/src/pcsc.c:59 | The buffer of 64 characters takes exactly the UIDs of up to 31 bytes. |
| Directory.PiscineLogin | backend/internal/logins/logins.go:10-36 | The loop with its flag: the last word of a piscine name, lower-cased, if it looks like a login and has a letter. |
| Directory.PiscineLoginIs | backend/internal/logins/logins.go:10-36 | The login is the word after the last space of the trimmed name, in lower case, if the name says [piscine] and the word has login characters only and a letter; otherwise there is none. |
| Directory.RebuildKeeps | backend/internal/store/ca_directory.go:94-120 | The insertions succeed if and only if no key repeats, and then the table holds exactly the entries, by key. |
| Directory.Store.ReplaceCADirectory | backend/internal/store/ca_directory.go:94-120 | Succeeds exactly on distinct keys; otherwise nothing changes. |
| Directory.Store.RefreshCADirectory | backend/internal/service/directory.go:14-49 | The new directory and links as a function of the old and of what the listing and the statements gave. |
| Directory.Store.RemoveCADirectoryEntry | backend/internal/store/ca_directory.go:122-125 | Exactly the entries with another key remain, in order; links and time are untouched. |
| Directory.Store.AssociateBadge | backend/internal/service/users.go:465-478 | The text is linked to the lower-cased trimmed login, unless that is blank; every other link, the entries and the time are untouched. |
| Directory.ReachableIsSound | backend/internal/store/ca_directory.go:22-61 | In every reachable directory all entries are listable, keys are distinct and sorted, and no entry lacks a key into the cache or a login to show. |
| Directory.RefreshIsAllOrNothing | backend/internal/service/directory.go:32-44 | A refresh leaves exactly the listable entries and no link, or, on a repeated key, everything as it was. |
| Directory.RefreshKeepsExactly | backend/internal/store/ca_directory.go:43-61 | A refresh that goes through keeps exactly the entries that can be named and are not excluded by [bh] or 3b3, and keeps the links only when they could not be cleared. |
| Directory.LinksFollowHistory | backend/internal/store/manual_links.go:13-35 | After every run a key has the login of its latest association since the last completed clearing. |
| Directory.ScansFindLatestAssociation | backend/internal/service/users.go:465-478 | After every run, a scan of any text that differs from a trimmed UID text only in letter case and surrounding space finds the latest association made for it, and none after a completed refresh. |
| Directory.AssociationFoundExactly | backend/internal/store/manual_links.go:25-30 | In any state, a scan of the text just associated finds that login if and only if the text is trimmed and the login not blank; otherwise it finds what it found before. |
| Directory.SpacedLinkIsLost | backend/internal/store/manual_links.go:25-30 | A link made for the text of a one-byte UID with a space before it is found by no scan of that text, nor of the text without the space. |
| Directory.ScanKey | backend/internal/store/manual_links.go:13-23 | The stored key is the one scans of the same bytes ask for if and only if the text was trimmed. |
| Directory.SameBytesExactly | backend/internal/wiegand/wiegand.go:79-85 | A text stands for the same bytes as a valid one if and only if they differ only in letter case and surrounding space. |
| Directory.FindByBadge | backend/internal/store/ca_directory.go:129-148 | The nested loops over candidates and entries compute the specified hit. |
| Directory.FindInIsFirstHit | backend/internal/store/ca_directory.go:129-148 | The hit is first by candidate and then by entry; there is none only if no entry holds a candidate's number. |
| Directory.FirstHitIsFound | backend/internal/store/ca_directory.go:129-148 | The first hit by candidate and entry is what is found, with its number. |
| Directory.BadgeFoundExactly | backend/internal/store/ca_directory.go:129-148 | A UID is found if and only if some entry holds one of its three numbers. |
| IntraCache.BulkSeesOwnEvents | backend/internal/service/directory.go:93-100 | In a bulk refresh each key sees exactly its own requests. |
| IntraCache.RefreshEach | backend/internal/service/directory.go:93-100 | The bulk loop is the single refresh of every entry in turn, failed requests counting as done. |
| IntraCache.PickIsAMember | backend/internal/service/service.go:343-371 | A coalition is picked unless there is none; it is one of them; a main one wins over any other. |
| IntraCache.PickExactly | backend/internal/service/service.go:340-371 | The pick is the first coalition to go by the earliest main name, or without any the first by the earliest secondary name, or else the first of the highest score. |
| IntraCache.SeatsAfterRefresh | backend/internal/service/users.go:401-418 | A coalition refresh notes the user's seat in the picked coalition when it finds one, and otherwise leaves the noted seat. |
| IntraCache.FirstOfFinds | backend/internal/service/service.go:344-360 | The match has the earliest name that any coalition has, in slug or name, whatever the case. |
| IntraCache.BestOfIsBest | backend/internal/service/service.go:361-370 | The fallback is the first coalition of maximal score. |
| IntraCache.PickCoalition | backend/internal/service/service.go:343-371 | Priority names, then secondary ones, then the loop over scores. |
| RecordHistory.RecordIsPromisedExactly | backend/internal/service/service.go:266-335 | Over every run of refreshes, resolutions and points given, on any keys: the profile fields are always those of the latest successful profile request, and the time that of the latest success; the coalition fields and each of the two flags are what the requests call for if and only if a stated condition on the requests since the latest success holds. |
| RecordHistory.KeptRun | backend/internal/service/users.go:334-420 | What the record is along every such run, resolutions that fail included. |
| RecordHistory.RefreshesMerge | backend/internal/service/users.go:334-420 | After any sequence of refreshes of any keys in any spelling, single or in bulk: profile fields of the key's latest successful profile request, coalition fields of its latest successful coalition request, each error flag exactly when the latest request of its kind failed. |
| RecordHistory.CoalitionsAreAskedFor | backend/internal/service/users.go:386-392 | After every run a coalition refresh asks for the login of the latest profile, or else the entry's own, and asks nothing when there is neither. |
| RecordHistory.ProfilesAreAskedFor | backend/internal/service/users.go:334-344 | A profile refresh asks whenever the entry has a key, and does nothing without one. |
| RecordHistory.ResolvedAgainLater | backend/internal/service/service.go:157-176 | After a badge without entry has been resolved through its link and the 42 API, let any operation happen on other keys and any badge be resolved: for 12 hours, while directory and links say the same of it, each resolution of it gives the same badge, asks nothing and changes nothing. |
| RecordHistory.FailedCoalitionLeavesNoFlag | backend/internal/service/service.go:312-333 | Whatever was cached, a resolution whose coalition request fails leaves a blank coalition and no error flag. |
| RecordHistory.CoalitionIsForgotten | backend/internal/service/service.go:312-333 | A run in which a fetched coalition is lost that way and the record does not say so. |
| Resolve.ResolvedAgain | backend/internal/service/service.go:157-176 | After a badge without entry has been resolved through its link and the 42 API, the next resolution of any text form of it within 12 hours gives the same badge, asks nothing and changes nothing, whatever the API would say. |
| Resolve.LinkedBadgeShows | backend/internal/service/service.go:157-176 | A badge known by its link alone shows, after a successful request, the 42 login or else the link's, the profile's id, photo and type, the picked coalition if any, and no error. |
| Resolve.MatchedBadgeShows | backend/internal/service/service.go:113-156 | A scan whose first hit is an entry shows that entry and number, the entry's login or piscine login and ft_id, and, with 42 configured, each field of the record cached for it. |
| Resolve.LinkedScanShows | backend/internal/service/service.go:96-105 | A linked badge shows the first entry that goes by the login and the record cached for it, which must be fresh when there is no such entry; a failed request leaves the login alone. |
| Resolve.NamelessScanShows | backend/internal/service/service.go:84-111 | A scan without configuration, entry or link shows nothing but the reason. |
| Resolve.FetchedIdentity | backend/internal/service/service.go:294-307 | A fetched record has the profile's login and id, or else those asked for, and the time of the fetch. |
| Resolve.IntraAgain | backend/internal/service/service.go:266-285 | A fetched or fresh record is returned again from the cache for its lifetime, under the same key. |
| Resolve.MatchedAsksNothing | backend/internal/service/service.go:137-156 | A badge with a directory entry causes no request and no write. |
| Resolve.AsksExactly | backend/internal/service/service.go:132-176 | A scan asks the 42 API if and only if both sides are configured, no entry holds a number of the badge, it is linked to a login that no entry goes by, and that login has no fresh record; without a request nothing is written. |
| Resolve.ScanStartsFromLatestLink | backend/internal/service/service.go:91-112 | After every run a scan of any spelling of an associated UID that no entry holds starts from the login of the latest association, and reports the badge unknown exactly when there is none. |
| Resolve.IdentityIsNeverMissing | backend/internal/service/service.go:119-128 | Over every reachable directory no scan reports an entry without ft_login and ft_id. |
| Resolve.UnknownExactly | backend/internal/service/service.go:84-112 | A badge is reported unknown if and only if no entry holds its numbers and it has no link. |
| Resolve.Service.Resolve42 | backend/internal/service/service.go:266-335 | A request is made exactly when there is a key and no fresh record; a fresh record is returned and nothing written; a failure writes nothing; a success is what is cached afterwards; other keys are untouched. |
| Resolve.Service.ResolveBadge | backend/internal/service/service.go:71-180 | Badge, cache and requests of the step-by-step method are those of the resolution function. |
| Grouping.GroupEntries | backend/internal/service/users.go:73-81 | The loop over a map and an order list yields each key's entries, and the keys by first appearance. |
| Grouping.GroupsPartition | backend/internal/service/users.go:73-81 | The groups one after the other are the entries, each as often as it occurs. |
| Grouping.OrderIsDistinct | backend/internal/service/users.go:73-81 | The keys in the order are distinct and are exactly the keys of the entries. |
| Grouping.MembersAre | backend/internal/service/users.go:73-81 | A group holds exactly the entries with its key. |
| Grouping.OneGroup | backend/internal/service/users.go:73-81 | Every entry is in one group and in no other. |
| UserRows.EveryEntryHasOneRow | backend/internal/service/users.go:73-149 | Every directory entry is in the group of exactly one row of the list. |
| UserRows.SameRowExactly | backend/internal/service/users.go:37-49 | Two entries share a row if and only if they have the same login, cached or their own, in any letter case; or no login and the same ft_id. |
| UserRows.Represent | backend/internal/service/users.go:85-104 | The loop with a best score yields the representative and the first cached profile. |
| UserRows.RepOfIsRepresentative | backend/internal/service/users.go:86-102 | The representative is the first entry of maximal score. |
| UserRows.RepresentativeIs | backend/internal/service/users.go:89-100 | Representing the group means: with an ft_id if anyone has one, then with a login if anyone such has one, then first. |
| UserRows.TallyGroup | backend/internal/service/users.go:106-129 | The nested loops over entries and their scans, with a seen set, count each scan once. |
| UserRows.TallyCounts | backend/internal/service/users.go:106-129 | Scan count, pending count and last scan are the size, the unhandled part and the greatest time of the set of blames of the whole group. |
| UserRows.RowCounts | backend/internal/store/history.go:70-81 | The figures of a row count the blames that name anyone of the group by ft_id or, in any letter case, by login: how many, how many not handled, and the latest time. |
| UserRows.AllUserRows | backend/internal/service/users.go:53-152 | One row per key, by first appearance, each made of its whole group. |
| UserRows.RowsMean | backend/internal/service/users.go:53-152 | Each row shows the first entry of maximal score of its group, the tally of the group's blames, and the first cached profile of the group, or an error when it has none. |
| UserRows.NoKeyFallsBack | backend/internal/service/users.go:37-49 | Over every reachable directory no group key is a primary key. |
| UserOrder.ComparatorsAreOrders | backend/internal/service/users.go:195-228 | Each of the three comparators is a strict weak order, missing last scans included. |
| UserOrder.TiesAreSamePlaces | backend/internal/service/users.go:195-228 | Two rows tie if and only if the order's criterion and the name both agree. |
| UserOrder.FilterUserRows | backend/internal/service/users.go:173-230 | The filtering loop and the sort yield the stable sort of the passing rows. |
| UserOrder.ListIsOrdered | backend/internal/service/users.go:173-230 | The result holds exactly the passing rows, each as often as before, is a stable sort of them, and is the only one. |
| UserOrder.ListShowsWanted | backend/internal/service/users.go:174-192 | The list shows a row exactly when every filter that is set lets it through: the search text occurs in login or full name in any letter case, and type, scans, errors and coalition match. |
| UserOrder.NamesAre | backend/internal/service/users.go:195-200 | Rows are named by login or else full name, in lower case, and ordered by the first difference. |
| UserOrder.ListReads | backend/internal/service/users.go:195-228 | No row stands above one that must precede it: most blames or latest scan first, never scanned last, then by name. |
| UserOrder.FilteringTwice | backend/internal/service/users.go:173-230 | Filtering the result again with the same filters changes nothing. |
| Sorting.SortIsStable | backend/internal/service/users.go:195-228 | For any strict weak order the sort is ordered and keeps tied elements in order. |
| Sorting.SortIsPermutation | backend/internal/service/users.go:195-228 | The sort holds exactly the elements it was given. |
| Sorting.StableSortIsUnique | backend/internal/service/users.go:195-228 | A list has only one stable sort, so any stable algorithm returns this one. |
| Debounce.RestartsDoNotShow | c-client/src/pcsc.c:66-136 | In every run with any failures and restarts, a read is suppressed if and only if the badge reported last is this one, less than 2500 ms ago, or it is an empty UID in the first 2500 ms of the clock with nothing reported before: restarts, which forget the last badge, cannot be told. |
| Debounce.EveryCardIsRead | c-client/src/pcsc.c:114-124 | Every card that is present and readable is noted at the time of reading, and reported unless this run noted the same text last, less than 2500 ms before; nothing else is noted. |
| Debounce.FailuresPause | c-client/src/pcsc.c:83-106 | A failed run, or one that cannot begin, pauses for five seconds and forgets the last badge; a missing reader is looked for after half a second. |
| Debounce.PauseMustCoverDebounce | c-client/src/pcsc.c:128-136 | That holds for a pause after failures if and only if the pause is at least 2500 ms; the code's is 5000. |
| Debounce.SameBadgeIsSpaced | c-client/src/pcsc.c:74-136 | Two reports in a row of the same UID are at least 2500 ms apart, across restarts too. |
| Debounce.SuppressedWasJustReported | c-client/src/pcsc.c:120 | Every suppressed read is of the UID reported last, less than 2500 ms before, so another badge is never dropped; the one exception is an empty UID in the first 2500 ms of the clock with nothing reported before. |
| Debounce.BlankIsDropped | c-client/src/pcsc.c:74-75 | A run whose first read, of an empty UID at time 0, is dropped although nothing was reported. |
| Debounce.ReportedAgainExactly | c-client/src/pcsc.c:120-124 | A UID reported less than 2500 ms ago is reported again if and only if another report came after its latest one. |
| Debounce.AlternatingBadges | c-client/src/pcsc.c:119-124 | Badge A, B, A at once: A is reported twice. |
| Debounce.Turn | c-client/src/pcsc.c:82-125 | The body of the loop over reader state, status and debounce variables is one step of the machine. |
| Debounce.PcscRunLoop | c-client/src/pcsc.c:128-136 | The loop of runs and pauses logs what the machine logs. |
| LocalStore.RestartRebuilds | c-client/src/gui_main.c:655-681 | After every run with nothing unsaved, a restart lists every listed entry the history still holds with its note and flag, no id twice, and other entries only if they were not listed. |
| LocalStore.RebuiltInOrder | c-client/src/gui_main.c:661-676 | The rebuilt list keeps the order of the fetched history. |
| LocalStore.HandlersDo | c-client/src/gui_main.c:359-406 | Saving a note cuts it to 255 characters, toggling flips the flag, deleting hides; the file is the whole list with that change, and no other entry is touched. |
| LocalStore.TapsAndRestartsDo | c-client/src/gui_main.c:437-452 | A tap appends a blank entry and selects it; a restart selects the newest listed entry. |
| LocalStore.HiddenUntilNextSave | c-client/src/gui_main.c:384-406 | After a deletion, written or not, and whatever follows, restarts included, a restart lists the entry if and only if its history holds it and the deletion was not written or the file has been saved since. |
| LocalStore.NoteSurvivesExactly | c-client/src/gui_main.c:359-369 | A saved note comes back after any later run, restarts and failed writes included, if and only if the file was never saved while its entry was not listed; otherwise it comes back empty. |
| LocalStore.RunIsSynced | c-client/src/gui_main.c:176-188 | When the last write did not fail, the file gives back every listed row of the server. |
| LocalStore.InvRun | c-client/src/gui_main.c:359-452 | Along every run no row of the server is listed twice, listed entries are not hidden, and the selection is listed. |
| LocalStore.RebuiltAre | c-client/src/gui_main.c:423-432 | A rebuilt list holds exactly the fetched entries that the file does not hide, as the file has them. |
| LocalStore.DeletedComesBack | c-client/src/gui_main.c:371-406 | A run after which a deleted entry is listed again. |
| LocalStore.FailedFetchLosesNotes | c-client/src/gui_main.c:655-681 | A run after which a saved note is gone, because a start without history was followed by a save. |
| LocalStore.GuiEntry.ApplyLocalMeta | c-client/src/gui_main.c:423-432 | The first record with the entry's id decides; without one the entry stays fresh. |
| LocalStore.Gui.SaveLocalStoreNow | c-client/src/gui_main.c:176-188 | The file becomes the listed entries, or stays as it was when writing fails. |
| LocalStore.Gui.OnSaveNote | c-client/src/gui_main.c:359-369 | The whole new state: only the selected entry's note, cut to 255 characters, and the file. |
| LocalStore.Gui.OnToggle | c-client/src/gui_main.c:371-378 | The whole new state: only the selected entry's flag and the file. |
| LocalStore.Gui.OnDelete | c-client/src/gui_main.c:384-406 | The file records the entry as hidden before it leaves the list and the selection. |
| LocalStore.Gui.IdleNewTap | c-client/src/gui_main.c:437-452 | A fresh entry, of the next row or with id 0 when the server could not record one, is appended and selected, the others untouched. |
| LocalStore.Gui.Start | c-client/src/gui_main.c:655-703 | Rebuilds the list from the fetched history and the file, and selects the newest entry. |

## Left out

- Letters outside ASCII: lower and upper case and case folding are modelled for ASCII letters; other characters map to themselves.
- RateLimit: deletion of a key and edits of its limits while calls run; the limits are fixed per key.
- LookupProtocol: TLS, certificate pinning, JSON text and the handshake; a damaged or fragmented frame is a frame the client rejects.
- LookupProtocol: the GUI calls the client from two threads without a lock; the single caller of the CLI is modelled.
- ClusterCache: retries inside the API client, and the campus argument's default.
- SeatMap: the tag and id regular expressions, the viewBox, unreadable numbers inside a transform, containers other than `g`, and floating-point rounding (coordinates are reals).
- CaFetch: `parseDirEntry`, `numericField`, `rebase` and JSON are functions the statements quantify over; progress events are left out.
- Wiegand and UidHex: shifts and masks on bytes are written as products and sums.
- UidHex.ReadUid: the PC/SC calls are a parameter, the response bytes.
- Directory: SQL text and drivers; rows are listed by primary key, which is how the table stores them.
- RecordHistory.RefreshesMerge: says nothing about `CoalitionsUserID`, which the code can leave stale when the lookup of that id fails.
- RecordHistory: each refresh and each resolution is one step, so two that overlap in time on one key are left out.
- RecordHistory: of giving points only the write of the cached record is modelled, not the posted score.
- RecordHistory: resolutions by `ft_id`; the only caller passes a link's login and no id.
- Resolve: the scan record that `Scan` writes, live events, and the text of error messages.
- Sorting: the library's stable sort is represented by its contract; uniqueness shows the contract has one solution.
- UserRows: key strings carry a prefix per kind, modelled as constructors; `AvailableCoalitions` would only add an easy member.
- Debounce: reader names and PC/SC state words; the infinite loops are every finite run of them; the clock never goes back and `sleep` is not cut short.
- LocalStore: JSON text, ids beyond 53 bits, notes cut inside a multi-byte character, an unset home directory, and running out of memory.
- LocalStore: GTK widgets; a selection change is an operation of its own.
- User interfaces, sessions, bcrypt, settings, account management and message formatting: no hard property.
