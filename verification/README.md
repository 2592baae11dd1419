# Verification of the Velociraptor observation bridge

A Dafny model of the parts of the bridge that have to agree with each other, and proofs that they do.

* **Record chains.** `Archive` and `Catalog` are the two hash-chained codecs: accept, event\*, seal for one request, and
  the attempt catalog of one instance. `CatalogSpec` says what a legal catalog is without any table. Bytes are numbers below 256,
  the JSON printer and reader are parameters of a codec, and SHA-256 is a parameter too: no injectivity is assumed, a
  theorem says "or these two byte strings collide".
* **Attempt ledger.** `Ledger` is a transition system whose events are the regions the source executes under a lock, so a
  list of events is any interleaving of any number of calls; the native publisher confirms, fails with the record
  stored, or fails without it. `LedgerProofs` proves the writer against the catalog verifier, `LedgerBudgets` closes the
  arithmetic of the approved budgets, `LedgerRecords` says what the calls write and when a session can be exported,
  `LedgerClass` is the object with its fields.
* **Session export.** `Cut` is the verifier of a closed file set, `CutProofs` its tamper evidence and session isolation,
  `CutVerify` its loops and those of the session snapshot; `Export` builds the file set and `ExportPaths`, `ExportFiles`,
  `ExportProofs`, `ExportShapes`, `ExportAccepts`, `ExportLedger` and `ExportBudgets` prove that the verifier accepts it
  and that the plan bounds it. `ExportClass` is the exporter with its reservations and receipts.
* **Depth gates.** `JsonDepth`: the walk over values and the scanner over bytes, both equal to recursive depth.
* **Paging.** `Paging` and `FlowResults`: cursors, byte-limited pages, and the walk over several sources.
* **Request observation.** `Scope` and `Target`: the sticky-failure scope with its creation associations, and the one
  reselection retry.
* **Kernel scope.** `Probe` and `Worker`: the probe's step relation, two replays of membership, and the streaming splitter.
* **Failure classifier.** `Classifier`.

Four promises do not hold as they are usually put; each has a failing input and its exact condition. The ledger's attempt
number is not always its catalog's: `UnconfirmedBeginStays` and `EveryRunVerifies`. A CLOSED_KNOWN catalog does not mean
that `close` returned: `KnownButRaised` and `CloseAnswers`. The shared replay of the boot installation is not the fresh
replay: `SharedRefusesAgain` and `SharedIsFresh`. A metadata fact need not follow a creation when it is written through
the general `emit`: `ForgedMetadata` and `TracesStay`.

## Model

| member | source | states |
|---|---|---|
| `Archive.Verify` | velociraptor_observation_archive.py:341-373 | One pass over a request chain returns exactly the scan of all its records, and refuses the empty chain. |
| `Archive.ScanIsLegal` | velociraptor_observation_archive.py:341-373 | The one-pass verifier accepts a request chain if and only if every record, taken alone with the bytes before it, is lawful: numbered, linked, accept only first, seal only last, budgets kept. |
| `Archive.ScanMeans` | velociraptor_observation_archive.py:341-373 | An accepted chain is one accept, then events, then at most one seal; count, byte total, event count, parent and head are those of its records. |
| `Archive.ScanPrefix` | velociraptor_observation_archive.py:341-373 | Every proper prefix of an accepted chain is accepted and unsealed, so nothing follows a seal; a refused prefix refuses the chain. |
| `Base.EqualHeads` | velociraptor_observation_archive.py:341-373 | A hash chain is determined by the link of its last element, short of a collision: the step both codecs share. |
| `Archive.EqualHeadsEqualChains` | velociraptor_observation_archive.py:341-373 | Two accepted chains with the same head are equal record by record, or two of their records collide under the hash. |
| `Archive.ParseIsCanonical` | velociraptor_observation_archive.py:317-329 | A request record that parses is its own canonical text, well formed and within every limit. |
| `Archive.RequestJournal.Publish` | velociraptor_observation_journal.py:86-106 | Counters advance only on an exact acknowledgement; any other answer poisons the journal and leaves at most the one record on disk. |
| `Archive.RequestJournal.Open` | velociraptor_observation_journal.py:29-57 | The accept record starts a verified chain with the given parent and leaves room for the seal; it is taken exactly when it encodes, leaves that room and is confirmed, and under the approved request budgets the room is always there. |
| `Archive.RequestJournal.Append` | velociraptor_observation_journal.py:116-133 | An event is taken exactly when the journal is open and unfailed, it has the next number, encodes, leaves room for the seal and is confirmed; then it extends the verified chain by one record, and otherwise the confirmed chain stays. |
| `Archive.RequestJournal.SealChain` | velociraptor_observation_journal.py:135-157 | A seal closes the verified chain; its place was reserved, so it is taken exactly when the journal is open and unpoisoned, COMPLETE is not asked of a failed journal, the seal encodes and it is confirmed. |
| `Catalog.EncodeParses` | velociraptor_observation_catalog.py:125-145 | What encode returns parses back to the record encoded. |
| `Catalog.ParseIsCanonical` | velociraptor_observation_catalog.py:125-135 | A catalog record that parses is its own canonical text, well formed and within every limit. |
| `Catalog.Verify` | velociraptor_observation_catalog.py:147-188 | One pass over the catalog returns the summary of the scan of all its records, or refuses. |
| `CatalogSpec.ScanIsLegal` | velociraptor_observation_catalog.py:147-188 | The verifier with its dictionary, seen set and counters accepts a catalog if and only if it is legal record by record, stated over the earlier records alone: next attempt number, DUPLICATE exactly for a repeated key, ACK once and only of an open NEW attempt with its own path, END once with the matching disposition and head path, INSTANCE_END last with the true counts. |
| `Catalog.ScanPrefix` | velociraptor_observation_catalog.py:147-188 | Every proper prefix of an accepted catalog is accepted and still open, so nothing follows INSTANCE_END. |
| `CatalogSpec.EqualHeadsEqualCatalogs` | velociraptor_observation_catalog.py:147-188 | Two accepted catalogs with the same head are equal record by record, or two of their records collide under the hash. |
| `Catalog.ScanReflects` | velociraptor_observation_catalog.py:147-188 | The verifier state after acceptance is what the records say: each attempt has one begin, at most one ACK and END that fit it, and the counters are the numbers of such records. |
| `Catalog.CatalogSize` | velociraptor_observation_catalog.py:147-188 | An accepted catalog of a attempts has at most 3a + 2 records, 3a + 1 while open. |
| `Catalog.ClosedBalances` | velociraptor_observation_catalog.py:147-188 | In a CLOSED_KNOWN catalog every attempt ended and accepted + rejected is the number of attempts. |
| `LedgerProofs.NextKeeps` | velociraptor_observation_attempts.py:193-344 | Every lock region of begin, accept, finish and close, with any publisher answer, keeps the invariant that ties the ledger to what the independent verifier makes of its confirmed records. |
| `LedgerProofs.EveryRunVerifies` | velociraptor_observation_attempts.py:193-481 | In every interleaving of calls the confirmed catalog is accepted, with the ledger's own count, bytes, head and accepted number; the ledger has one attempt more exactly while the last BEGIN is unconfirmed, and the catalog one rejection more exactly while a refusal waits for its END; a returned close, or a closed ledger that is not unknown, means CLOSED_KNOWN, and CLOSED_KNOWN means closed with every attempt ended. |
| `LedgerProofs.UnconfirmedBeginStays` | velociraptor_observation_attempts.py:209-252 | A run that shows the attempt numbers differ: the first BEGIN is stored or lost without confirmation, the call is over, and the ledger counts one attempt where the catalog has none. |
| `LedgerProofs.UnconfirmedBeginCounts` | velociraptor_observation_attempts.py:236-252 | From any state about to publish a BEGIN, any answer but a confirmation leaves the ledger's table one attempt longer than its catalog's. |
| `LedgerProofs.CloseAnswers` | velociraptor_observation_attempts.py:461-481 | Exactly how a close ends in any run, whatever regions come between its end record and its cleanup: CLOSED_KNOWN if and only if the record was writable and confirmed; close returned if and only if besides every resource closed; the stored catalog is ended if and only if the record was writable and reached the disk. |
| `LedgerProofs.KnownButRaised` | velociraptor_observation_attempts.py:461-481 | A CLOSED_KNOWN catalog does not imply that close returned: a resource that fails to close makes it raise over a confirmed end record. |
| `LedgerProofs.FailureIsFinal` | velociraptor_observation_attempts.py:176-207 | The stored catalog is always the confirmed one or that plus one record, both accepted; after a failed publication no later call changes either. |
| `LedgerProofs.PublishExtends` | velociraptor_observation_attempts.py:193-207 | A payload the verifier would admit extends the accepted chain when confirmed; otherwise the confirmed chain stays and the ledger is unknown. |
| `LedgerProofs.EndPayloadFits` | velociraptor_observation_attempts.py:312-340 | The END payload derived from the originals read back reports them: the first record is this attempt's accept, the last the seal with this outcome, status and event count, and records, bytes, head path and head link are theirs, within the request limit. |
| `LedgerRecords.EndMeetsRequestCheck` | velociraptor_observation_attempts.py:312-340 | What finish writes, with the BEGIN and ACK of the same call, is what the cut verifier's own request check asks for. |
| `LedgerRecords.CatalogNamesCalls` | velociraptor_observation_attempts.py:209-252 | In every run the catalog's BEGIN of an attempt carries the key, tool, arguments and decision of that call. |
| `LedgerRecords.BeginRecords` | velociraptor_observation_attempts.py:209-252 | A taken, confirmed begin adds exactly its own BEGIN: next number, key, tool, arguments and the admission reason. |
| `LedgerRecords.AcceptRecords` | velociraptor_observation_attempts.py:265-291 | A confirmed accept of a begun NEW attempt ends ACCEPTED, and the catalog gains its ACK with exactly the accept record's path, size and digest. |
| `LedgerRecords.AcceptFailureRecords` | velociraptor_observation_attempts.py:265-291 | An accept that fails before its ACK leaves its attempt UNKNOWN and retired, the ledger unknown, and everything else as it was. |
| `LedgerRecords.UnconfirmedAccept` | velociraptor_observation_attempts.py:265-291 | An accept whose ACK is not confirmed leaves the attempt UNKNOWN and retired, the ledger unknown and broken, and the confirmed catalog as it was. |
| `LedgerRecords.FinishRecords` | velociraptor_observation_attempts.py:293-344 | A confirmed finish ends ENDED and retired, and the catalog gains exactly the END derived from the originals. |
| `LedgerRecords.FinishFailureRecords` | velociraptor_observation_attempts.py:308-344 | A finish whose originals do not read back as this request leaves the attempt UNKNOWN and retired and the ledger unknown, with catalog and disk as they were. |
| `LedgerRecords.UnconfirmedFinish` | velociraptor_observation_attempts.py:312-344 | A finish whose END is not confirmed leaves the attempt UNKNOWN and retired, the ledger unknown and broken, and the confirmed catalog as it was. |
| `LedgerRecords.FinishReturns` | velociraptor_observation_attempts.py:293-307 | A finish that raises before its originals are read gives the attempt back as ACCEPTED; the ledger is unknown afterwards exactly if its journal could not be diagnosed. |
| `LedgerRecords.AcceptFinishSettles` | velociraptor_observation_attempts.py:265-344 | From any reachable ledger a confirmed accept and a confirmed finish of originals that are on disk leave the attempt settled for export. |
| `LedgerRecords.RefusedIsSettled` | velociraptor_observation_attempts.py:209-252 | An ended refusal is settled by its catalog records alone. |
| `LedgerRecords.CloseRecords` | velociraptor_observation_attempts.py:461-481 | A confirmed close of an idle, known ledger whose attempts all ended returns over a CLOSED_KNOWN catalog. |
| `LedgerRecords.ClosingFindsNoneActive` | velociraptor_observation_attempts.py:461-469 | In every run under approved budgets a ledger that is closing has no active attempt, and none becomes active later. |
| `LedgerRecords.UnknownIsSticky` | velociraptor_observation_attempts.py:176-180 | In every run unknown once is unknown for good, and an attempt in doubt makes the ledger unknown. |
| `LedgerRecords.UnknownFreezes` | velociraptor_observation_attempts.py:176-207 | An unknown ledger that nobody is writing to takes no further attempt and no further record, whatever calls follow. |
| `LedgerRecords.RunReserves` | velociraptor_observation_attempts.py:218-241 | In every run of any configuration, approved or not, the bytes reserved for admitted requests stay within what the archive total leaves. |
| `LedgerBudgets.NeverStarved` | velociraptor_observation_attempts.py:218-232 | Under approved budgets the admission decision is never SEEN_LIMIT or BYTE_LIMIT. |
| `LedgerBudgets.AlwaysRoom` | velociraptor_observation_attempts.py:193-199 | Under approved budgets the catalog_budget refusal never happens to a call that is about to publish. |
| `LedgerBudgets.ApprovedRunsFit` | velociraptor_observation_config.py:32-49 | If the budgets are approved then in every run no attempt was refused for SEEN_LIMIT or BYTE_LIMIT, every publication has room, active requests stay within their limit, the catalog within 3A + 2 records, and catalog bytes plus all ended request bytes plus the pending reserve within the archive total; so do the bytes really on disk, an unconfirmed record included. |
| `LedgerBudgets.ApprovedLimits` | velociraptor_observation_config.py:32-49 | Approved budgets leave every request journal room for its accept and its seal, every attempt its directory, and every record number its eight digits. |
| `LedgerClass.ArchiveAttemptLedger.OpenApproved` | velociraptor_observation_attempts.py:135-174 | The opened object has a verified one-record catalog, or is closed and unknown. |
| `LedgerClass.ArchiveAttemptLedger.Publish` | velociraptor_observation_attempts.py:193-207 | The whole new state after a confirmed, stored or lost publication; head, count and bytes move only on confirmation. |
| `LedgerBudgets.AdmissionMeans` | velociraptor_observation_attempts.py:218-232 | Under approved budgets an available ledger answers DUPLICATE exactly when its confirmed catalog already has a BEGIN of that key, ACTIVE_LIMIT exactly when the key is new and every place is held by an unretired attempt, and otherwise admits. |
| `LedgerClass.ArchiveAttemptLedger.Begin` | velociraptor_observation_attempts.py:209-252 | begin performs its four regions on the state and keeps the verified catalog; it takes an attempt exactly when the call is well formed, the ledger available and a number left, and returns its lease exactly when besides no catalog publication failed. |
| `LedgerClass.ArchiveAttemptLedger.Accept` | velociraptor_observation_attempts.py:265-291 | accept performs start, ACK publication and completion on the state and keeps the verified catalog. |
| `LedgerClass.ArchiveAttemptLedger.AcceptFails` | velociraptor_observation_attempts.py:265-291 | accept whose directory or journal failed leaves the attempt UNKNOWN and retired, with the catalog unchanged and verified. |
| `LedgerClass.ArchiveAttemptLedger.Finish` | velociraptor_observation_attempts.py:293-344 | finish performs start, END publication, completion and retirement on the state and keeps the verified catalog; `FinishRecords` and `EndMeetsRequestCheck` say what that state and its END are. |
| `LedgerClass.ArchiveAttemptLedger.Close` | velociraptor_observation_attempts.py:461-481 | close returns normally exactly when the ledger ends closed and not unknown, a repeated close included, and then the verifier calls its catalog CLOSED_KNOWN. |
| `CutVerify.Verify` | velociraptor_observation_cut.py:193-269 | The verifier's loops decide exactly the acceptance predicate, with and without the export wrapper. |
| `CutVerify.CollectExpected` | velociraptor_observation_cut.py:229-246 | The derived request rows, or refusal at the first chain that does not match its ACK and END. |
| `CutVerify.CheckSources` | velociraptor_observation_cut.py:248-254 | Every manifest row names a source, holds its copy and its descriptor, and the descriptors are entered once per path. |
| `CutProofs.EqualCutsEqualFiles` | velociraptor_observation_cut.py:193-269 | Two accepted file maps with the same cut.json ref agree on every byte outside export.json, or two of their files collide. |
| `CutProofs.OnlyThisSession` | velociraptor_observation_cut.py:221-260 | Besides the documents an accepted map holds only catalog copies, security descriptors, and records of NEW, acknowledged and ended attempts of its one session. |
| `Cut.OwnIsSession` | velociraptor_observation_cut.py:221-228 | The own attempts are exactly those whose BEGIN has the session in its key. |
| `CutProofs.WholeSession` | velociraptor_observation_cut.py:221-228 | An accepted map lists exactly the attempts of its session in the catalog, all ended. |
| `CutProofs.LoadedIsCanonical` | velociraptor_observation_cut.py:94-102 | A document that loads is the canonical text of itself, within its byte and depth limits and well shaped. |
| `CutProofs.AcceptedProven` | velociraptor_observation_cut.py:193-220 | The lifecycle evidence of an accepted map is present and was proven. |
| `CutProofs.WholeRequest` | velociraptor_observation_cut.py:229-247 | For each NEW attempt of its session an accepted map holds every record of the chain, and the chain fits the catalog. |
| `CutProofs.RequestMeans` | velociraptor_observation_cut.py:234-246 | A chain that passes the request check starts with the accept of the catalog's BEGIN, ends with the seal its END reports, and has the counts and refs of ACK and END. |
| `CutProofs.AcceptedBinds` | velociraptor_observation_cut.py:212-268 | An accepted map binds the approved configuration and implementation, the catalog's opening and head, one instance, one session and one close reason throughout. |
| `CutProofs.AcceptedSources` | velociraptor_observation_cut.py:248-254 | Every original of an accepted map has a manifest row that holds its copy and a descriptor with the digest it claims. |
| `CutProofs.WrapperBinds` | velociraptor_observation_cut.py:257-264 | The wrapper of an accepted export names its cut, the members with the cut, and the same instance and session. |
| `CutVerify.SessionPrefix` | velociraptor_observation_attempts.py:346-447 | The snapshot loop issues exactly the prefix of a session whose stored catalog has the ledger's head and whose attempts all ended and read back as recorded. |
| `ExportProofs.IssuedIsReady` | velociraptor_observation_attempts.py:346-447 | What an issued prefix guarantees: a verified catalog of this instance and, for every admitted attempt, originals that satisfy the verifier's stronger request check, path of the head included. |
| `ExportProofs.IssuedIsEnded` | velociraptor_observation_attempts.py:394-401 | A prefix is issued only by an available ledger, of exactly its attempts of the session, all ended. |
| `ExportProofs.IssuedIsStored` | velociraptor_observation_attempts.py:369-420 | Every original of an issued prefix is the stored file of its path, and its identity names its own descriptor. |
| `LedgerRecords.SettledSessionIssues` | velociraptor_observation_attempts.py:346-447 | An available ledger nobody holds, whose catalog is on disk and whose attempts of the session are all settled, issues the session's prefix. |
| `ExportPaths.OriginalsDistinct` | velociraptor_observation_export.py:204-205 | An issued prefix never lists a path twice, so the duplicate refusal cannot fire. |
| `ExportPaths.ChainRecovered` | velociraptor_observation_export.py:231-236 | Sorting all originals by name and keeping one request directory gives exactly that request's records in numeric order. |
| `Names.RecordPathsOrdered` | velociraptor_observation_export.py:231-236 | Zero-padded record names sort in numeric order up to 99999999. |
| `ExportClass.CopyOriginals` | velociraptor_observation_export.py:207-221 | One pass fills the dictionary of copies and descriptors and the manifest, and refuses exactly when a source is insecure. |
| `ExportClass.CollectRows` | velociraptor_observation_export.py:231-236 | The projection's request rows, one for each NEW attempt of the session. |
| `ExportClass.Documents` | velociraptor_observation_export.py:200-247 | The built file set, returned exactly when sources are secure, documents encode, the cut verifier accepts and the plan is kept. |
| `ExportClass.BuiltIsSecure` | velociraptor_observation_export.py:209-217 | What is built comes only from sources of the root's principal and volume with evaluated descriptors of the claimed digest. |
| `ExportShapes.RefusesOnlyLimits` | velociraptor_observation_export.py:200-245 | For an issued prefix and a valid lifecycle record the documents are always well shaped: building refuses if and only if a source is insecure or a document exceeds its byte or depth limit. |
| `ExportFiles.MembersAgree` | velociraptor_observation_export.py:241-243 | The members sorted from the exporter's dictionary are the list the verifier re-derives from projection and manifest. |
| `ExportAccepts.BuiltIsAccepted` | velociraptor_observation_cut.py:193-269 | A built file set is accepted by the independent verifier, clause by clause. |
| `ExportLedger.IssuedExportVerifies` | velociraptor_observation_export.py:200-247 | For every reachable ledger, every issued prefix and every valid lifecycle record, the built file set is accepted by verify_cut, unless two descriptors or two catalog records collide. |
| `ExportLedger.PrefixIsOwnCatalog` | velociraptor_observation_attempts.py:390-392 | The catalog a prefix read back is the ledger's own confirmed chain, or a collision. |
| `ExportLedger.RunOpens` | velociraptor_observation_attempts.py:135-174 | In every run the first confirmed record is the INSTANCE_BEGIN of the approved configuration. |
| `ExportBudgets.ActualWithinPlan` | velociraptor_observation_export.py:34-42 | Every export of an issued prefix stays within the plan in files, bytes and directories with room for the wrapper, so the actual-budget checks never fire. |
| `ExportBudgets.EveryFileWithinPending` | velociraptor_observation_export.py:34-42 | The pending reserve covers whichever file of an export is being written: copies, descriptors and documents. |
| `ExportBudgets.WrapperWithinPending` | velociraptor_observation_export.py:34-42 | The pending reserve covers the wrapper. |
| `ExportClass.DocumentsNeverRefuse` | velociraptor_observation_export.py:245-246 | For an issued prefix neither the cut verifier nor the plan refuses anything that was built, short of a collision. |
| `ExportClass.AffordedFits` | velociraptor_observation_startup.py:49-63 | The startup minimums make every reserve check hold up to the session limit. |
| `ExportClass.WrappedIsAccepted` | velociraptor_observation_export.py:331-338 | An accepted cut with an encodable wrapper is an accepted export. |
| `ExportClass.NativeExporter.Reserve` | velociraptor_observation_export.py:123-143 | A reservation is permanent; its exact condition under any limits, and under the startup minimums only a repeated session, a full house or a native answer refuses it. |
| `ExportClass.NativeExporter.Publish` | velociraptor_observation_export.py:298-352 | A receipt is issued exactly when a reserved session without one was built and every native write, directory and wrapper step succeeded, over files accepted with their wrapper; a failure after the documents were built poisons the ledger, one before it does not. |
| `ExportClass.PublishedWithinLimits` | velociraptor_observation_export.py:123-143 | All published sessions together stay within the approved files, bytes (with the pending lane) and directories. |
| `ExportClass.NativeExporter.ReceiptPins` | velociraptor_observation_export.py:145-146 | Any accepted file map with a receipt's cut agrees with the published one on every byte outside export.json, or collides with it. |
| `JsonDepth.EncodingShape` | velociraptor_observation_archive.py:222-253 | The iterative walk accepts a value if and only if it is encodable and its recursive container depth is within the bound. |
| `JsonDepth.DepthGate` | velociraptor_observation_archive.py:276-296 | The byte scanner accepts if and only if the deepest nesting outside strings is within the bound. |
| `JsonDepth.ScannerMeasuresDepth` | velociraptor_observation_archive.py:256-296 | On the canonical text of any encodable value the scanner ends at depth zero outside any string, having peaked at exactly the value's recursive depth. |
| `JsonDepth.PrintRenders` | velociraptor_observation_archive.py:256-296 | Read from any depth outside a string, printed text leaves the scanner where it was, whatever quotes, backslashes, braces or non-ASCII characters its strings hold. |
| `JsonDepth.Gates` | velociraptor_observation_archive.py:222-296 | On every encodable value both gates give the same answer. |
| `JsonDepth.OrderIsIrrelevant` | velociraptor_observation_archive.py:256-261 | Two dictionaries with the same members have the same canonical text, in whatever order they were filled. |
| `Paging.CursorRoundTrip` | velociraptor_mcp_core.py:401-438 | Decoding an encoded offset gives the offset back, for every offset in range. |
| `Paging.CursorCanonical` | velociraptor_mcp_core.py:416-438 | Every accepted nonempty cursor is the encoding of the offset it decodes to. |
| `Paging.PaginateResult` | velociraptor_mcp_core.py:491-542 | The answer from the whole list, errors in the order they are raised; `ServeIsLargest` says which page it is. |
| `Paging.PaginateWindow` | velociraptor_mcp_core.py:545-598 | The answer from a backend window; `WindowServesWhole` says that it is the whole list's. |
| `Paging.BestIsLargest` | velociraptor_mcp_core.py:511-524 | The chosen count fits the byte limit and no larger count does. |
| `Paging.PickIsLargest` | velociraptor_mcp_core.py:491-598 | An answered page fits the byte limit and no larger count does; a row is too large only where no count fits; the cursor-range error is raised exactly where some count would need a cursor past the range. |
| `Paging.ServeIsLargest` | velociraptor_mcp_core.py:491-598 | Of a nonempty rest the answer has at least one row, fits, and no page of more rows up to the page size fits. |
| `Paging.WindowShowsEnough` | velociraptor_mcp_core.py:545-598 | A window of page_size + 1 rows has the same candidates, offset and truncation as the whole list. |
| `Paging.WindowServesWhole` | velociraptor_mcp_core.py:491-598 | On that window the windowed function gives the very answer of the whole list: the same page, or the same error, a bad page size or cursor included. |
| `Paging.LargerPageCanFit` | velociraptor_mcp_core.py:511-524 | Page size in bytes is not monotone in the row count: two rows can fit where the first alone does not. |
| `FlowResults.SelectionSound` | velociraptor_fixed_tools.py:729-756 | Selected sources are distinct and listed; without a choice every listed source is selected. |
| `FlowResults.SelectionMeans` | velociraptor_fixed_tools.py:743-754 | A requested listed source is itself selected; any other name selects the only listed source that ends in it. |
| `FlowResults.SelectionAnswers` | velociraptor_fixed_tools.py:743-754 | Selection succeeds exactly when a choice stands for one listed name and all chosen names lie in the artifact; it refuses an ambiguous or unknown choice before a foreign name. |
| `FlowResults.SelectionOrder` | velociraptor_fixed_tools.py:729-756 | Without a choice sources are read in the order in which they are first listed. |
| `FlowResults.ReadWindow` | velociraptor_fixed_tools.py:780-809 | The loop over sources reads exactly the window of their concatenation. |
| `FlowResults.GetFlowResults` | velociraptor_fixed_tools.py:706-823 | A page of several sources is the page of their concatenation. |
| `FlowResults.PageAdvances` | velociraptor_fixed_tools.py:780-823 | A page holds the next rows, is truncated if and only if rows remain, and then its cursor decodes to the next offset and moved on. |
| `FlowResults.FollowCursors` | velociraptor_fixed_tools.py:706-823 | Following next_cursor from the start ends and gives exactly the concatenation of all sources, unless a row-too-large or cursor-range error is raised; rows that fit alone never meet either. |
| `Probe.ReplayFollowsProbe` | velociraptor_linux_probe.py:13-41 | For every run with unreused process keys, thread clones included, and one seeded root, replaying the printed events never refuses and ends with exactly the keys of the until map. |
| `Probe.ThreadsReuseNothing` | velociraptor_linux_probe.py:26-35 | Cloning a thread, whose key is its own group's, reuses no key: such runs are among those covered. |
| `Probe.LiveIsUntil` | velociraptor_linux_scheduler.py:532-546 | At every instant the replay up to it does not refuse and its members are the until map's keys at that instant. |
| `Probe.MapIsFamily` | velociraptor_linux_probe.py:13-41 | Before the deadline and the root's expiry the until map holds exactly the living family of the root. |
| `Probe.PrintsItself` | velociraptor_linux_probe.py:13-91 | Each covered occurrence but a thread's creation or exit prints one event with its own time, actor and facts under its origin, and nothing else prints. |
| `Probe.PrintsRoot` | velociraptor_linux_probe.py:13-41 | With one seeded root every printed event names it as origin. |
| `Probe.PrintsFamily` | velociraptor_linux_probe.py:13-41 | In every run in time order with unreused keys, past expiry and deadline too, the probe prints exactly what the living family of its root does before both, in order and under the root. |
| `Probe.SecondSeedRefused` | velociraptor_linux_scheduler.py:532-546 | Seeding a descendant beside the root makes the replay refuse its first event, so the single root is needed. |
| `Probe.ReplayLoop` | velociraptor_linux_scheduler.py:532-546 | The loop gives the replay of the events up to the instant, from any starting sets. |
| `Probe.SharedIsFresh` | velociraptor_linux_boot_install.py:244-262 | With sets shared across calls on times that do not go back, a call answers if and only if the fresh replay does and nothing forked or exited by the call before, and then with the same sets. |
| `Probe.SharedRefusesAgain` | velociraptor_linux_boot_install.py:244-262 | The shared replay differs from the fresh one: after one fork a second call at the same time is refused, and a fresh replay answers. |
| `Probe.SharedReplay.Live` | velociraptor_linux_boot_install.py:247-262 | Each answer of the shared replay equals the one computed from scratch. |
| `Worker.SplitIsExact` | velociraptor_linux_worker.py:128-129 | Splitting on newlines loses no byte and leaves no newline inside a line. |
| `Worker.Worker.Drain` | velociraptor_linux_worker.py:116-151 | After a chunk the pending bytes, the numbered events, the known map and the flags are those of splitting everything received on newlines; refusal exactly when a bound is passed. |
| `Worker.Worker.Feed` | velociraptor_linux_worker.py:116-151 | Any chunking of the stream gives the same numbered events as splitting the whole, and stops exactly when a chunk exceeds a buffer bound or a line of the whole stream a count bound. |
| `Worker.FaultMeans` | velociraptor_linux_worker.py:128-136 | The fault flag is set exactly when some nonblank line did not decode. |
| `Worker.DoneMeans` | velociraptor_linux_worker.py:139-140 | The probe counts as done exactly when its end was printed. |
| `Worker.ReadyMeans` | velociraptor_linux_worker.py:137-138 | The ready time is that of the last ready line. |
| `Worker.KnownMeans` | velociraptor_linux_worker.py:146-151 | The known map holds exactly the processes known before or forked since that have not exited. |
| `Worker.BoundsHold` | velociraptor_linux_worker.py:141-149 | Event numbers and descendants stay within their bounds. |
| `Worker.KernelPrefix` | velociraptor_linux_scheduler.py:717-732 | The reader gives the decoded facts of the complete lines, or refuses. |
| `Worker.PrefixReaderAgrees` | velociraptor_linux_scheduler.py:717-732 | Read at any moment, from any beginning of a stream without carriage returns, the reader's events are a prefix of those the worker numbers. |
| `Worker.PrefixMeans` | velociraptor_linux_scheduler.py:717-732 | What the reader returns is not empty, in time order, and from a file within its bound. |
| `Scope.ObservationScope.Emit` | velociraptor_observation.py:398-427 | A fact is recorded under the next number exactly when the scope is unsealed and unfailed with its journal ready, the fact lawful and within both budgets, and the append confirmed; otherwise an unsealed scope fails for good. The journal leads memory by at most the record whose append raised, and the events stay traced exactly unless an untraceable metadata fact was recorded. |
| `Scope.ObservationScope.Attach` | velociraptor_observation.py:531-547 | Once the claimed journal is confirmed it holds exactly the recorded events, none so far. |
| `Scope.ObservationScope.OpenSlot` | velociraptor_observation.py:166-174 | A new creation slot without an association, owned by the operation it opens in; the other slots stay. |
| `Scope.ObservationScope.Finish` | velociraptor_observation.py:438-461 | Seals exactly when the journal's acceptance, seal and close are confirmed; otherwise the scope is failed and unsealed. |
| `Scope.ObservationScope.CreationBegin` | velociraptor_observation.py:190-212 | Exactly for the client of the running operation and a recordable fact, records the begin fact; takes the current slot exactly if it is unused and its own, otherwise a new one, and no other slot changes. |
| `Scope.ObservationScope.CreationReturn` | velociraptor_observation.py:222-251 | Exactly for a slot of the running operation, rows that project and a recordable fact, records the return fact and marks only that slot returned with its first flow; otherwise records nothing, changes no slot and fails an unsealed scope. |
| `Scope.ObservationScope.MetadataReturn` | velociraptor_observation.py:254-266 | Exactly for the first flow of a creation that returned in this operation, a nonempty state and a recordable fact, records the metadata, whose begin and return stand before it; otherwise records nothing and fails an unsealed scope. |
| `Scope.TracesStay` | velociraptor_observation.py:155-266 | Appending a fact keeps every metadata fact traced if and only if the fact is no metadata or its begin and return, of the same operation, attempt, client, creation and first flow, stand before it. |
| `Scope.ForgedMetadata` | velociraptor_observation.py:76-78 | The general emit takes any kind: one metadata fact written through it is not traced. |
| `Scope.HistoryAdvances` | velociraptor_observation.py:398-461 | Where every step advances, any two moments do: events only grow, failure is sticky and stops events and journal, a seal freezes everything. |
| `Scope.ObservationScope.Live` | velociraptor_observation.py:155-461 | Every history of calls: at every moment events are numbered 1..n and the journal leads by at most one, between any two moments failure is sticky and a seal freezes the scope, and without forged metadata every metadata fact follows its own begin and return. |
| `Target.TargetContext.Resolve` | velociraptor_mcp_core.py:671-691 | The cached client or the only listed one; success in a scope means it has not failed and its last event is the resolve fact of that client and mode. |
| `Target.TargetContext.Execute` | velociraptor_mcp_core.py:693-713 | The operation runs only once its begin fact stands as the next event of the scope, and not at all in a failed scope; every failure shows in the trace after it; with observation intact its answer is returned and its end fact with the outcome is the last event. |
| `Target.TargetContext.RunWithClient` | velociraptor_mcp_core.py:715-753 | Every call keeps the one course: resolve, run, probe, and only on a false probe clear, reselect, run again, probe. The operation runs at most twice, each time after its own begin fact, and no execution comes after a recorded failure, which the trace holds exactly when observation failed. With observation intact the first run happens whenever a client resolves, the second exactly when the first raised, its client is gone and one client is listed, on that client, and the answer is the one the script determines. |
| `Target.AtMostTwice` | velociraptor_mcp_core.py:715-753 | The operation executes at most twice. |
| `Target.Joins` | velociraptor_mcp_core.py:715-753 | Stretches that show every failure and no execution after one join into a trace that does. |
| `Target.RetryIsEarned` | velociraptor_mcp_core.py:715-753 | The second execution comes only after the probe answered false for the first client, the cache was cleared and a client was selected anew. |
| `Classifier.Classify` | velociraptor_observation_failure.py:41-131 | One row for each captured request and each call never invoked, refused when a location repeats. |
| `Classifier.EveryFrameHasRow` | velociraptor_observation_failure.py:50-57 | Each parsed frame of each exchange has a row at its place, and a body that did not parse has one. |
| `Classifier.GatesComeFirst` | velociraptor_observation_failure.py:68-78 | A request is rejected before the observer exactly for a known gate, and a close is in doubt exactly for an ungated DELETE that did not complete; both stand before any attribution. |
| `Classifier.RepliesAreLatest` | velociraptor_observation_failure.py:50-57 | The replies a request is judged by are those of the last exchange recorded under its number. |
| `Classifier.VerdictMeans` | velociraptor_observation_failure.py:106-122 | An attributed row says what the records say: DUPLICATE_REJECT a refused duplicate, PRE_OBSERVER_REJECT another refusal, ACCEPT_UNKNOWN a missing ACK or END, ACCEPTED_FAILED a failed end or a raised or cancelled outcome, ACCEPTED_COMPLETE_WITH_WIRE_ERROR a complete end with a wire fault. |
| `Classifier.AttributionMeans` | velociraptor_observation_failure.py:80-107 | An attributed row is a tools/call of that attempt's own session, id, server instance, tool and arguments. |
| `Classifier.RecordsDecide` | velociraptor_observation_failure.py:106-122 | The attempt's records decide the verdict: each case of them has its own. |
| `Classifier.CandidatesExactly` | velociraptor_observation_failure.py:80-105 | The candidates are exactly the attempts with the request's key, tool and arguments that, under a repeated id, the only reply of its kind shows. |
| `Classifier.SoleCandidateDecides` | velociraptor_observation_failure.py:80-122 | A tool call past the gates behind which exactly one attempt can stand is classified by that attempt. |
| `Classifier.NeverTwice` | velociraptor_observation_failure.py:80-123 | No attempt is attributed to two rows, however often a typed request id repeats. |
| `Classifier.AcceptedHasRecords` | velociraptor_observation_failure.py:106-122 | An ACCEPTED row names one attempt with this request's key, tool and arguments that has its BEGIN, ACK and END, admitted as NEW in a verified catalog. |

## Left out

- Win32, fanotify, systemd, gRPC and MCP calls, clocks and threads below lock granularity: only their success or failure appears, as parameters.
- The JSON library and SHA-256: a codec takes its printer, reader and digest as parameters; only the depth theorems use a concrete printer. `Printing` asks that digests are 64 hex digits, that reading inverts printing and that printed text is not empty.
- Event whitelists, SID and path grammar of refs, case folding of names, lifecycle work rows and the configuration document: each is one `listed`, `proven`, nonempty or equality condition in the model. Names built by the exporter are lower-case, so case folding does not change their uniqueness.
- Directory listings and the file and byte budgets of the session snapshot: they can only refuse a prefix.
- Catalog.Parse: the depth gate is the parameter `shallow`, proved to mean recursive depth in `JsonDepth`.
- JsonDepth.EncodingShape: does not model cyclic inputs, which the source refuses by object identity, nor lone surrogates, which a Dafny `char` cannot hold.
- Scope.ObservationScope.CreationReturn: row projection is reduced to the flow ids; a row the projection refuses is `None`.
- RequestObserver's table of scopes and the journal claim: bookkeeping around one scope.
- Target.TargetContext.RunWithClient: the operation is whatever facts it records and how it ends; its value is not modelled.
- FlowResults.GetFlowResults: backend answers are the rows of each selected source; the API layer strips white space from a source name, which can make two listed names one source.
- Worker.Worker.Drain: line decoding is a parameter; JSON parsing of a probe line is not modelled.
- Probe.Step: file and network hooks are one `Touch` action; the entry and return pairing of those hooks is not modelled.
- Worker termination status and temporary extensions: the source makes no unconditional promise about either.
- Classifier.Classify: header lookup and body parsing are inputs of the model.
- Maintenance transfer, controller, namespace allocator, cron and unit-file checks: long lists of equality checks, each settled by reading one branch.
- Durability across power loss: a stored record is one the publisher left on disk, whether or not it was confirmed.
