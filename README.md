# Contract lifecycle engine

This project models the contract lifecycle engine of a small contract-management
service (`ContractService` and the `Contract` entity) and proves properties of
the model.

- A contract is created with status NEW. It then moves through a fixed state
  machine: NEGOTIATION, then APPROVED or REJECTED, then SIGNED, EXECUTED and
  RENEWED.
- Every status change except renewal goes through one shared primitive,
  `_update_contract_status`. It reads the contract, refuses a missing contract,
  and refuses a contract whose status is not an allowed predecessor. Otherwise
  it writes the new status and a fresh `updated_at`.
- Execution also stores a final document in the blob store (GridFS) and records
  its identifier.
- Renewal checks for EXECUTED itself and stamps a renewal date.
- A search builds a MongoDB filter: EXECUTED contracts, an optional exact
  contract number, and a case-insensitive keyword over four `details` fields.
- A migration imports the legacy contracts whose numbers are not yet stored, as
  MIGRATED contracts with an old document each.

Modules, one per file:

- `Common` (common.dfy): `Option`.
- `Text` (text.dfy): the decimal rendering that stands in for ISO timestamps
  and file identifiers, and an ASCII case-insensitive substring test.
- `Time` (time.dfy): timestamps, the ISO stand-in, and the `Clock` class behind
  `datetime.utcnow()`. Each reading is no earlier than the last.
- `Values` (values.dfy): the JSON/BSON values stored in records, documents, and
  the errors the engine raises, one constructor per exception.
- `ContractModel` (contract.dfy): the `Contract` class (`__init__`, `to_dict`,
  `from_dict`) and `Decode`, a pure statement of what `from_dict` reads.
- `ContractStore` (store.dfy): the `contracts` collection as a class. Its
  fields are the records by key and the keys in insertion order. It provides
  `find_one`, `insert_one`, `update_one` with `$set`, and `find` with the filter
  conditions the service uses.
- `BlobStore` (gridfs.dfy): GridFS as a growing sequence of stored files. A
  file's identifier is its position.
- `Lifecycle` (service.dfy): every operation of `ContractService`, and the
  store invariant they all keep.
- `Scenarios` (scenarios.dfy): concrete runs against an empty store. They cover
  the main flow, creating a number twice, signing before approval, an unknown
  approval status, migrating twice, and a keyword search.

The store invariant `Lifecycle.Consistent` has two parts. First, the collection
is well-formed: each record is keyed by its own `contract_number`, and the
order lists every key once. Second, every record's `created_at` and
`updated_at` read back as timestamps in order, no later than the clock. Under
this invariant every stored record can be read by `from_dict`. Every operation
requires it and keeps it.

The engine's outcomes are stated as predicates over the store before and after
a call:

- `Transitioned` for the shared primitive, sign, and approve/reject.
- `Negotiated`, `Executed` and `Renewed` for those operations.
- `Migrated` for the migration.

Each outcome predicate says which error is raised and what was written before
it. A refused request writes nothing. Two errors come after writes: the refused
negotiation write leaves the NEGOTIATION status stored (`Negotiated`, last
case), and an execution whose contract `details` is not a dict raises the
TypeError `DetailsNotAnObject` after the file is put and the record updated
(`Executed`). On success a
predicate says exactly which fields of which record changed
(`Rewritten`: only that record, only those fields, plus an `updated_at`
between the two clock readings). It also says what the returned contract holds.

The code behaves as follows in places where a reader might expect otherwise:

- `execute_contract` stores `final_document_id` at the top level of the record.
  It adds it under `details` only on the returned contract.
- The migration stores `migrated_document_id` at the top level.
- A refused renewal raises its own "must be EXECUTED" error (`NotRenewable`),
  not the transition error.
- Approval and rejection are one operation taking the requested status.
  It refuses any other status before touching the store.
- `negotiate_contract` writes the status first and the negotiation second. When
  the stored `details` is not a document, the second write is refused, and the
  status change stays (`Negotiated`, last case).
- Renewal reads the clock four times: twice for the stored `updated_at` and
  renewal date, then once each for the contract's. The stored and returned renewal dates
  are therefore different readings, and both are stated.

## Model

| member | source | states |
|---|---|---|
| ContractModel.Contract.constructor | app/models/contract.py:4-9 | the contract holds exactly the given number, status and details; both timestamps are clock readings, creation no later than update |
| ContractModel.Contract.ToDict | app/models/contract.py:11-18 | exactly the five keys; number, status and details unchanged; timestamps as ISO text; fails only when a timestamp is missing; `from_dict` reads back exactly this contract's fields |
| ContractModel.Decode | app/models/contract.py:20-43 | what `from_dict` reads: an error exactly when a timestamp is text that is not ISO; missing details default to an empty map; a timestamp that is neither text nor a date reads as None |
| ContractModel.ParseTimestamp | app/models/contract.py:27-41 | a timestamp field fails exactly when it is text that is not ISO, with that text in the error; ISO text is parsed, a date is kept, anything else reads as None |
| ContractModel.Contract.FromDict | app/models/contract.py:20-43 | succeeds exactly when `Decode` does, with a fresh contract holding `Decode`'s fields, and otherwise raises `Decode`'s error |
| Time.IsoRoundTrip | app/models/contract.py:16-29 | parsing the ISO text of a timestamp gives back that timestamp |
| Time.Clock.UtcNow | app/services/contract_service.py:53-56 | each clock reading is no earlier than the previous one |
| Text.CaseDoesNotMatter | app/services/contract_service.py:112 | with the `i` option, the letter case of neither the text nor the keyword changes whether it matches |
| BlobStore.GridFs.Put | app/services/contract_service.py:92 | one file is appended with the given name, number and optional `migrated` flag, and its identifier is its position, so it is fresh |
| BlobStore.IdStringInjective | app/services/contract_service.py:97-100 | `str(file_id)` is non-empty, and different files have different identifier strings |
| ContractStore.Collection.FindOne | app/services/contract_service.py:38 | finds the record with that number exactly when one is stored |
| ContractStore.Collection.InsertOne | app/services/contract_service.py:29 | adds the one record under its number, at the end of the natural order |
| ContractStore.ApplySet | app/services/contract_service.py:63-66 | a `$set` of `details.<name>` is refused exactly when `details` exists and is not a document; otherwise the fields are set and the other `details` entries kept |
| ContractStore.Collection.UpdateOne | app/services/contract_service.py:51-54 | matching nothing is not an error; a refused `$set` changes nothing; otherwise only the matched record changes |
| ContractStore.Collection.Find | app/services/contract_service.py:126 | returns only stored records that match the filter, and every stored record that matches |
| Lifecycle.CreateContract | app/services/contract_service.py:13-34 | a missing key raises KeyError and a stored number raises the duplicate error, with nothing written; otherwise exactly one NEW record with the given details is added, which is the new contract's dictionary form |
| Lifecycle.GetContract | app/services/contract_service.py:36-41 | None when the number is not stored; otherwise the contract `from_dict` reads from the record, or its error |
| Lifecycle.TableMovesForward | app/services/contract_service.py:59-86 | every transition of the table moves a contract strictly forward along NEW < NEGOTIATION < APPROVED/REJECTED < SIGNED < EXECUTED < RENEWED |
| Lifecycle.NoCycles | app/services/contract_service.py:59-86 | any chain of transitions ends strictly later than it started |
| Lifecycle.ChainAdvances | app/services/contract_service.py:59-86 | along any chain of transitions each status reached is later than the start and than every status before it, so no status is reached twice |
| Lifecycle.AcceptedMovesForward | app/services/contract_service.py:48-49 | a transition that is not refused starts from a stored status it advances |
| Lifecycle.CheckTransition | app/services/contract_service.py:45-49 | not found, the reading error, or the status error, each in exactly its case; otherwise the contract read from the record |
| Lifecycle.StoreSet | app/services/contract_service.py:51-54 | one `update_one` with a fresh `updated_at`: refused exactly when `details` cannot take the fields; otherwise only that record changes, and only in those fields; keeps the store invariant |
| Lifecycle.RewriteKeepsTimes | app/services/contract_service.py:53 | stamping `updated_at` from the clock and leaving `created_at` alone keeps every record's timestamps in order |
| Lifecycle.RewrittenFields | app/services/contract_service.py:51-54 | after a `$set` the record holds the new value of each field set and the old value of every other field; other records are unchanged |
| Lifecycle.UpdateContractStatus | app/services/contract_service.py:43-57 | `Transitioned`: a missing or disallowed contract is refused with its error and nothing written; otherwise only the status and `updated_at` of that record change, and the returned contract shows the new status |
| Lifecycle.RestampStatus | app/services/contract_service.py:55-56 | the in-memory contract takes the new status and, as `updated_at`, the clock's new reading, which is no earlier than the previous one; its other fields are kept |
| Lifecycle.WriteTransition | app/services/contract_service.py:51-56 | an accepted transition writes the new status and a fresh `updated_at`, and the contract takes both |
| Lifecycle.TransitionNoRegression | app/services/contract_service.py:43-57 | no transition of the table moves any stored status backwards or loses a record |
| Lifecycle.SucceededFromAllowed | app/services/contract_service.py:48-55 | a transition that succeeds started from an allowed status and leaves the record in the target status |
| Lifecycle.SignContract | app/services/contract_service.py:80-82 | APPROVED to SIGNED through the shared primitive; no status moves backwards |
| Lifecycle.ApprovalTransition | app/services/contract_service.py:73-78 | only APPROVED and REJECTED are accepted, each from NEGOTIATION only |
| Lifecycle.ApproveRejectContract | app/services/contract_service.py:70-78 | any other requested status is refused before the store or the clock is touched; otherwise the transition to the requested status |
| Lifecycle.PutDetail | app/services/contract_service.py:67 | `contract.details[name] = v` (also lines 99 and 144) succeeds exactly when the contract's `details` is a dict, then sets that entry only; otherwise the contract is unchanged |
| Lifecycle.SetEntry | app/services/contract_service.py:67 | `details[name] = v` raises TypeError exactly when `details` is not a dict, and otherwise sets that entry only |
| Lifecycle.RecordNegotiation | app/services/contract_service.py:62-67 | after the status write, the negotiation is stored in `details`, keeping the other entries, and copied into the contract; a refused write surfaces as WriteError |
| Lifecycle.NegotiateContract | app/services/contract_service.py:59-68 | `Negotiated`: refused from any status but NEW; otherwise NEGOTIATION with `details.negotiation` set and the other details kept, or the status written and the details write refused |
| Lifecycle.NegotiatedNoRegression | app/services/contract_service.py:59-68 | negotiating never moves a stored status backwards |
| Lifecycle.RecordExecution | app/services/contract_service.py:88-100 | exactly one final document is put, and its identifier is written at the top level of the record and into the returned contract's details |
| Lifecycle.ExecuteContract | app/services/contract_service.py:84-100 | `Executed`: refused from any status but SIGNED with no file put; otherwise one file `<number>_final_contract.txt` is put, the status and `final_document_id` are written, and the returned document id names that file and no earlier one |
| Lifecycle.ExecutedNoRegression | app/services/contract_service.py:84-100 | executing never moves a stored status backwards |
| Lifecycle.CheckRenewal | app/services/contract_service.py:131-147 | not found, the reading error, or the must-be-EXECUTED error, each in exactly its case; otherwise the contract read from the record |
| Lifecycle.StoreRenewal | app/services/contract_service.py:138-141 | one write of RENEWED, `updated_at` and `details.last_renewal_date`, all or nothing |
| Lifecycle.RenewInMemory | app/services/contract_service.py:142-144 | the contract becomes RENEWED with `updated_at` from a fresh clock reading and a renewal date from a reading no earlier than that one; its other details are kept |
| Lifecycle.RecordRenewal | app/services/contract_service.py:138-145 | the record and the contract both become RENEWED with a renewal date, or a refused write changes nothing |
| Lifecycle.RenewContract | app/services/contract_service.py:129-147 | `Renewed`: not found or not EXECUTED is refused with nothing written; otherwise RENEWED with the renewal date stored in `details` and on the contract |
| Lifecycle.RenewedNoRegression | app/services/contract_service.py:129-147 | renewing never moves a stored status backwards |
| Lifecycle.RenewTwice | app/services/contract_service.py:135-147 | once a renewal succeeded, a second one is refused with the must-be-EXECUTED error and writes nothing |
| Lifecycle.SearchQueryMeaning | app/services/contract_service.py:103-124 | the filter matches a record exactly when it is EXECUTED, has the requested number if one is given, and has the keyword, ignoring case, in one of the four fields if one is given |
| Lifecycle.SearchFindsWanted | app/services/contract_service.py:126 | `find` returns only wanted records, every wanted record, and none twice |
| ContractStore.Collection.SelectDistinct | app/services/contract_service.py:126 | scanning distinct numbers selects no record twice, and only records whose number was scanned |
| Lifecycle.WantedReadsBack | app/services/contract_service.py:127 | a contract read from a found record is EXECUTED and carries the requested number |
| Lifecycle.ConsistentSearchReads | app/services/contract_service.py:126-127 | under the store invariant every found record can be read by `from_dict` |
| Lifecycle.SearchExecutedContracts | app/services/contract_service.py:102-127 | one fresh contract per found record, in the store's order, each holding what `from_dict` reads, or the first reading error |
| Lifecycle.ToMigrate | app/services/contract_service.py:166-168 | the rows migrated are legacy rows whose number was not stored; after them every legacy number is stored; no number is migrated twice |
| Lifecycle.NothingLeft | app/services/contract_service.py:168 | when every legacy number is stored, nothing is migrated |
| Lifecycle.MigrationIdempotent | app/services/contract_service.py:166-168 | a second migration right after the first migrates nothing |
| Lifecycle.InsertMigrated | app/services/contract_service.py:170-176 | inserts one MIGRATED contract whose details carry the legacy status and text |
| Lifecycle.AttachOldDocument | app/services/contract_service.py:178-188 | puts one old document and points the record at it through a top-level `migrated_document_id` |
| Lifecycle.MigrateOne | app/services/contract_service.py:167-189 | a stored number is skipped with nothing written; otherwise exactly one migrated record and one old document are added |
| Lifecycle.MigrationTurn | app/services/contract_service.py:167-189 | one turn migrates the row exactly when its number is neither stored before the loop nor migrated earlier, and carries forward what the loop has added so far |
| Lifecycle.MigrateRecords | app/services/contract_service.py:158-189 | the count is the number of rows migrated; the store gains exactly their records, in order, and the blob store exactly their documents; every earlier record is unchanged |
| Lifecycle.MigrateOlderContracts | app/services/contract_service.py:149-191 | the success summary with that count, over the two legacy rows |
| Scenarios.MainFlow | app/services/contract_service.py:59-147 | a new contract goes through negotiation, approval, signing, execution (with a document id) and renewal, and a second renewal is refused |
| Scenarios.SignBeforeApproval | app/services/contract_service.py:80-82 | signing a NEW contract is refused with the transition error |
| Scenarios.CreateTwice | app/services/contract_service.py:18-20 | creating a stored number again is refused |
| Scenarios.ApproveWithUnknownStatus | app/services/contract_service.py:77-78 | approving with a status other than APPROVED or REJECTED is refused |
| Scenarios.MainFlowMovesForward | app/services/contract_service.py:59-147 | the main flow NEW, NEGOTIATION, APPROVED, SIGNED, EXECUTED, RENEWED is a chain of table transitions, each allowed from the status before it, and each step is later than every earlier one |
| Scenarios.MigrateTwice | app/services/contract_service.py:149-191 | a second migration reports zero and adds no record |
| Scenarios.MigrateIntoEmptyStore | app/services/contract_service.py:161-168 | into an empty store both legacy rows are migrated, and re-running migrates none |
| Scenarios.SearchByKeyword | app/services/contract_service.py:105-124 | an EXECUTED "Acme Lease" matches the keyword "acme"; the same contract in NEGOTIATION does not |

## Left out

- HTTP routes, request schemas, and the mapping of `ValueError` to status 400 are transport code. They are not part of this model.
- Application wiring (`app/__init__.py`, `config.py`) is not part of this model.
- Logging has no effect on the model.
- Document bytes are not modelled. The blob store keeps each file's name, contract number and `migrated` flag only, so the text rendered from the contract or the legacy row is left out.
- Time.IsoFormat: real ISO 8601 text is replaced by a decimal rendering of an abstract timestamp. Only the round trip and the rejection of malformed text are modelled. BSON's millisecond truncation of stored dates is left out too.
- Lifecycle.Consistent: the invariant's ordering of `created_at` before `updated_at` relies on the millisecond truncation being left out. The source stores `created_at` as microsecond ISO text but `$set`s `updated_at` as a BSON date cut to milliseconds. So an update within the creation millisecond (for example a migration's second write at lines 185-188) can store an `updated_at` that reads back earlier than `created_at`. The model does not capture this.
- Time.Clock.UtcNow: the real wall clock is left out. The clock only promises that readings never go backwards.
- Text.ContainsIgnoringCase: the keyword is matched as a plain substring with ASCII case folding. Regular-expression metacharacters and Unicode case folding are left out.
- ContractStore.Holds: a keyword condition on a field holding an array does not match here, whereas MongoDB would match an array element. `create_contract` stores client details unchecked, so such arrays can occur; MongoDB's array-element matching is not modelled.
- ContractStore.Collection.FindOne: a lookup by `contract_number`, and an `Equals` condition on `contract_number` or `status` in the search, compare the stored value by plain equality. MongoDB would also match a stored array containing the value; the model does not, for the same reason. Likewise, `create_contract` passes the client's `contract_number` to `find_one` unchecked (line 18). MongoDB reads an object value with `$`-prefixed keys, such as `{"$gt": ""}`, as a query operator: it then finds any stored contract with a string number and raises the duplicate error (line 20). The model compares that object by plain equality, finds nothing and inserts.
- Store and blob-store failures are not modelled: every `insert_one`, `update_one` and `put` succeeds, except a `$set` refused because `details` is not a document. So the model does not capture an orphan file left by a `put` whose following `update_one` fails in `execute_contract` (lines 86-98), nor a MIGRATED record left without a document that a re-run then skips (lines 168-183).
- MongoDB's `_id` field and the store's handling of duplicate keys under concurrent inserts are left out. Calls are sequential, so the read-then-write race between two requests is left out too.
- The legacy source of the migration is the fixed list in the code. Reading a real SQL system is left out.
