/**
 * Concrete runs of the lifecycle engine against an empty store, stating the
 * outcomes a client of the service sees.
 */
module Scenarios {
  import opened Common
  import opened Time
  import opened Values
  import opened ContractModel
  import opened ContractStore
  import opened BlobStore
  import opened Lifecycle

  /** A contract cannot be signed before it was negotiated and approved. */
  method SignBeforeApproval() returns (signed: Result<Contract>)
    ensures signed == Err(InvalidTransition(Str(NEW), SIGNED))
  {
    var db := new Collection();
    var clock := new Clock(0);
    CreateStep(db, clock, "C-100");
    signed := SignContract(db, clock, "C-100");
  }

  /** The record of `number` is stored with status `status` and `details` that are a document. */
  ghost predicate StoredAt(records: Records, number: string, status: string) {
    var key := Str(number);
    key in records && StatusOf(records[key]) == Str(status)
    && "details" in records[key] && records[key]["details"].Dict?
  }

  /** A rewrite that sets the status and keeps `details` a document lands in that status. */
  lemma Lands(before: Records, after: Records, number: string, changes: Document, status: string,
              t0: Timestamp, t1: Timestamp)
    requires Rewritten(before, after, Str(number), changes, t0, t1)
    requires "status" in changes && changes["status"] == Str(status)
    requires "details" in changes ==> changes["details"].Dict?
    requires "details" !in changes ==> "details" in before[Str(number)] && before[Str(number)]["details"].Dict?
    ensures StoredAt(after, number, status)
  {
    RewrittenFields(before, after, Str(number), changes, t0, t1);
  }

  /**
   * The main flow of one contract: negotiated, approved, signed, executed
   * (with its final document as the store's first file) and renewed, after
   * which a second renewal is refused.
   */
  method MainFlow() returns (executed: Result<Execution>, renewed: Result<Contract>, again: Result<Contract>)
    ensures executed.Ok? && executed.value.document == DocumentRef(IdString(0), FinalFilename("C-100"))
    ensures renewed.Ok? && renewed.value.status == Str(RENEWED)
    ensures again == Err(NotRenewable(Str(RENEWED)))
  {
    var db := new Collection();
    var gridfs := new GridFs();
    var clock := new Clock(0);
    ReachSigned(db, clock, "C-100");
    executed, renewed, again := ExecuteAndRenew(db, gridfs, clock, "C-100");
  }

  /** Create a contract and take it through negotiation and approval to SIGNED. */
  method ReachSigned(db: Collection, clock: Clock, number: string)
    requires Consistent(db, clock) && Str(number) !in db.docs
    modifies db, clock
    ensures Consistent(db, clock) && StoredAt(db.docs, number, SIGNED)
  {
    CreateStep(db, clock, number);
    NegotiateStep(db, clock, number);
    ApproveStep(db, clock, number);
    SignStep(db, clock, number);
  }

  /** Execute a SIGNED contract, renew it, and try to renew it once more. */
  method ExecuteAndRenew(db: Collection, gridfs: GridFs, clock: Clock, number: string)
    returns (executed: Result<Execution>, renewed: Result<Contract>, again: Result<Contract>)
    requires Consistent(db, clock) && StoredAt(db.docs, number, SIGNED) && gridfs.files == []
    modifies db, gridfs, clock
    ensures executed.Ok? && executed.value.document == DocumentRef(IdString(0), FinalFilename(number))
    ensures renewed.Ok? && renewed.value.status == Str(RENEWED)
    ensures again == Err(NotRenewable(Str(RENEWED)))
  {
    executed := ExecuteStep(db, gridfs, clock, number);
    renewed := RenewStep(db, clock, number);
    again := RenewAgainStep(db, clock, number);
  }

  method CreateStep(db: Collection, clock: Clock, number: string)
    requires Consistent(db, clock) && Str(number) !in db.docs
    modifies db, clock
    ensures Consistent(db, clock) && StoredAt(db.docs, number, NEW)
  {
    var r := CreateContract(db, clock, map["contract_number" := Str(number), "details" := Dict(map[])]);
  }

  method NegotiateStep(db: Collection, clock: Clock, number: string)
    requires Consistent(db, clock) && StoredAt(db.docs, number, NEW)
    modifies db, clock
    ensures Consistent(db, clock) && StoredAt(db.docs, number, NEGOTIATION)
  {
    var key := Str(number);
    var negotiation := Str("net 30");
    var r := NegotiateContract(db, clock, number, negotiation);
    Lands(old(db.docs), db.docs, number,
          map["status" := Str(NEGOTIATION),
              "details" := Dict(DetailsEntries(old(db.docs)[key])["negotiation" := negotiation])],
          NEGOTIATION, old(clock.now), clock.now);
  }

  method ApproveStep(db: Collection, clock: Clock, number: string)
    requires Consistent(db, clock) && StoredAt(db.docs, number, NEGOTIATION)
    modifies db, clock
    ensures Consistent(db, clock) && StoredAt(db.docs, number, APPROVED)
  {
    var r := ApproveRejectContract(db, clock, number, APPROVED);
    Lands(old(db.docs), db.docs, number, map["status" := Str(APPROVED)], APPROVED, old(clock.now), clock.now);
  }

  method SignStep(db: Collection, clock: Clock, number: string)
    requires Consistent(db, clock) && StoredAt(db.docs, number, APPROVED)
    modifies db, clock
    ensures Consistent(db, clock) && StoredAt(db.docs, number, SIGNED)
  {
    var r := SignContract(db, clock, number);
    Lands(old(db.docs), db.docs, number, map["status" := Str(SIGNED)], SIGNED, old(clock.now), clock.now);
  }

  method ExecuteStep(db: Collection, gridfs: GridFs, clock: Clock, number: string) returns (r: Result<Execution>)
    requires Consistent(db, clock) && StoredAt(db.docs, number, SIGNED) && gridfs.files == []
    modifies db, gridfs, clock
    ensures Consistent(db, clock) && StoredAt(db.docs, number, EXECUTED)
    ensures r.Ok? && r.value.document == DocumentRef(IdString(0), FinalFilename(number))
  {
    r := ExecuteContract(db, gridfs, clock, number);
    ExecutionLands(old(db.docs), db.docs, number, r, old(clock.now), clock.now);
  }

  /** Executing a SIGNED contract whose `details` are a document lands in EXECUTED with the first file as its document. */
  lemma ExecutionLands(before: Records, after: Records, number: string, r: Result<Execution>, t0: Timestamp, t1: Timestamp)
    requires StoredAt(before, number, SIGNED) && Executed(before, after, number, 0, r, t0, t1)
    ensures StoredAt(after, number, EXECUTED)
    ensures r.Ok? && r.value.document == DocumentRef(IdString(0), FinalFilename(number))
  {
    Lands(before, after, number, map["status" := Str(EXECUTED), "final_document_id" := Str(IdString(0))],
          EXECUTED, t0, t1);
  }

  method RenewStep(db: Collection, clock: Clock, number: string) returns (r: Result<Contract>)
    requires Consistent(db, clock) && StoredAt(db.docs, number, EXECUTED)
    modifies db, clock
    ensures Consistent(db, clock) && StoredAt(db.docs, number, RENEWED)
    ensures r.Ok? && r.value.status == Str(RENEWED)
  {
    r := RenewContract(db, clock, number);
    Lands(old(db.docs), db.docs, number, map["status" := Str(RENEWED), "details" := Get(db.docs[Str(number)], "details")],
          RENEWED, old(clock.now), clock.now);
  }

  method RenewAgainStep(db: Collection, clock: Clock, number: string) returns (r: Result<Contract>)
    requires Consistent(db, clock) && StoredAt(db.docs, number, RENEWED)
    modifies db, clock
    ensures r == Err(NotRenewable(Str(RENEWED)))
  {
    r := RenewContract(db, clock, number);
  }

  /** Creating the same contract number twice is refused the second time. */
  method CreateTwice() returns (first: Result<Contract>, second: Result<Contract>)
    ensures first.Ok? && first.value.contractNumber == Str("C-100")
    ensures second == Err(DuplicateContract(Str("C-100")))
  {
    var db := new Collection();
    var clock := new Clock(0);
    var data := map["contract_number" := Str("C-100"), "details" := Dict(map[])];
    first := CreateContract(db, clock, data);
    second := CreateContract(db, clock, data);
  }

  /** An approval request for a status other than APPROVED or REJECTED is refused. */
  method ApproveWithUnknownStatus() returns (r: Result<Contract>)
    ensures r == Err(InvalidApprovalStatus("SIGNED"))
  {
    var db := new Collection();
    var clock := new Clock(0);
    var _ := CreateContract(db, clock, map["contract_number" := Str("C-100"), "details" := Dict(map[])]);
    r := ApproveRejectContract(db, clock, "C-100", "SIGNED");
  }

  /** The main flow as a chain of table transitions. */
  const MainPath := [ToNegotiation, ToApproved, ToSigned, ToExecuted, ToRenewed]

  /**
   * The main flow NEW, NEGOTIATION, APPROVED, SIGNED, EXECUTED, RENEWED is a
   * chain of the table's transitions, each allowed from the status the one
   * before it reached, and every step moves strictly forward.
   */
  lemma MainFlowMovesForward()
    ensures AllowedFrom(Str(NEW), MainPath[0])
    ensures forall i :: 0 < i < |MainPath| ==> AllowedFrom(Str(MainPath[i - 1].target), MainPath[i])
    ensures MainPath[|MainPath| - 1].target == RENEWED
    ensures forall i, j :: 0 <= i < j < |MainPath| ==> Advances(Str(MainPath[i].target), Str(MainPath[j].target))
  {
    ChainAdvances(MainPath, Str(NEW));
  }

  /** A second migration right after the first imports nothing and adds no record. */
  method MigrateTwice(db: Collection, gridfs: GridFs, clock: Clock) returns (first: MigrationSummary, second: MigrationSummary)
    requires Consistent(db, clock)
    modifies db, gridfs, clock
    ensures first.migratedCount == |ToMigrate(LegacyContracts, old(db.docs).Keys)|
    ensures second.migratedCount == 0
    ensures |db.order| == |old(db.order)| + first.migratedCount
  {
    first := MigrateOlderContracts(db, gridfs, clock);
    MigrationIdempotent(LegacyContracts, old(db.docs).Keys);
    second := MigrateOlderContracts(db, gridfs, clock);
  }

  /** A first migration into an empty store imports both legacy rows; a second imports none. */
  lemma MigrateIntoEmptyStore()
    ensures ToMigrate(LegacyContracts, {}) == LegacyContracts
    ensures ToMigrate(LegacyContracts, Numbers(LegacyContracts)) == []
  {
    assert LegacyContracts[..1] == [LegacyContracts[0]];
    assert Str("OLD-002") !in Numbers([LegacyContracts[0]]);
    MigrationIdempotent(LegacyContracts, {});
    assert {} + Numbers(LegacyContracts) == Numbers(LegacyContracts);
  }

  /** A keyword search finds an EXECUTED "Acme Lease" whatever the case, but not one still in negotiation. */
  lemma SearchByKeyword()
    ensures var executed := map["contract_number" := Str("C-1"), "status" := Str(EXECUTED),
                                "details" := Dict(map["contract_name" := Str("Acme Lease")])];
            Matches(SearchQuery(map["keyword" := "acme"]), executed)
    ensures var pending := map["contract_number" := Str("C-2"), "status" := Str(NEGOTIATION),
                               "details" := Dict(map["contract_name" := Str("Acme Lease")])];
            !Matches(SearchQuery(map["keyword" := "acme"]), pending)
  {
    var params := map["keyword" := "acme"];
    var name := Dict(map["contract_name" := Str("Acme Lease")]);
    var executed := map["contract_number" := Str("C-1"), "status" := Str(EXECUTED), "details" := name];
    var pending := map["contract_number" := Str("C-2"), "status" := Str(NEGOTIATION), "details" := name];
    assert Text.OccursAt("acme", "Acme Lease", 0) by {
      assert "Acme Lease"[0..4] == "Acme";
    }
    assert KeywordIn(executed, "contract_name", "acme");
    assert "contract_name" in KeywordFields;
    SearchQueryMeaning(params, executed);
    SearchQueryMeaning(params, pending);
  }
}
