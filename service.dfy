/**
 * The contract lifecycle engine (app/services/contract_service.py): creation,
 * the status state machine, execution with its final document, search,
 * renewal and the migration of legacy contracts.
 */
module Lifecycle {
  import opened Common
  import opened Time
  import opened Values
  import opened ContractModel
  import opened ContractStore
  import opened BlobStore
  import Text

  const NEW := "NEW"
  const NEGOTIATION := "NEGOTIATION"
  const APPROVED := "APPROVED"
  const REJECTED := "REJECTED"
  const SIGNED := "SIGNED"
  const EXECUTED := "EXECUTED"
  const RENEWED := "RENEWED"
  const MIGRATED := "MIGRATED"

  type Records = map<Value, Document>

  function StatusOf(doc: Document): Value {
    Get(doc, "status")
  }

  // ---------------------------------------------------------------------
  // The transition table and the order it follows
  // ---------------------------------------------------------------------

  /** A status change: the new status and the statuses it may start from. */
  datatype Transition = Transition(target: string, allowed: seq<string>)

  const ToNegotiation := Transition(NEGOTIATION, [NEW])
  const ToApproved := Transition(APPROVED, [NEGOTIATION])
  const ToRejected := Transition(REJECTED, [NEGOTIATION])
  const ToSigned := Transition(SIGNED, [APPROVED])
  const ToExecuted := Transition(EXECUTED, [SIGNED])
  /** Renewal checks its predecessor itself rather than through the shared primitive. */
  const ToRenewed := Transition(RENEWED, [EXECUTED])

  const Table := [ToNegotiation, ToApproved, ToRejected, ToSigned, ToExecuted, ToRenewed]

  /** Position along the main flow; MIGRATED and unknown statuses have none. */
  function Rank(status: string): Option<nat> {
    if status == NEW then Some(0)
    else if status == NEGOTIATION then Some(1)
    else if status == APPROVED || status == REJECTED then Some(2)
    else if status == SIGNED then Some(3)
    else if status == EXECUTED then Some(4)
    else if status == RENEWED then Some(5)
    else None
  }

  /** Moving from status `a` to status `b` goes strictly forward. */
  predicate Advances(a: Value, b: Value) {
    a.Str? && b.Str? && Rank(a.s).Some? && Rank(b.s).Some? && Rank(a.s).value < Rank(b.s).value
  }

  predicate AllowedFrom(status: Value, t: Transition) {
    status.Str? && status.s in t.allowed
  }

  /** Every entry of the table moves a contract strictly forward. */
  lemma TableMovesForward(t: Transition, from: Value)
    requires t in Table && AllowedFrom(from, t)
    ensures Advances(from, Str(t.target))
  {
  }

  /** No status is reachable again once left: a walk along the table never returns. */
  lemma NoCycles(path: seq<Transition>, from: Value)
    requires forall i :: 0 <= i < |path| ==> path[i] in Table
    requires |path| > 0 && AllowedFrom(from, path[0])
    requires forall i :: 0 < i < |path| ==> AllowedFrom(Str(path[i - 1].target), path[i])
    ensures Advances(from, Str(path[|path| - 1].target))
  {
    ChainAdvances(path, from);
  }

  /**
   * Along a chain of transitions every status is reached strictly later than
   * the start and than every status before it, so no status is reached twice.
   */
  lemma {:induction false} ChainAdvances(path: seq<Transition>, from: Value)
    requires forall i :: 0 <= i < |path| ==> path[i] in Table
    requires |path| > 0 && AllowedFrom(from, path[0])
    requires forall i :: 0 < i < |path| ==> AllowedFrom(Str(path[i - 1].target), path[i])
    ensures forall j :: 0 <= j < |path| ==> Advances(from, Str(path[j].target))
    ensures forall i, j :: 0 <= i < j < |path| ==> Advances(Str(path[i].target), Str(path[j].target))
    ensures forall i, j :: 0 <= i < j < |path| ==> path[i].target != path[j].target
    decreases |path|
  {
    TableMovesForward(path[0], from);
    if |path| > 1 {
      var rest := path[1..];
      assert forall k :: 0 < k < |rest| ==> AllowedFrom(Str(path[k].target), path[k + 1]);
      ChainAdvances(rest, Str(path[0].target));
      assert forall j :: 1 <= j < |path| ==> path[j] == rest[j - 1];
    }
  }

  /** No stored status moves backwards, and no record disappears. */
  ghost predicate NoRegression(before: Records, after: Records) {
    forall k :: k in before ==>
      k in after && (StatusOf(after[k]) == StatusOf(before[k]) || Advances(StatusOf(before[k]), StatusOf(after[k])))
  }

  // ---------------------------------------------------------------------
  // The store invariant
  // ---------------------------------------------------------------------

  /** A record reads back with both timestamps, created no later than updated, updated no later than `now`. */
  ghost predicate TimesOk(doc: Document, now: Timestamp) {
    var c := StoredTime(Get(doc, "created_at"));
    var u := StoredTime(Get(doc, "updated_at"));
    c.Some? && u.Some? && c.value <= u.value <= now
  }

  /** The timestamp a stored field holds: ISO text as `to_dict` writes it, or a BSON date as `$set` writes it. */
  function StoredTime(v: Value): Option<Timestamp> {
    match v
    case Str(s) => FromIsoFormat(s)
    case DateTime(t) => Some(t)
    case _ => None
  }

  /** A record whose timestamps are in order reads back without error, with both timestamps. */
  lemma TimesOkDecodes(doc: Document, now: Timestamp)
    requires TimesOk(doc, now)
    ensures Decode(doc).Ok?
    ensures Decode(doc).value.createdAt == StoredTime(Get(doc, "created_at"))
    ensures Decode(doc).value.updatedAt == StoredTime(Get(doc, "updated_at"))
  {
  }

  /** Every record's timestamps are in order and no later than `now`. */
  ghost predicate AllTimesOk(records: Records, now: Timestamp) {
    forall k :: k in records ==> TimesOk(records[k], now)
  }

  /** The store invariant every operation keeps: well-formed, with every record's timestamps in order. */
  ghost predicate Consistent(db: Collection, clock: Clock)
    reads db, clock
  {
    db.Valid() && AllTimesOk(db.docs, clock.now)
  }

  /**
   * `after` differs from `before` only in record `key`, which took the fields
   * `changes` plus an `updated_at` read from the clock between `t0` and `t1`.
   */
  ghost predicate Rewritten(before: Records, after: Records, key: Value, changes: Document, t0: Timestamp, t1: Timestamp) {
    && key in before && key in after && after == before[key := after[key]]
    && "updated_at" in after[key] && after[key]["updated_at"].DateTime?
    && t0 <= after[key]["updated_at"].t <= t1
    && after[key] == before[key] + changes + map["updated_at" := after[key]["updated_at"]]
  }

  /** After a rewrite the record holds each changed field's new value and every other field's old one. */
  lemma RewrittenFields(before: Records, after: Records, key: Value, changes: Document, t0: Timestamp, t1: Timestamp)
    requires Rewritten(before, after, key, changes, t0, t1)
    ensures forall name :: name in changes && name != "updated_at" ==> name in after[key] && after[key][name] == changes[name]
    ensures forall name :: name in before[key] && name !in changes && name != "updated_at" ==>
              name in after[key] && after[key][name] == before[key][name]
    ensures forall k :: k in before && k != key ==> k in after && after[k] == before[k]
  {
  }

  /** Timestamps in order stay in order as the clock moves on. */
  lemma TimesLater(records: Records, a: Timestamp, b: Timestamp)
    requires AllTimesOk(records, a)
    requires a <= b
    ensures AllTimesOk(records, b)
  {
  }

  /** A rewrite that leaves `created_at` alone and stamps `updated_at` from the clock keeps the timestamps in order. */
  lemma RewriteKeepsTimes(before: Records, after: Records, key: Value, changes: Document, t0: Timestamp, t1: Timestamp)
    requires AllTimesOk(before, t0)
    requires "created_at" !in changes && "updated_at" !in changes
    requires Rewritten(before, after, key, changes, t0, t1)
    ensures AllTimesOk(after, t1)
  {
    var d := after[key];
    assert Get(d, "created_at") == Get(before[key], "created_at");
    assert Get(d, "updated_at") == d["updated_at"];
    forall k | k in after
      ensures TimesOk(after[k], t1)
    {
      if k != key {
        assert after[k] == before[k];
      }
    }
  }

  /** The `details` a `$set` of `details.<name>` fields leaves in `doc`, as a top-level change. */
  function DetailsChange(doc: Document, inDetails: map<string, Value>): Document {
    if inDetails == map[] then map[] else map["details" := Dict(DetailsEntries(doc) + inDetails)]
  }

  /** A `$set` of top-level `changes`, `details` fields `inDetails` and a clock reading `stamp` is a rewrite of record `key`. */
  lemma SetIsRewrite(before: Records, key: Value, changes: Document, inDetails: map<string, Value>,
                     stamp: Timestamp, t0: Timestamp, t1: Timestamp)
    requires key in before && t0 <= stamp <= t1
    requires "updated_at" !in changes && "details" !in changes
    requires inDetails == map[] || DetailsWritable(before[key])
    ensures ApplySet(before[key], changes + map["updated_at" := DateTime(stamp)], inDetails).Some?
    ensures Rewritten(before, before[key := ApplySet(before[key], changes + map["updated_at" := DateTime(stamp)], inDetails).value],
                      key, changes + DetailsChange(before[key], inDetails), t0, t1)
  {
    var u := map["updated_at" := DateTime(stamp)];
    var doc := before[key];
    var d := ApplySet(doc, changes + u, inDetails).value;
    var dc := DetailsChange(doc, inDetails);
    assert d == doc + (changes + dc) + u;
  }

  /** Two rewrites of the same record in a row are one rewrite. */
  lemma RewrittenTwice(before: Records, mid: Records, after: Records, key: Value, first: Document, second: Document,
                       t0: Timestamp, tm: Timestamp, t1: Timestamp)
    requires Rewritten(before, mid, key, first, t0, tm) && Rewritten(mid, after, key, second, tm, t1)
    requires "updated_at" !in first
    ensures Rewritten(before, after, key, first + second, t0, t1)
  {
    var u := after[key]["updated_at"];
    var v := mid[key]["updated_at"];
    assert after[key] == before[key] + first + map["updated_at" := v] + second + map["updated_at" := u];
    assert after[key] == before[key] + (first + second) + map["updated_at" := u];
  }

  /** A rewrite whose status change, if any, goes forward keeps every status from moving backwards. */
  lemma RewriteNoRegression(before: Records, after: Records, key: Value, changes: Document, t0: Timestamp, t1: Timestamp)
    requires Rewritten(before, after, key, changes, t0, t1)
    requires "status" in changes ==> Advances(StatusOf(before[key]), changes["status"])
    ensures NoRegression(before, after)
  {
    assert StatusOf(after[key]) == if "status" in changes then changes["status"] else StatusOf(before[key]);
  }

  /** Python's `details[name] = v`: a TypeError unless `details` is a dict. */
  function SetEntry(details: Value, name: string, v: Value): (r: Result<Value>)
    ensures r.Ok? <==> details.Dict?
    ensures r.Ok? ==> r.value == Dict(details.entries[name := v])
    ensures r.Err? ==> r.error == DetailsNotAnObject
  {
    if details.Dict? then Ok(Dict(details.entries[name := v])) else Err(DetailsNotAnObject)
  }

  /** The details a contract read from `doc` holds (the default of `from_dict` when absent). */
  function DetailsValue(doc: Document): Value {
    GetOr(doc, "details", Dict(map[]))
  }

  // ---------------------------------------------------------------------
  // create_contract and get_contract
  // ---------------------------------------------------------------------

  /** `create_contract(db, data)`. */
  method CreateContract(db: Collection, clock: Clock, data: Document) returns (r: Result<Contract>)
    requires Consistent(db, clock)
    modifies db, clock
    ensures Consistent(db, clock) && NoRegression(old(db.docs), db.docs)
    ensures "contract_number" !in data ==>
              r == Err(MissingKey("contract_number")) && db.docs == old(db.docs) && db.order == old(db.order)
    ensures "contract_number" in data && data["contract_number"] in old(db.docs) ==>
              r == Err(DuplicateContract(data["contract_number"])) && db.docs == old(db.docs) && db.order == old(db.order)
    ensures "contract_number" in data && data["contract_number"] !in old(db.docs) && "details" !in data ==>
              r == Err(MissingKey("details")) && db.docs == old(db.docs) && db.order == old(db.order)
    ensures "contract_number" in data && data["contract_number"] !in old(db.docs) && "details" in data ==>
              && r.Ok? && fresh(r.value)
              && r.value.contractNumber == data["contract_number"] && r.value.status == Str(NEW)
              && r.value.details == data["details"]
              && r.value.createdAt.Some? && r.value.updatedAt.Some?
              && old(clock.now) <= r.value.createdAt.value <= r.value.updatedAt.value <= clock.now
              && r.value.ToDict().Ok?
              && db.docs == old(db.docs)[data["contract_number"] := r.value.ToDict().value]
              && db.order == old(db.order) + [data["contract_number"]]
  {
    if "contract_number" !in data {
      return Err(MissingKey("contract_number"));
    }
    var number := data["contract_number"];
    if db.FindOne(number).Some? {
      return Err(DuplicateContract(number));
    }
    if "details" !in data {
      return Err(MissingKey("details"));
    }
    var contract := new Contract(number, Str(NEW), data["details"], clock);
    var record := contract.ToDict();
    db.InsertOne(record.value);
    r := Ok(contract);
  }

  /** `get_contract(db, contract_number)`: None when absent. */
  method GetContract(db: Collection, clock: Clock, contractNumber: string) returns (r: Result<Option<Contract>>)
    requires db.Valid()
    modifies clock
    ensures old(clock.now) <= clock.now
    ensures Str(contractNumber) !in db.docs ==> r == Ok(None)
    ensures Str(contractNumber) in db.docs ==>
              var d := Decode(db.docs[Str(contractNumber)]);
              && (r.Ok? <==> d.Ok?)
              && (r.Err? ==> r.error == d.error)
              && (r.Ok? ==> r.value.Some? && fresh(r.value.value) && r.value.value.Fields() == d.value)
  {
    var found := db.FindOne(Str(contractNumber));
    if found.None? {
      return Ok(None);
    }
    var c := Contract.FromDict(found.value, clock);
    if c.Err? {
      return Err(c.error);
    }
    r := Ok(Some(c.value));
  }

  // ---------------------------------------------------------------------
  // The shared transition primitive and the operations built on it
  // ---------------------------------------------------------------------

  /** The error a transition raises before writing anything, if any. */
  function Refusal(records: Records, key: Value, t: Transition): Option<Error> {
    if key !in records then Some(NotFound)
    else if !AllowedFrom(StatusOf(records[key]), t) then Some(InvalidTransition(StatusOf(records[key]), t.target))
    else None
  }

  /** A transition that is not refused moves the stored status forward. */
  lemma AcceptedMovesForward(records: Records, key: Value, t: Transition)
    requires t in Table && Refusal(records, key, t).None?
    ensures key in records && Advances(StatusOf(records[key]), Str(t.target))
  {
    TableMovesForward(t, StatusOf(records[key]));
  }


  /** `contract` holds exactly what `Contract.from_dict` reads from `doc`. */
  ghost predicate Loaded(contract: Contract, doc: Document)
    reads contract
  {
    && contract.contractNumber == Get(doc, "contract_number")
    && contract.status == StatusOf(doc)
    && contract.details == DetailsValue(doc)
    && contract.createdAt == StoredTime(Get(doc, "created_at"))
    && contract.updatedAt == StoredTime(Get(doc, "updated_at"))
  }

  /**
   * `contract`, read from the record `doc`, now holds `status` and `details`,
   * keeps the number and creation time it was read with, and carries a clock
   * reading between `t0` and `t1` as its `updated_at`.
   */
  ghost predicate Reflects(contract: Contract, doc: Document, status: Value, details: Value, t0: Timestamp, t1: Timestamp)
    reads contract
  {
    && contract.contractNumber == Get(doc, "contract_number")
    && contract.status == status && contract.details == details
    && contract.createdAt == StoredTime(Get(doc, "created_at"))
    && contract.updatedAt.Some? && t0 <= contract.updatedAt.value <= t1
  }

  /** A record that reads back holds the timestamps its fields store. */
  lemma DecodedTimes(doc: Document)
    requires Decode(doc).Ok?
    ensures Decode(doc).value.createdAt == StoredTime(Get(doc, "created_at"))
    ensures Decode(doc).value.updatedAt == StoredTime(Get(doc, "updated_at"))
  {
  }

  /** Lines 45-49 of `_update_contract_status`: read the contract and check its status. */
  method CheckTransition(db: Collection, clock: Clock, contractNumber: string, t: Transition)
    returns (r: Result<Contract>)
    requires db.Valid()
    modifies clock
    ensures old(clock.now) <= clock.now
    ensures var key := Str(contractNumber);
            && (key !in db.docs ==> r == Err(NotFound))
            && (key in db.docs && Decode(db.docs[key]).Err? ==> r == Err(Decode(db.docs[key]).error))
            && (key in db.docs && Decode(db.docs[key]).Ok? && !AllowedFrom(StatusOf(db.docs[key]), t) ==>
                  r == Err(InvalidTransition(StatusOf(db.docs[key]), t.target)))
            && (key in db.docs && Decode(db.docs[key]).Ok? && AllowedFrom(StatusOf(db.docs[key]), t) ==>
                  r.Ok? && fresh(r.value) && Loaded(r.value, db.docs[key]))
  {
    var found := GetContract(db, clock, contractNumber);
    if found.Err? {
      return Err(found.error);
    }
    if found.value.None? {
      return Err(NotFound);
    }
    DecodedTimes(db.docs[Str(contractNumber)]);
    var contract := found.value.value;
    if !(contract.status.Str? && contract.status.s in t.allowed) {
      return Err(InvalidTransition(contract.status, t.target));
    }
    r := Ok(contract);
  }

  /**
   * One `update_one` on record `key` setting the top-level fields `changes`,
   * the `details` fields `inDetails` and `updated_at` to a fresh clock reading.
   * It is refused, changing nothing, exactly when `details` cannot take fields.
   */
  method StoreSet(db: Collection, clock: Clock, key: Value, changes: Document, inDetails: map<string, Value>)
    returns (ok: bool)
    requires Consistent(db, clock) && key in db.docs
    requires "contract_number" !in changes && "details" !in changes
    requires "created_at" !in changes && "updated_at" !in changes
    modifies db, clock
    ensures Consistent(db, clock) && db.order == old(db.order) && old(clock.now) <= clock.now
    ensures ok <==> inDetails == map[] || DetailsWritable(old(db.docs)[key])
    ensures ok ==> Rewritten(old(db.docs), db.docs, key, changes + DetailsChange(old(db.docs)[key], inDetails),
                             old(clock.now), clock.now)
    ensures !ok ==> db.docs == old(db.docs)
  {
    var stamp := clock.UtcNow();
    ghost var before := db.docs;
    ok := db.UpdateOne(key, changes + map["updated_at" := DateTime(stamp)], inDetails);
    if ok {
      SetIsRewrite(before, key, changes, inDetails, stamp, old(clock.now), stamp);
      RewriteKeepsTimes(before, db.docs, key, changes + DetailsChange(before[key], inDetails), old(clock.now), stamp);
    }
  }

  /** A rewrite stamped before `t1` was stamped before any later `t2`. */
  lemma RewrittenLater(before: Records, after: Records, key: Value, changes: Document, t0: Timestamp, t1: Timestamp, t2: Timestamp)
    requires Rewritten(before, after, key, changes, t0, t1) && t1 <= t2
    ensures Rewritten(before, after, key, changes, t0, t2)
  {
  }

  /** Lines 55-56 of `_update_contract_status`: the in-memory contract takes the new status and a fresh `updated_at`. */
  method RestampStatus(contract: Contract, clock: Clock, ghost doc: Document, status: Value, ghost t0: Timestamp)
    requires Loaded(contract, doc) && t0 <= clock.now
    modifies contract, clock
    ensures Reflects(contract, doc, status, DetailsValue(doc), t0, clock.now) && old(clock.now) <= clock.now
    ensures contract.updatedAt == Some(clock.now)
  {
    contract.status := status;
    var now := clock.UtcNow();
    contract.updatedAt := Some(now);
  }

  /** Python's `contract.details[name] = v` on the in-memory contract: fails unless `details` is a dict. */
  method PutDetail(contract: Contract, name: string, v: Value,
                   ghost doc: Document, ghost status: Value, ghost details: Value,
                   ghost t0: Timestamp, ghost t1: Timestamp, ghost t2: Timestamp)
    returns (ok: bool)
    requires Reflects(contract, doc, status, details, t0, t1) && t1 <= t2
    modifies contract
    ensures ok <==> details.Dict?
    ensures ok ==> Reflects(contract, doc, status, Dict(details.entries[name := v]), t0, t2)
    ensures !ok ==> Reflects(contract, doc, status, details, t0, t2)
    ensures contract.updatedAt == old(contract.updatedAt)
  {
    var updated := SetEntry(contract.details, name, v);
    ok := updated.Ok?;
    if ok {
      contract.details := updated.value;
    }
  }

  /**
   * The outcome of one transition of record `key`: refused with the store
   * untouched, or the status written with a fresh `updated_at` and the
   * returned contract showing the new status.
   */
  ghost predicate Transitioned(before: Records, after: Records, key: Value, t: Transition, r: Result<Contract>,
                               t0: Timestamp, t1: Timestamp)
    reads if r.Ok? then {r.value} else {}
  {
    match Refusal(before, key, t)
    case Some(e) => r == Err(e) && after == before
    case None =>
      && Rewritten(before, after, key, map["status" := Str(t.target)], t0, t1)
      && r.Ok? && Reflects(r.value, before[key], Str(t.target), DetailsValue(before[key]), t0, t1)
  }

  /** `_update_contract_status(db, contract_number, new_status, allowed_previous_statuses)`. */
  method UpdateContractStatus(db: Collection, clock: Clock, contractNumber: string, t: Transition)
    returns (r: Result<Contract>)
    requires Consistent(db, clock)
    modifies db, clock
    ensures Consistent(db, clock) && db.order == old(db.order) && old(clock.now) <= clock.now
    ensures Transitioned(old(db.docs), db.docs, Str(contractNumber), t, r, old(clock.now), clock.now)
    ensures r.Ok? ==> fresh(r.value)
  {
    if Str(contractNumber) in db.docs {
      TimesOkDecodes(db.docs[Str(contractNumber)], clock.now);
    }
    var key := Str(contractNumber);
    r := CheckTransition(db, clock, contractNumber, t);
    TimesLater(db.docs, old(clock.now), clock.now);
    if r.Ok? {
      WriteTransition(db, clock, r.value, key, t);
    } else {
      TransitionRefused(db.docs, key, t, r, old(clock.now), clock.now);
    }
  }

  /** Lines 51-56 of `_update_contract_status`: write the accepted transition to the store and to `contract`. */
  method WriteTransition(db: Collection, clock: Clock, contract: Contract, key: Value, t: Transition)
    requires Consistent(db, clock) && Refusal(db.docs, key, t).None? && Loaded(contract, db.docs[key])
    modifies db, clock, contract
    ensures Consistent(db, clock) && db.order == old(db.order) && old(clock.now) <= clock.now
    ensures Transitioned(old(db.docs), db.docs, key, t, Ok(contract), old(clock.now), clock.now)
  {
    var changes := map["status" := Str(t.target)];
    var _ := StoreSet(db, clock, key, changes, map[]);
    assert changes + DetailsChange(old(db.docs)[key], map[]) == changes;
    ghost var t1 := clock.now;
    RestampStatus(contract, clock, old(db.docs)[key], Str(t.target), old(clock.now));
    TimesLater(db.docs, t1, clock.now);
    RewrittenLater(old(db.docs), db.docs, key, changes, old(clock.now), t1, clock.now);
    TransitionDone(old(db.docs), db.docs, key, t, Ok(contract), old(clock.now), clock.now);
  }

  lemma TransitionDone(before: Records, after: Records, key: Value, t: Transition, r: Result<Contract>,
                       t0: Timestamp, t1: Timestamp)
    requires Refusal(before, key, t).None?
    requires Rewritten(before, after, key, map["status" := Str(t.target)], t0, t1)
    requires r.Ok? && Reflects(r.value, before[key], Str(t.target), DetailsValue(before[key]), t0, t1)
    ensures Transitioned(before, after, key, t, r, t0, t1)
  {
  }

  lemma TransitionRefused(records: Records, key: Value, t: Transition, r: Result<Contract>, t0: Timestamp, t1: Timestamp)
    requires Refusal(records, key, t).Some? && r == Err(Refusal(records, key, t).value)
    ensures Transitioned(records, records, key, t, r, t0, t1)
  {
  }

  /** A transition of the table never moves a stored status backwards. */
  lemma TransitionNoRegression(before: Records, after: Records, key: Value, t: Transition, r: Result<Contract>,
                               t0: Timestamp, t1: Timestamp)
    requires t in Table && Transitioned(before, after, key, t, r, t0, t1)
    ensures NoRegression(before, after)
  {
    if Refusal(before, key, t).None? {
      AcceptedMovesForward(before, key, t);
      RewriteNoRegression(before, after, key, map["status" := Str(t.target)], t0, t1);
    }
  }

  /** A transition that succeeds started from one of its allowed statuses and leaves the record in its target status. */
  lemma {:induction false} SucceededFromAllowed(before: Records, after: Records, key: Value, t: Transition,
                                                r: Result<Contract>, t0: Timestamp, t1: Timestamp)
    requires Transitioned(before, after, key, t, r, t0, t1) && r.Ok?
    ensures key in before && AllowedFrom(StatusOf(before[key]), t)
    ensures key in after && StatusOf(after[key]) == Str(t.target)
  {
    assert Refusal(before, key, t).None?;
    assert after[key]["status"] == Str(t.target);
  }

  // ---------------------------------------------------------------------
  // The operations built on the transition primitive
  // ---------------------------------------------------------------------

  /** `sign_contract(db, contract_number)`: APPROVED to SIGNED. */
  method SignContract(db: Collection, clock: Clock, contractNumber: string) returns (r: Result<Contract>)
    requires Consistent(db, clock)
    modifies db, clock
    ensures Consistent(db, clock) && db.order == old(db.order) && NoRegression(old(db.docs), db.docs)
    ensures Transitioned(old(db.docs), db.docs, Str(contractNumber), ToSigned, r, old(clock.now), clock.now)
    ensures r.Ok? ==> fresh(r.value)
  {
    r := UpdateContractStatus(db, clock, contractNumber, ToSigned);
    TransitionNoRegression(old(db.docs), db.docs, Str(contractNumber), ToSigned, r, old(clock.now), clock.now);
  }

  /** The transition `approve_reject_contract` applies for a requested status, if it accepts the request. */
  function ApprovalTransition(status: string): (t: Option<Transition>)
    ensures t.Some? <==> status == APPROVED || status == REJECTED
    ensures t.Some? ==> t.value in Table && t.value.target == status && t.value.allowed == [NEGOTIATION]
  {
    if status == APPROVED then Some(ToApproved)
    else if status == REJECTED then Some(ToRejected)
    else None
  }

  /** `approve_reject_contract(db, contract_number, status)`: NEGOTIATION to APPROVED or REJECTED. */
  method ApproveRejectContract(db: Collection, clock: Clock, contractNumber: string, status: string)
    returns (r: Result<Contract>)
    requires Consistent(db, clock)
    modifies db, clock
    ensures Consistent(db, clock) && db.order == old(db.order) && NoRegression(old(db.docs), db.docs)
    ensures ApprovalTransition(status).None? ==>
              r == Err(InvalidApprovalStatus(status)) && db.docs == old(db.docs) && clock.now == old(clock.now)
    ensures ApprovalTransition(status).Some? ==>
              Transitioned(old(db.docs), db.docs, Str(contractNumber), ApprovalTransition(status).value, r,
                           old(clock.now), clock.now)
    ensures r.Ok? ==> fresh(r.value)
  {
    if status == APPROVED {
      r := UpdateContractStatus(db, clock, contractNumber, ToApproved);
      TransitionNoRegression(old(db.docs), db.docs, Str(contractNumber), ToApproved, r, old(clock.now), clock.now);
    } else if status == REJECTED {
      r := UpdateContractStatus(db, clock, contractNumber, ToRejected);
      TransitionNoRegression(old(db.docs), db.docs, Str(contractNumber), ToRejected, r, old(clock.now), clock.now);
    } else {
      r := Err(InvalidApprovalStatus(status));
    }
  }

  /** A rewrite that leaves `details` alone leaves what a `details.<name>` write sees unchanged. */
  lemma RewriteKeepsDetails(before: Records, after: Records, key: Value, changes: Document, t0: Timestamp, t1: Timestamp)
    requires Rewritten(before, after, key, changes, t0, t1) && "details" !in changes
    ensures DetailsWritable(after[key]) == DetailsWritable(before[key])
    ensures DetailsEntries(after[key]) == DetailsEntries(before[key])
    ensures DetailsValue(after[key]) == DetailsValue(before[key])
  {
    assert "details" in after[key] <==> "details" in before[key];
    if "details" in before[key] {
      assert after[key]["details"] == before[key]["details"];
    }
  }

  /** The in-memory `details` of a contract read from a record whose `details` can take fields. */
  lemma WritableDetails(doc: Document)
    requires DetailsWritable(doc)
    ensures DetailsValue(doc) == Dict(DetailsEntries(doc))
  {
  }

  /**
   * The outcome of `negotiate_contract`: refused with nothing written; or the
   * status written and then the negotiation stored in `details`; or, when the
   * stored `details` cannot take fields, the status written and the second
   * write refused.
   */
  ghost predicate Negotiated(before: Records, after: Records, key: Value, negotiation: Value, r: Result<Contract>,
                             t0: Timestamp, t1: Timestamp)
    reads if r.Ok? then {r.value} else {}
  {
    match Refusal(before, key, ToNegotiation)
    case Some(e) => r == Err(e) && after == before
    case None =>
      if DetailsWritable(before[key]) then
        var details := Dict(DetailsEntries(before[key])["negotiation" := negotiation]);
        && Rewritten(before, after, key, map["status" := Str(NEGOTIATION), "details" := details], t0, t1)
        && r.Ok? && Reflects(r.value, before[key], Str(NEGOTIATION), details, t0, t1)
      else
        && Rewritten(before, after, key, map["status" := Str(NEGOTIATION)], t0, t1)
        && r == Err(WriteError)
  }

  /** A negotiation outcome never moves a stored status backwards. */
  lemma NegotiatedNoRegression(before: Records, after: Records, key: Value, negotiation: Value, r: Result<Contract>,
                               t0: Timestamp, t1: Timestamp)
    requires Negotiated(before, after, key, negotiation, r, t0, t1)
    ensures NoRegression(before, after)
  {
    if Refusal(before, key, ToNegotiation).None? {
      AcceptedMovesForward(before, key, ToNegotiation);
      var details := Dict(DetailsEntries(before[key])["negotiation" := negotiation]);
      if DetailsWritable(before[key]) {
        RewriteNoRegression(before, after, key, map["status" := Str(NEGOTIATION), "details" := details], t0, t1);
      } else {
        RewriteNoRegression(before, after, key, map["status" := Str(NEGOTIATION)], t0, t1);
      }
    }
  }

  /** Setting one field of a map by merging a one-entry map. */
  lemma MergeOne<V>(m: map<string, V>, k: string, v: V)
    ensures m + map[k := v] == m[k := v]
  {
  }

  /** Lines 62-67 of `negotiate_contract`: after the status write, store the negotiation and copy it in memory. */
  method RecordNegotiation(db: Collection, clock: Clock, contract: Contract, key: Value, negotiation: Value,
                           ghost before: Records, ghost t0: Timestamp)
    returns (r: Result<Contract>)
    requires Consistent(db, clock) && Refusal(before, key, ToNegotiation).None?
    requires Rewritten(before, db.docs, key, map["status" := Str(NEGOTIATION)], t0, clock.now)
    requires Reflects(contract, before[key], Str(NEGOTIATION), DetailsValue(before[key]), t0, clock.now)
    modifies db, clock, contract
    ensures Consistent(db, clock) && db.order == old(db.order) && old(clock.now) <= clock.now
    ensures Negotiated(before, db.docs, key, negotiation, r, t0, clock.now)
    ensures r.Ok? ==> r.value == contract
  {
    var first := map["status" := Str(NEGOTIATION)];
    RewriteKeepsDetails(before, db.docs, key, first, t0, clock.now);
    ghost var mid := db.docs;
    ghost var tm := clock.now;
    var inDetails := map["negotiation" := negotiation];
    assert "negotiation" in inDetails;
    var ok := StoreSet(db, clock, key, map[], inDetails);
    if !ok {
      RewrittenLater(before, mid, key, first, t0, tm, clock.now);
      NegotiationRefused(before, db.docs, key, negotiation, t0, clock.now);
      return Err(WriteError);
    }
    ghost var second := map[] + DetailsChange(mid[key], map["negotiation" := negotiation]);
    RewrittenTwice(before, mid, db.docs, key, first, second, t0, tm, clock.now);
    WritableDetails(before[key]);
    var put := PutDetail(contract, "negotiation", negotiation, before[key], Str(NEGOTIATION),
                         DetailsValue(before[key]), t0, tm, clock.now);
    // The store accepted the write, so the in-memory details are a dict too.
    assert put;
    r := Ok(contract);
    NegotiationDone(before, mid, db.docs, key, negotiation, r, t0, clock.now);
  }

  /** `negotiate_contract(db, contract_number, negotiation_data)`: NEW to NEGOTIATION, recording the negotiation. */
  method NegotiateContract(db: Collection, clock: Clock, contractNumber: string, negotiation: Value)
    returns (r: Result<Contract>)
    requires Consistent(db, clock)
    modifies db, clock
    ensures Consistent(db, clock) && db.order == old(db.order) && NoRegression(old(db.docs), db.docs)
    ensures Negotiated(old(db.docs), db.docs, Str(contractNumber), negotiation, r, old(clock.now), clock.now)
    ensures r.Ok? ==> fresh(r.value)
  {
    var key := Str(contractNumber);
    r := UpdateContractStatus(db, clock, contractNumber, ToNegotiation);
    if r.Err? {
      NegotiationFailedEarly(old(db.docs), db.docs, key, negotiation, r, old(clock.now), clock.now);
      NegotiatedNoRegression(old(db.docs), db.docs, key, negotiation, r, old(clock.now), clock.now);
      return;
    }
    r := RecordNegotiation(db, clock, r.value, key, negotiation, old(db.docs), old(clock.now));
    NegotiatedNoRegression(old(db.docs), db.docs, key, negotiation, r, old(clock.now), clock.now);
  }

  lemma NegotiationFailedEarly(before: Records, after: Records, key: Value, negotiation: Value, r: Result<Contract>,
                               t0: Timestamp, t1: Timestamp)
    requires Transitioned(before, after, key, ToNegotiation, r, t0, t1) && r.Err?
    ensures Negotiated(before, after, key, negotiation, r, t0, t1)
  {
  }

  lemma NegotiationRefused(before: Records, after: Records, key: Value, negotiation: Value, t0: Timestamp, t1: Timestamp)
    requires Refusal(before, key, ToNegotiation).None? && !DetailsWritable(before[key])
    requires Rewritten(before, after, key, map["status" := Str(NEGOTIATION)], t0, t1)
    ensures Negotiated(before, after, key, negotiation, Err(WriteError), t0, t1)
  {
  }

  lemma NegotiationDone(before: Records, mid: Records, after: Records, key: Value, negotiation: Value,
                        r: Result<Contract>, t0: Timestamp, t1: Timestamp)
    requires Refusal(before, key, ToNegotiation).None? && DetailsWritable(before[key])
    requires key in mid && DetailsEntries(mid[key]) == DetailsEntries(before[key])
    requires Rewritten(before, after, key, map["status" := Str(NEGOTIATION)]
                                        + (map[] + DetailsChange(mid[key], map["negotiation" := negotiation])), t0, t1)
    requires r.Ok?
    requires Reflects(r.value, before[key], Str(NEGOTIATION),
                      Dict(DetailsValue(before[key]).entries["negotiation" := negotiation]), t0, t1)
    ensures Negotiated(before, after, key, negotiation, r, t0, t1)
  {
    var entries := DetailsEntries(before[key])["negotiation" := negotiation];
    assert "negotiation" in map["negotiation" := negotiation];
    MergeOne(DetailsEntries(before[key]), "negotiation", negotiation);
    assert DetailsChange(mid[key], map["negotiation" := negotiation]) == map["details" := Dict(entries)];
    assert map[] + map["details" := Dict(entries)] == map["details" := Dict(entries)];
    assert map["status" := Str(NEGOTIATION)] + map["details" := Dict(entries)]
        == map["status" := Str(NEGOTIATION), "details" := Dict(entries)];
  }

  // ---------------------------------------------------------------------
  // execute_contract
  // ---------------------------------------------------------------------

  /** The reference `execute_contract` returns for the final document it stored. */
  datatype DocumentRef = DocumentRef(documentId: string, filename: string)

  /** What `execute_contract` returns: the contract and its final document. */
  datatype Execution = Execution(contract: Contract, document: DocumentRef)

  function FinalFilename(contractNumber: string): string {
    contractNumber + "_final_contract.txt"
  }

  /**
   * The outcome of `execute_contract` when the blob store hands out `fileId`:
   * refused with nothing written; or the status and the top-level
   * `final_document_id` written, and then either the contract returned with
   * the identifier also in its `details`, or, when those `details` are not a
   * dict, the error raised after both writes.
   */
  ghost predicate Executed(before: Records, after: Records, contractNumber: string, fileId: FileId,
                           r: Result<Execution>, t0: Timestamp, t1: Timestamp)
    reads if r.Ok? then {r.value.contract} else {}
  {
    var key := Str(contractNumber);
    match Refusal(before, key, ToExecuted)
    case Some(e) => r == Err(e) && after == before
    case None =>
      var docId := Str(IdString(fileId));
      && Rewritten(before, after, key, map["status" := Str(EXECUTED), "final_document_id" := docId], t0, t1)
      && if DetailsValue(before[key]).Dict? then
           && r.Ok? && r.value.document == DocumentRef(IdString(fileId), FinalFilename(contractNumber))
           && Reflects(r.value.contract, before[key], Str(EXECUTED),
                       Dict(DetailsValue(before[key]).entries["final_document_id" := docId]), t0, t1)
         else
           r == Err(DetailsNotAnObject)
  }

  /** Lines 88-100 of `execute_contract`: after the status write, store the final document and record its identifier. */
  method RecordExecution(db: Collection, gridfs: GridFs, clock: Clock, contract: Contract, contractNumber: string,
                         ghost before: Records, ghost t0: Timestamp)
    returns (r: Result<Execution>)
    requires Consistent(db, clock) && Refusal(before, Str(contractNumber), ToExecuted).None?
    requires Rewritten(before, db.docs, Str(contractNumber), map["status" := Str(EXECUTED)], t0, clock.now)
    requires Reflects(contract, before[Str(contractNumber)], Str(EXECUTED), DetailsValue(before[Str(contractNumber)]),
                      t0, clock.now)
    modifies db, gridfs, clock, contract
    ensures Consistent(db, clock) && db.order == old(db.order) && old(clock.now) <= clock.now
    ensures Executed(before, db.docs, contractNumber, |old(gridfs.files)|, r, t0, clock.now)
    ensures gridfs.files == old(gridfs.files) + [StoredFile(FinalFilename(contractNumber), contractNumber, None)]
    ensures r.Ok? ==> r.value.contract == contract
  {
    var key := Str(contractNumber);
    var filename := FinalFilename(contractNumber);
    var id := gridfs.Put(filename, contractNumber, None);
    var docId := Str(IdString(id));
    ghost var mid := db.docs;
    ghost var tm := clock.now;
    var first := map["status" := Str(EXECUTED)];
    var changes := map["final_document_id" := docId];
    var _ := StoreSet(db, clock, key, changes, map[]);
    RewrittenTwice(before, mid, db.docs, key, first, changes + DetailsChange(mid[key], map[]), t0, tm, clock.now);
    var put := PutDetail(contract, "final_document_id", docId, before[key], Str(EXECUTED),
                         DetailsValue(before[key]), t0, tm, clock.now);
    if !put {
      r := Err(DetailsNotAnObject);
    } else {
      r := Ok(Execution(contract, DocumentRef(IdString(id), filename)));
    }
    ExecutionDone(before, mid, db.docs, contractNumber, id, r, t0, clock.now);
  }

  lemma ExecutionDone(before: Records, mid: Records, after: Records, contractNumber: string, fileId: FileId,
                      r: Result<Execution>, t0: Timestamp, t1: Timestamp)
    requires Refusal(before, Str(contractNumber), ToExecuted).None? && Str(contractNumber) in mid
    requires Rewritten(before, after, Str(contractNumber), map["status" := Str(EXECUTED)]
               + (map["final_document_id" := Str(IdString(fileId))] + DetailsChange(mid[Str(contractNumber)], map[])), t0, t1)
    requires DetailsValue(before[Str(contractNumber)]).Dict? ==>
               && r.Ok? && r.value.document == DocumentRef(IdString(fileId), FinalFilename(contractNumber))
               && Reflects(r.value.contract, before[Str(contractNumber)], Str(EXECUTED),
                           Dict(DetailsValue(before[Str(contractNumber)]).entries["final_document_id" := Str(IdString(fileId))]),
                           t0, t1)
    requires !DetailsValue(before[Str(contractNumber)]).Dict? ==> r == Err(DetailsNotAnObject)
    ensures Executed(before, after, contractNumber, fileId, r, t0, t1)
  {
    var docId := Str(IdString(fileId));
    assert map["final_document_id" := docId] + DetailsChange(mid[Str(contractNumber)], map[]) == map["final_document_id" := docId];
    assert map["status" := Str(EXECUTED)] + map["final_document_id" := docId]
        == map["status" := Str(EXECUTED), "final_document_id" := docId];
  }

  /** An execution outcome never moves a stored status backwards. */
  lemma ExecutedNoRegression(before: Records, after: Records, contractNumber: string, fileId: FileId,
                             r: Result<Execution>, t0: Timestamp, t1: Timestamp)
    requires Executed(before, after, contractNumber, fileId, r, t0, t1)
    ensures NoRegression(before, after)
  {
    var key := Str(contractNumber);
    if Refusal(before, key, ToExecuted).None? {
      AcceptedMovesForward(before, key, ToExecuted);
      RewriteNoRegression(before, after, key,
                          map["status" := Str(EXECUTED), "final_document_id" := Str(IdString(fileId))], t0, t1);
    }
  }

  /** `execute_contract(db, gridfs, contract_number)`: SIGNED to EXECUTED, with a final document in the blob store. */
  method ExecuteContract(db: Collection, gridfs: GridFs, clock: Clock, contractNumber: string)
    returns (r: Result<Execution>)
    requires Consistent(db, clock)
    modifies db, gridfs, clock
    ensures Consistent(db, clock) && db.order == old(db.order) && NoRegression(old(db.docs), db.docs)
    ensures Executed(old(db.docs), db.docs, contractNumber, |old(gridfs.files)|, r, old(clock.now), clock.now)
    ensures Refusal(old(db.docs), Str(contractNumber), ToExecuted).Some? ==> gridfs.files == old(gridfs.files)
    ensures Refusal(old(db.docs), Str(contractNumber), ToExecuted).None? ==>
              gridfs.files == old(gridfs.files) + [StoredFile(FinalFilename(contractNumber), contractNumber, None)]
    ensures r.Ok? ==> fresh(r.value.contract)
    ensures r.Ok? ==> forall i :: 0 <= i < |old(gridfs.files)| ==> r.value.document.documentId != IdString(i)
  {
    var transitioned := UpdateContractStatus(db, clock, contractNumber, ToExecuted);
    if transitioned.Err? {
      r := Err(transitioned.error);
      ExecutionFailedEarly(old(db.docs), db.docs, contractNumber, |gridfs.files|, transitioned, r, old(clock.now), clock.now);
    } else {
      r := RecordExecution(db, gridfs, clock, transitioned.value, contractNumber, old(db.docs), old(clock.now));
      forall i | 0 <= i < |old(gridfs.files)|
        ensures IdString(|old(gridfs.files)|) != IdString(i)
      {
        IdStringInjective(|old(gridfs.files)|, i);
      }
    }
    ExecutedNoRegression(old(db.docs), db.docs, contractNumber, |old(gridfs.files)|, r, old(clock.now), clock.now);
  }

  lemma ExecutionFailedEarly(before: Records, after: Records, contractNumber: string, fileId: FileId,
                             transitioned: Result<Contract>, r: Result<Execution>, t0: Timestamp, t1: Timestamp)
    requires Transitioned(before, after, Str(contractNumber), ToExecuted, transitioned, t0, t1) && transitioned.Err?
    requires r == Err(transitioned.error)
    ensures Executed(before, after, contractNumber, fileId, r, t0, t1)
  {
  }

  // ---------------------------------------------------------------------
  // renew_contract
  // ---------------------------------------------------------------------

  /** The `last_renewal_date` a `details` value holds, when it is a date. */
  function RenewalStamp(details: Value): Option<Timestamp> {
    if details.Dict? && "last_renewal_date" in details.entries && details.entries["last_renewal_date"].DateTime?
    then Some(details.entries["last_renewal_date"].t)
    else None
  }

  /** `details` is the record's `details` with `last_renewal_date` set to a clock reading between `t0` and `t1`. */
  ghost predicate RenewedDetails(details: Value, doc: Document, t0: Timestamp, t1: Timestamp) {
    var stamp := RenewalStamp(details);
    && stamp.Some? && t0 <= stamp.value <= t1
    && details == Dict(DetailsEntries(doc)["last_renewal_date" := DateTime(stamp.value)])
  }

  /**
   * The outcome of `renew_contract`: refused with nothing written when the
   * contract is missing, not EXECUTED, or its `details` cannot take fields;
   * otherwise RENEWED with a renewal date in the store's `details` and,
   * from a later clock reading, in the returned contract's.
   */
  ghost predicate Renewed(before: Records, after: Records, key: Value, r: Result<Contract>, t0: Timestamp, t1: Timestamp)
    reads if r.Ok? then {r.value} else {}
  {
    if key !in before then r == Err(NotFound) && after == before
    else if StatusOf(before[key]) != Str(EXECUTED) then r == Err(NotRenewable(StatusOf(before[key]))) && after == before
    else if !DetailsWritable(before[key]) then r == Err(WriteError) && after == before
    else
      && key in after && RenewedDetails(Get(after[key], "details"), before[key], t0, t1)
      && Rewritten(before, after, key, map["status" := Str(RENEWED), "details" := Get(after[key], "details")], t0, t1)
      && r.Ok? && Reflects(r.value, before[key], Str(RENEWED), r.value.details, t0, t1)
      && RenewedDetails(r.value.details, before[key], t0, t1)
  }

  /** Lines 131-135 and 146-147 of `renew_contract`: read the contract and check it is EXECUTED. */
  method CheckRenewal(db: Collection, clock: Clock, contractNumber: string) returns (r: Result<Contract>)
    requires db.Valid()
    modifies clock
    ensures old(clock.now) <= clock.now
    ensures var key := Str(contractNumber);
            && (key !in db.docs ==> r == Err(NotFound))
            && (key in db.docs && Decode(db.docs[key]).Err? ==> r == Err(Decode(db.docs[key]).error))
            && (key in db.docs && Decode(db.docs[key]).Ok? && StatusOf(db.docs[key]) != Str(EXECUTED) ==>
                  r == Err(NotRenewable(StatusOf(db.docs[key]))))
            && (key in db.docs && Decode(db.docs[key]).Ok? && StatusOf(db.docs[key]) == Str(EXECUTED) ==>
                  r.Ok? && fresh(r.value) && Loaded(r.value, db.docs[key]))
  {
    var found := GetContract(db, clock, contractNumber);
    if found.Err? {
      return Err(found.error);
    }
    if found.value.None? {
      return Err(NotFound);
    }
    DecodedTimes(db.docs[Str(contractNumber)]);
    var contract := found.value.value;
    if contract.status != Str(EXECUTED) {
      return Err(NotRenewable(contract.status));
    }
    r := Ok(contract);
  }

  /** Lines 138-141 of `renew_contract`: one write of the new status, `updated_at` and `details.last_renewal_date`. */
  method StoreRenewal(db: Collection, clock: Clock, key: Value, ghost t0: Timestamp)
    returns (ok: bool, ghost renewedAt: Timestamp)
    requires Consistent(db, clock) && key in db.docs && t0 <= clock.now
    modifies db, clock
    ensures Consistent(db, clock) && db.order == old(db.order) && old(clock.now) <= clock.now
    ensures ok <==> DetailsWritable(old(db.docs)[key])
    ensures !ok ==> db.docs == old(db.docs)
    ensures ok ==> t0 <= renewedAt <= clock.now
    ensures ok ==> Rewritten(old(db.docs), db.docs, key, map["status" := Str(RENEWED)]
                     + DetailsChange(old(db.docs)[key], map["last_renewal_date" := DateTime(renewedAt)]), t0, clock.now)
  {
    var updatedAt := clock.UtcNow();
    var renewalDate := clock.UtcNow();
    renewedAt := renewalDate;
    var changes := map["status" := Str(RENEWED)];
    var inDetails := map["last_renewal_date" := DateTime(renewalDate)];
    assert "last_renewal_date" in inDetails;
    ok := db.UpdateOne(key, changes + map["updated_at" := DateTime(updatedAt)], inDetails);
    if ok {
      SetIsRewrite(old(db.docs), key, changes, inDetails, updatedAt, t0, clock.now);
      RewriteKeepsTimes(old(db.docs), db.docs, key, changes + DetailsChange(old(db.docs)[key], inDetails),
                        old(clock.now), clock.now);
    }
  }

  /** Lines 142-144 of `renew_contract`: the in-memory contract becomes RENEWED, stamped twice from the clock. */
  method RenewInMemory(contract: Contract, clock: Clock, ghost doc: Document, ghost t0: Timestamp)
    returns (ghost copied: Timestamp)
    requires Loaded(contract, doc) && DetailsWritable(doc) && t0 <= clock.now
    modifies contract, clock
    ensures old(clock.now) <= copied <= clock.now
    ensures contract.updatedAt.Some? && old(clock.now) <= contract.updatedAt.value <= copied
    ensures Reflects(contract, doc, Str(RENEWED), Dict(DetailsValue(doc).entries["last_renewal_date" := DateTime(copied)]),
                     t0, clock.now)
  {
    RestampStatus(contract, clock, doc, Str(RENEWED), t0);
    var renewalDate := clock.UtcNow();
    copied := renewalDate;
    WritableDetails(doc);
    var put := PutDetail(contract, "last_renewal_date", DateTime(renewalDate), doc, Str(RENEWED),
                         DetailsValue(doc), t0, clock.now, clock.now);
    // The store accepted the write, so the in-memory details are a dict too.
    assert put;
  }

  /** Lines 138-145 of `renew_contract`: mark the record and the contract RENEWED with a renewal date. */
  method RecordRenewal(db: Collection, clock: Clock, contract: Contract, key: Value, ghost t0: Timestamp)
    returns (r: Result<Contract>)
    requires Consistent(db, clock) && key in db.docs && StatusOf(db.docs[key]) == Str(EXECUTED)
    requires Loaded(contract, db.docs[key]) && t0 <= clock.now
    modifies db, clock, contract
    ensures Consistent(db, clock) && db.order == old(db.order) && old(clock.now) <= clock.now
    ensures Renewed(old(db.docs), db.docs, key, r, t0, clock.now)
    ensures r.Ok? ==> r.value == contract
  {
    var ok, renewedAt := StoreRenewal(db, clock, key, t0);
    if !ok {
      r := Err(WriteError);
      return;
    }
    ghost var t1 := clock.now;
    var copied := RenewInMemory(contract, clock, old(db.docs)[key], t0);
    TimesLater(db.docs, t1, clock.now);
    r := Ok(contract);
    RenewalDone(old(db.docs), db.docs, key, renewedAt, copied, r, t0, t1, clock.now);
  }

  lemma RenewalDone(before: Records, after: Records, key: Value, stored: Timestamp, copied: Timestamp,
                    r: Result<Contract>, t0: Timestamp, t1: Timestamp, t2: Timestamp)
    requires key in before && StatusOf(before[key]) == Str(EXECUTED) && DetailsWritable(before[key])
    requires t0 <= stored <= t1 <= copied <= t2
    requires Rewritten(before, after, key, map["status" := Str(RENEWED)]
               + DetailsChange(before[key], map["last_renewal_date" := DateTime(stored)]), t0, t1)
    requires r.Ok?
    requires Reflects(r.value, before[key], Str(RENEWED),
                      Dict(DetailsValue(before[key]).entries["last_renewal_date" := DateTime(copied)]), t0, t2)
    ensures Renewed(before, after, key, r, t0, t2)
  {
    var doc := before[key];
    var storedDetails := Dict(DetailsEntries(doc)["last_renewal_date" := DateTime(stored)]);
    assert "last_renewal_date" in map["last_renewal_date" := DateTime(stored)];
    MergeOne(DetailsEntries(doc), "last_renewal_date", DateTime(stored));
    assert map["status" := Str(RENEWED)] + DetailsChange(doc, map["last_renewal_date" := DateTime(stored)])
        == map["status" := Str(RENEWED), "details" := storedDetails];
    assert Get(after[key], "details") == storedDetails;
    assert RenewalStamp(storedDetails) == Some(stored);
    RewrittenLater(before, after, key, map["status" := Str(RENEWED), "details" := storedDetails], t0, t1, t2);
    assert RenewalStamp(r.value.details) == Some(copied);
  }

  /** A renewal outcome never moves a stored status backwards. */
  lemma RenewedNoRegression(before: Records, after: Records, key: Value, r: Result<Contract>, t0: Timestamp, t1: Timestamp)
    requires Renewed(before, after, key, r, t0, t1)
    ensures NoRegression(before, after)
  {
    if key in before && StatusOf(before[key]) == Str(EXECUTED) && DetailsWritable(before[key]) {
      RewriteNoRegression(before, after, key, map["status" := Str(RENEWED), "details" := Get(after[key], "details")], t0, t1);
    }
  }

  /** Once a renewal succeeded the contract is RENEWED, so renewing it again is refused and writes nothing. */
  lemma RenewTwice(before: Records, mid: Records, after: Records, key: Value, first: Result<Contract>,
                   second: Result<Contract>, t0: Timestamp, t1: Timestamp, t2: Timestamp, t3: Timestamp)
    requires Renewed(before, mid, key, first, t0, t1) && first.Ok?
    requires Renewed(mid, after, key, second, t2, t3)
    ensures second == Err(NotRenewable(Str(RENEWED))) && after == mid
  {
    RewrittenFields(before, mid, key, map["status" := Str(RENEWED), "details" := Get(mid[key], "details")], t0, t1);
  }

  /** `renew_contract(db, contract_number)`: EXECUTED to RENEWED. */
  method RenewContract(db: Collection, clock: Clock, contractNumber: string) returns (r: Result<Contract>)
    requires Consistent(db, clock)
    modifies db, clock
    ensures Consistent(db, clock) && db.order == old(db.order) && NoRegression(old(db.docs), db.docs)
    ensures Renewed(old(db.docs), db.docs, Str(contractNumber), r, old(clock.now), clock.now)
    ensures r.Ok? ==> fresh(r.value)
  {
    var key := Str(contractNumber);
    if key in db.docs {
      TimesOkDecodes(db.docs[key], clock.now);
    }
    r := CheckRenewal(db, clock, contractNumber);
    TimesLater(db.docs, old(clock.now), clock.now);
    if r.Ok? {
      r := RecordRenewal(db, clock, r.value, key, old(clock.now));
    }
    RenewedNoRegression(old(db.docs), db.docs, key, r, old(clock.now), clock.now);
  }

  // ---------------------------------------------------------------------
  // search_executed_contracts
  // ---------------------------------------------------------------------

  /** The `details` fields a keyword is looked for in. */
  const KeywordFields := ["contract_name", "contract_category", "party1", "party2"]

  /** The filter `search_executed_contracts` builds from the request's parameters. */
  function SearchQuery(params: map<string, string>): Query {
    [Equals(Top("status"), Str(EXECUTED))]
    + (if "contract_number" in params then [Equals(Top("contract_number"), Str(params["contract_number"]))] else [])
    + (if "keyword" in params
       then [AnyOf([RegexIgnoreCase(InDetails("contract_name"), params["keyword"]),
                    RegexIgnoreCase(InDetails("contract_category"), params["keyword"]),
                    RegexIgnoreCase(InDetails("party1"), params["keyword"]),
                    RegexIgnoreCase(InDetails("party2"), params["keyword"])])]
       else [])
  }

  /** The `details` field `name` of `doc` is a string containing `keyword`, ignoring case. */
  predicate KeywordIn(doc: Document, name: string, keyword: string) {
    var v := Lookup(doc, InDetails(name));
    v.Some? && v.value.Str? && Text.ContainsIgnoringCase(v.value.s, keyword)
  }

  /** What a search promises, stated directly: an EXECUTED record, with the number asked for and the keyword in one of the fields. */
  predicate Wanted(params: map<string, string>, doc: Document) {
    && Lookup(doc, Top("status")) == Some(Str(EXECUTED))
    && ("contract_number" in params ==> Lookup(doc, Top("contract_number")) == Some(Str(params["contract_number"])))
    && ("keyword" in params ==> exists name :: name in KeywordFields && KeywordIn(doc, name, params["keyword"]))
  }

  /** A filter made of two parts matches when both parts do. */
  lemma MatchesConcat(a: Query, b: Query, doc: Document)
    ensures Matches(a + b, doc) <==> Matches(a, doc) && Matches(b, doc)
  {
    if Matches(a, doc) && Matches(b, doc) {
      forall i | 0 <= i < |a + b|
        ensures Holds((a + b)[i], doc)
      {
        if i >= |a| {
          assert (a + b)[i] == b[i - |a|];
        }
      }
    }
    if Matches(a + b, doc) {
      forall i | 0 <= i < |a|
        ensures Holds(a[i], doc)
      {
        assert (a + b)[i] == a[i];
      }
      forall i | 0 <= i < |b|
        ensures Holds(b[i], doc)
      {
        assert (a + b)[|a| + i] == b[i];
      }
    }
  }

  /** A filter of one condition matches when the condition holds. */
  lemma MatchesOne(c: Condition, doc: Document)
    ensures Matches([c], doc) <==> Holds(c, doc)
  {
    assert [c][0] == c;
  }

  /** The keyword condition holds when one of the four fields contains the keyword. */
  lemma KeywordConditionMeaning(keyword: string, doc: Document)
    ensures var alts := [RegexIgnoreCase(InDetails("contract_name"), keyword),
                         RegexIgnoreCase(InDetails("contract_category"), keyword),
                         RegexIgnoreCase(InDetails("party1"), keyword),
                         RegexIgnoreCase(InDetails("party2"), keyword)];
            Holds(AnyOf(alts), doc) <==> exists name :: name in KeywordFields && KeywordIn(doc, name, keyword)
  {
    var alts := [RegexIgnoreCase(InDetails("contract_name"), keyword),
                 RegexIgnoreCase(InDetails("contract_category"), keyword),
                 RegexIgnoreCase(InDetails("party1"), keyword),
                 RegexIgnoreCase(InDetails("party2"), keyword)];
    assert forall j :: 0 <= j < 4 ==> alts[j] == RegexIgnoreCase(InDetails(KeywordFields[j]), keyword);
    if Holds(AnyOf(alts), doc) {
      var j :| 0 <= j < |alts| && Holds(alts[j], doc);
      assert KeywordIn(doc, KeywordFields[j], keyword);
    }
    if exists name :: name in KeywordFields && KeywordIn(doc, name, keyword) {
      var name :| name in KeywordFields && KeywordIn(doc, name, keyword);
      var j :| 0 <= j < 4 && KeywordFields[j] == name;
      assert Holds(alts[j], doc);
    }
  }

  /** The filter matches exactly the records the search promises. */
  lemma SearchQueryMeaning(params: map<string, string>, doc: Document)
    ensures Matches(SearchQuery(params), doc) <==> Wanted(params, doc)
  {
    var status: Query := [Equals(Top("status"), Str(EXECUTED))];
    var number: Query := if "contract_number" in params then [Equals(Top("contract_number"), Str(params["contract_number"]))] else [];
    var keyword: Query :=
      if "keyword" in params
      then [AnyOf([RegexIgnoreCase(InDetails("contract_name"), params["keyword"]),
                   RegexIgnoreCase(InDetails("contract_category"), params["keyword"]),
                   RegexIgnoreCase(InDetails("party1"), params["keyword"]),
                   RegexIgnoreCase(InDetails("party2"), params["keyword"])])]
      else [];
    assert SearchQuery(params) == status + number + keyword;
    MatchesConcat(status + number, keyword, doc);
    MatchesConcat(status, number, doc);
    MatchesOne(status[0], doc);
    if "contract_number" in params {
      MatchesOne(number[0], doc);
    }
    if "keyword" in params {
      MatchesOne(keyword[0], doc);
      KeywordConditionMeaning(params["keyword"], doc);
    }
  }

  /** `find` with the search filter returns exactly the wanted records, none twice. */
  lemma SearchFindsWanted(db: Collection, params: map<string, string>)
    requires db.Valid()
    ensures forall d :: d in db.Find(SearchQuery(params)) ==> Wanted(params, d) && d in db.docs.Values
    ensures forall k :: k in db.docs && Wanted(params, db.docs[k]) ==> db.docs[k] in db.Find(SearchQuery(params))
    ensures var found := db.Find(SearchQuery(params));
            forall i, j :: 0 <= i < j < |found| ==> found[i] != found[j]
  {
    db.SelectDistinct(SearchQuery(params), db.order);
    forall d | d in db.Find(SearchQuery(params))
      ensures Wanted(params, d)
    {
      SearchQueryMeaning(params, d);
    }
    forall k | k in db.docs && Wanted(params, db.docs[k])
      ensures db.docs[k] in db.Find(SearchQuery(params))
    {
      SearchQueryMeaning(params, db.docs[k]);
    }
  }

  /** A contract read from a wanted record is EXECUTED and carries the number asked for. */
  lemma WantedReadsBack(params: map<string, string>, doc: Document)
    requires Wanted(params, doc) && Decode(doc).Ok?
    ensures Decode(doc).value.status == Str(EXECUTED)
    ensures "contract_number" in params ==> Decode(doc).value.contractNumber == Str(params["contract_number"])
  {
  }

  /** In a consistent store every record the search finds reads back without error. */
  lemma ConsistentSearchReads(db: Collection, clock: Clock, params: map<string, string>)
    requires Consistent(db, clock)
    ensures forall d :: d in db.Find(SearchQuery(params)) ==> Decode(d).Ok?
  {
    forall d | d in db.Find(SearchQuery(params))
      ensures Decode(d).Ok?
    {
      var k :| k in db.docs && db.docs[k] == d;
      TimesOkDecodes(d, clock.now);
    }
  }

  /**
   * `search_executed_contracts(db, query_params)`: one contract per found
   * record, in the store's order, or the first reading error.
   */
  method SearchExecutedContracts(db: Collection, clock: Clock, params: map<string, string>)
    returns (r: Result<seq<Contract>>)
    requires db.Valid()
    modifies clock
    ensures old(clock.now) <= clock.now
    ensures var found := db.Find(SearchQuery(params));
            && (r.Ok? <==> forall i :: 0 <= i < |found| ==> Decode(found[i]).Ok?)
            && (r.Err? ==> exists i :: 0 <= i < |found| && Decode(found[i]) == Err(r.error)
                                      && forall j :: 0 <= j < i ==> Decode(found[j]).Ok?)
            && (r.Ok? ==> |r.value| == |found|
                          && forall i :: 0 <= i < |found| ==> fresh(r.value[i]) && r.value[i].Fields() == Decode(found[i]).value)
  {
    var found := db.Find(SearchQuery(params));
    var contracts: seq<Contract> := [];
    var i := 0;
    while i < |found|
      invariant 0 <= i <= |found| && |contracts| == i
      invariant old(clock.now) <= clock.now
      invariant forall j :: 0 <= j < i ==> fresh(contracts[j]) && Decode(found[j]) == Ok(contracts[j].Fields())
    {
      var c := Contract.FromDict(found[i], clock);
      if c.Err? {
        assert Decode(found[i]).Err? && found == db.Find(SearchQuery(params));
        return Err(c.error);
      }
      contracts := contracts + [c.value];
      i := i + 1;
    }
    r := Ok(contracts);
  }

  // ---------------------------------------------------------------------
  // migrate_older_contracts
  // ---------------------------------------------------------------------

  /** One row of the legacy system. */
  datatype LegacyRecord = LegacyRecord(contractNumber: string, oldStatus: string, oldText: string)

  /** The rows the migration reads from the legacy system. */
  const LegacyContracts := [
    LegacyRecord("OLD-001", "COMPLETED", "This is an old contract text 1."),
    LegacyRecord("OLD-002", "ARCHIVED", "This is another old contract text 2.")
  ]

  /** The summary `migrate_older_contracts` returns. */
  datatype MigrationSummary = MigrationSummary(status: string, migratedCount: nat, message: string)

  /** The `details` of a migrated contract. */
  function MigratedDetails(legacy: LegacyRecord): Value {
    Dict(map["migrated_from_sql" := Bool(true),
             "old_system_status" := Str(legacy.oldStatus),
             "original_content_summary" := Str(legacy.oldText)])
  }

  function OldDocumentFilename(contractNumber: string): string {
    contractNumber + "_old_document.txt"
  }

  /** The store keys of some legacy rows. */
  function Numbers(rows: seq<LegacyRecord>): set<Value> {
    set row | row in rows :: Str(row.contractNumber)
  }

  /**
   * The legacy rows a migration inserts when `stored` numbers are already in
   * the store: each row whose number is neither stored nor inserted earlier
   * in the same run, in order.
   */
  function ToMigrate(legacy: seq<LegacyRecord>, stored: set<Value>): (r: seq<LegacyRecord>)
    ensures |r| <= |legacy|
    ensures forall row :: row in r ==> row in legacy && Str(row.contractNumber) !in stored
    ensures forall row :: row in legacy ==> Str(row.contractNumber) in stored + Numbers(r)
    ensures forall i, j :: 0 <= i < j < |r| ==> r[i].contractNumber != r[j].contractNumber
    decreases |legacy|
  {
    if legacy == [] then []
    else
      var earlier := ToMigrate(legacy[..|legacy| - 1], stored);
      var last := legacy[|legacy| - 1];
      if Str(last.contractNumber) in stored + Numbers(earlier) then earlier else earlier + [last]
  }

  /** Once every legacy number is stored there is nothing left to migrate. */
  lemma {:induction false} NothingLeft(legacy: seq<LegacyRecord>, stored: set<Value>)
    requires forall row :: row in legacy ==> Str(row.contractNumber) in stored
    ensures ToMigrate(legacy, stored) == []
    decreases |legacy|
  {
    if legacy != [] {
      NothingLeft(legacy[..|legacy| - 1], stored);
    }
  }

  /** Running the migration a second time migrates nothing. */
  lemma MigrationIdempotent(legacy: seq<LegacyRecord>, stored: set<Value>)
    ensures ToMigrate(legacy, stored + Numbers(ToMigrate(legacy, stored))) == []
  {
    NothingLeft(legacy, stored + Numbers(ToMigrate(legacy, stored)));
  }

  /** The store keys of legacy rows, in order. */
  function KeysOf(rows: seq<LegacyRecord>): (keys: seq<Value>)
    ensures |keys| == |rows| && forall i :: 0 <= i < |rows| ==> keys[i] == Str(rows[i].contractNumber)
  {
    seq(|rows|, i requires 0 <= i < |rows| => Str(rows[i].contractNumber))
  }

  /** The blob-store files a migration of `rows` puts, in order. */
  function OldDocuments(rows: seq<LegacyRecord>): (files: seq<StoredFile>)
    ensures |files| == |rows|
    ensures forall i :: 0 <= i < |rows| ==>
              files[i] == StoredFile(OldDocumentFilename(rows[i].contractNumber), rows[i].contractNumber, Some(true))
  {
    seq(|rows|, i requires 0 <= i < |rows| =>
      StoredFile(OldDocumentFilename(rows[i].contractNumber), rows[i].contractNumber, Some(true)))
  }

  /** What `to_dict` writes for a new contract with these fields, created at or after `t0`. */
  ghost predicate NewRecord(doc: Document, number: Value, status: Value, details: Value, t0: Timestamp) {
    && doc.Keys == {"contract_number", "status", "details", "created_at", "updated_at"}
    && doc["contract_number"] == number && doc["status"] == status && doc["details"] == details
    && doc["created_at"].Str? && doc["updated_at"].Str?
    && StoredTime(doc["created_at"]).Some? && t0 <= StoredTime(doc["created_at"]).value
  }

  /**
   * The record migrated from `row`: a MIGRATED contract with the legacy status
   * and text in `details`, created at or after `t0`, and pointing at its old
   * document `fileId` from a top-level `migrated_document_id`.
   */
  ghost predicate MigratedRecord(doc: Document, row: LegacyRecord, fileId: FileId, t0: Timestamp) {
    && doc.Keys == {"contract_number", "status", "details", "created_at", "updated_at", "migrated_document_id"}
    && doc["contract_number"] == Str(row.contractNumber) && doc["status"] == Str(MIGRATED)
    && doc["details"] == MigratedDetails(row)
    && doc["migrated_document_id"] == Str(IdString(fileId))
    && StoredTime(doc["created_at"]).Some? && t0 <= StoredTime(doc["created_at"]).value
  }

  /** `after` is `before` plus one migrated record per row of `rows`, whose files start at `firstId`. */
  ghost predicate Migrated(before: Records, after: Records, rows: seq<LegacyRecord>, firstId: FileId, t0: Timestamp) {
    && after.Keys == before.Keys + Numbers(rows)
    && Kept(before, after)
    && AllMigrated(after, rows, firstId, t0)
  }

  /** Every record of `before` is still in `after`, unchanged. */
  ghost predicate Kept(before: Records, after: Records) {
    forall k :: k in before ==> k in after && after[k] == before[k]
  }

  /** `records` holds the migrated record of every row of `rows`, the i-th pointing at file `firstId + i`. */
  ghost predicate AllMigrated(records: Records, rows: seq<LegacyRecord>, firstId: FileId, t0: Timestamp) {
    forall i :: 0 <= i < |rows| ==>
      Str(rows[i].contractNumber) in records
      && MigratedRecord(records[Str(rows[i].contractNumber)], rows[i], firstId + i, t0)
  }

  /** Lines 170-176 of `migrate_older_contracts`: insert a new MIGRATED contract for `row`. */
  method InsertMigrated(db: Collection, clock: Clock, row: LegacyRecord)
    requires Consistent(db, clock) && Str(row.contractNumber) !in db.docs
    modifies db, clock
    ensures Consistent(db, clock) && old(clock.now) <= clock.now
    ensures db.order == old(db.order) + [Str(row.contractNumber)]
    ensures db.docs == old(db.docs)[Str(row.contractNumber) := db.docs[Str(row.contractNumber)]]
    ensures NewRecord(db.docs[Str(row.contractNumber)], Str(row.contractNumber), Str(MIGRATED), MigratedDetails(row),
                      old(clock.now))
  {
    var contract := new Contract(Str(row.contractNumber), Str(MIGRATED), MigratedDetails(row), clock);
    var record := contract.ToDict();
    IsoRoundTrip(contract.createdAt.value);
    IsoRoundTrip(contract.updatedAt.value);
    TimesLater(db.docs, old(clock.now), clock.now);
    db.InsertOne(record.value);
  }

  /** A new record stamped again with a top-level `migrated_document_id` is a migrated record. */
  lemma MigratedDone(mid: Records, after: Records, key: Value, row: LegacyRecord, fileId: FileId,
                     t0: Timestamp, tm: Timestamp, t1: Timestamp)
    requires key == Str(row.contractNumber) && key in mid
    requires NewRecord(mid[key], key, Str(MIGRATED), MigratedDetails(row), t0)
    requires Rewritten(mid, after, key, map["migrated_document_id" := Str(IdString(fileId))]
                                        + DetailsChange(mid[key], map[]), tm, t1)
    ensures MigratedRecord(after[key], row, fileId, t0)
  {
    var d := after[key];
    assert d.Keys == mid[key].Keys + {"migrated_document_id"};
    assert d["created_at"] == mid[key]["created_at"];
  }

  /** Lines 178-188 of `migrate_older_contracts`: store the old document and point the new record at it. */
  method AttachOldDocument(db: Collection, gridfs: GridFs, clock: Clock, row: LegacyRecord, ghost t0: Timestamp)
    requires Consistent(db, clock) && Str(row.contractNumber) in db.docs
    requires NewRecord(db.docs[Str(row.contractNumber)], Str(row.contractNumber), Str(MIGRATED), MigratedDetails(row), t0)
    modifies db, gridfs, clock
    ensures Consistent(db, clock) && old(clock.now) <= clock.now && db.order == old(db.order)
    ensures gridfs.files == old(gridfs.files) + [StoredFile(OldDocumentFilename(row.contractNumber), row.contractNumber, Some(true))]
    ensures db.docs == old(db.docs)[Str(row.contractNumber) := db.docs[Str(row.contractNumber)]]
    ensures MigratedRecord(db.docs[Str(row.contractNumber)], row, |old(gridfs.files)|, t0)
  {
    var key := Str(row.contractNumber);
    var id := gridfs.Put(OldDocumentFilename(row.contractNumber), row.contractNumber, Some(true));
    var changes := map["migrated_document_id" := Str(IdString(id))];
    var _ := StoreSet(db, clock, key, changes, map[]);
    MigratedDone(old(db.docs), db.docs, key, row, id, t0, old(clock.now), clock.now);
  }

  /** Two updates of the same key in a row are one update. */
  lemma UpdatedTwice(before: Records, mid: Records, after: Records, key: Value)
    requires key in mid && mid == before[key := mid[key]]
    requires key in after && after == mid[key := after[key]]
    ensures after == before[key := after[key]]
  {
  }

  /** One turn of the migration loop: migrate `row` unless its number is already stored. */
  method MigrateOne(db: Collection, gridfs: GridFs, clock: Clock, row: LegacyRecord) returns (migrated: bool)
    requires Consistent(db, clock)
    modifies db, gridfs, clock
    ensures Consistent(db, clock) && old(clock.now) <= clock.now
    ensures migrated <==> Str(row.contractNumber) !in old(db.docs)
    ensures !migrated ==> db.docs == old(db.docs) && db.order == old(db.order) && gridfs.files == old(gridfs.files)
    ensures migrated ==>
              && db.order == old(db.order) + [Str(row.contractNumber)]
              && gridfs.files == old(gridfs.files) + [StoredFile(OldDocumentFilename(row.contractNumber), row.contractNumber, Some(true))]
              && db.docs == old(db.docs)[Str(row.contractNumber) := db.docs[Str(row.contractNumber)]]
              && MigratedRecord(db.docs[Str(row.contractNumber)], row, |old(gridfs.files)|, old(clock.now))
  {
    var key := Str(row.contractNumber);
    if db.FindOne(key).Some? {
      return false;
    }
    InsertMigrated(db, clock, row);
    ghost var mid := db.docs;
    AttachOldDocument(db, gridfs, clock, row, old(clock.now));
    UpdatedTwice(old(db.docs), mid, db.docs, key);
    migrated := true;
  }

  /** Adding the record of one more row keeps the records of the rows migrated before it. */
  lemma AllMigratedStep(mid: Records, after: Records, rows: seq<LegacyRecord>, row: LegacyRecord,
                        firstId: FileId, t0: Timestamp)
    requires AllMigrated(mid, rows, firstId, t0)
    requires Str(row.contractNumber) !in mid && Str(row.contractNumber) in after
    requires Kept(mid, after)
    requires MigratedRecord(after[Str(row.contractNumber)], row, firstId + |rows|, t0)
    ensures AllMigrated(after, rows + [row], firstId, t0)
  {
    var all := rows + [row];
    forall i | 0 <= i < |all|
      ensures Str(all[i].contractNumber) in after
      ensures MigratedRecord(after[Str(all[i].contractNumber)], all[i], firstId + i, t0)
    {
      if i < |rows| {
        assert all[i] == rows[i];
        SameRecord(after[Str(rows[i].contractNumber)], mid[Str(rows[i].contractNumber)], rows[i], firstId + i, t0);
      }
    }
  }

  lemma SameRecord(a: Document, b: Document, row: LegacyRecord, fileId: FileId, t0: Timestamp)
    requires a == b && MigratedRecord(b, row, fileId, t0)
    ensures MigratedRecord(a, row, fileId, t0)
  {
  }

  /** Inserting one new key keeps every earlier record. */
  lemma KeptStep(before: Records, mid: Records, after: Records, key: Value)
    requires Kept(before, mid) && key !in mid && key in after && after == mid[key := after[key]]
    ensures Kept(before, after) && Kept(mid, after)
  {
  }

  /** The keys after migrating one more row. */
  lemma KeysStep(before: Records, mid: Records, after: Records, rows: seq<LegacyRecord>, row: LegacyRecord)
    requires mid.Keys == before.Keys + Numbers(rows)
    requires Str(row.contractNumber) in after && after == mid[Str(row.contractNumber) := after[Str(row.contractNumber)]]
    ensures after.Keys == before.Keys + Numbers(rows + [row])
  {
    assert Numbers(rows + [row]) == Numbers(rows) + {Str(row.contractNumber)};
  }

  /** The loop state of the migration: records, order and files after migrating `rows`. */
  ghost predicate MigrationProgress(before: Records, after: Records, orderBefore: seq<Value>, orderAfter: seq<Value>,
                                    filesBefore: seq<StoredFile>, filesAfter: seq<StoredFile>,
                                    rows: seq<LegacyRecord>, t0: Timestamp) {
    && Migrated(before, after, rows, |filesBefore|, t0)
    && orderAfter == orderBefore + KeysOf(rows)
    && filesAfter == filesBefore + OldDocuments(rows)
  }

  /** One turn of the migration loop, carrying the loop state forward. */
  method MigrationTurn(db: Collection, gridfs: GridFs, clock: Clock, row: LegacyRecord, ghost before: Records,
                       ghost orderBefore: seq<Value>, ghost filesBefore: seq<StoredFile>,
                       ghost rows: seq<LegacyRecord>, ghost t0: Timestamp)
    returns (migrated: bool)
    requires Consistent(db, clock) && t0 <= clock.now
    requires MigrationProgress(before, db.docs, orderBefore, db.order, filesBefore, gridfs.files, rows, t0)
    modifies db, gridfs, clock
    ensures Consistent(db, clock) && old(clock.now) <= clock.now
    ensures migrated <==> Str(row.contractNumber) !in before.Keys + Numbers(rows)
    ensures MigrationProgress(before, db.docs, orderBefore, db.order, filesBefore, gridfs.files,
                              if migrated then rows + [row] else rows, t0)
  {
    ghost var mid := db.docs;
    ghost var orderMid := db.order;
    ghost var filesMid := gridfs.files;
    ghost var t1 := clock.now;
    migrated := MigrateOne(db, gridfs, clock, row);
    if migrated {
      ProgressStep(before, mid, db.docs, orderBefore, orderMid, db.order, filesBefore, filesMid, gridfs.files,
                   rows, row, t0, t1);
    }
  }

  /** The loop state after one more row was migrated. */
  lemma ProgressStep(before: Records, mid: Records, after: Records,
                     orderBefore: seq<Value>, orderMid: seq<Value>, orderAfter: seq<Value>,
                     filesBefore: seq<StoredFile>, filesMid: seq<StoredFile>, filesAfter: seq<StoredFile>,
                     rows: seq<LegacyRecord>, row: LegacyRecord, t0: Timestamp, t1: Timestamp)
    requires MigrationProgress(before, mid, orderBefore, orderMid, filesBefore, filesMid, rows, t0) && t0 <= t1
    requires Str(row.contractNumber) !in mid && Str(row.contractNumber) in after
    requires orderAfter == orderMid + [Str(row.contractNumber)]
    requires filesAfter == filesMid + [StoredFile(OldDocumentFilename(row.contractNumber), row.contractNumber, Some(true))]
    requires after == mid[Str(row.contractNumber) := after[Str(row.contractNumber)]]
    requires MigratedRecord(after[Str(row.contractNumber)], row, |filesMid|, t1)
    ensures MigrationProgress(before, after, orderBefore, orderAfter, filesBefore, filesAfter, rows + [row], t0)
  {
    var key := Str(row.contractNumber);
    assert |filesMid| == |filesBefore| + |rows|;
    RecordEarlier(after[key], row, |filesMid|, t0, t1);
    KeysStep(before, mid, after, rows, row);
    KeptStep(before, mid, after, key);
    AllMigratedStep(mid, after, rows, row, |filesBefore|, t0);
    KeysOfAppend(rows, row);
    OldDocumentsAppend(rows, row);
  }

  lemma KeysOfAppend(rows: seq<LegacyRecord>, row: LegacyRecord)
    ensures KeysOf(rows + [row]) == KeysOf(rows) + [Str(row.contractNumber)]
  {
    assert KeysOf(rows + [row])[..|rows|] == KeysOf(rows);
  }

  lemma OldDocumentsAppend(rows: seq<LegacyRecord>, row: LegacyRecord)
    ensures OldDocuments(rows + [row])
         == OldDocuments(rows) + [StoredFile(OldDocumentFilename(row.contractNumber), row.contractNumber, Some(true))]
  {
    assert OldDocuments(rows + [row])[..|rows|] == OldDocuments(rows);
  }

  lemma RecordEarlier(doc: Document, row: LegacyRecord, fileId: FileId, t0: Timestamp, t1: Timestamp)
    requires t0 <= t1 && MigratedRecord(doc, row, fileId, t1)
    ensures MigratedRecord(doc, row, fileId, t0)
  {
  }

  /** The rows to migrate from one more legacy row. */
  lemma ToMigrateStep(legacy: seq<LegacyRecord>, i: nat, stored: set<Value>)
    requires i < |legacy|
    ensures var earlier := ToMigrate(legacy[..i], stored);
            ToMigrate(legacy[..i + 1], stored)
              == if Str(legacy[i].contractNumber) in stored + Numbers(earlier) then earlier else earlier + [legacy[i]]
  {
    assert legacy[..i + 1][..i] == legacy[..i];
  }

  /** The loop of `migrate_older_contracts` over the legacy rows; returns how many it migrated. */
  method MigrateRecords(db: Collection, gridfs: GridFs, clock: Clock, legacy: seq<LegacyRecord>) returns (count: nat)
    requires Consistent(db, clock)
    modifies db, gridfs, clock
    ensures Consistent(db, clock) && old(clock.now) <= clock.now
    ensures count == |ToMigrate(legacy, old(db.docs).Keys)|
    ensures MigrationProgress(old(db.docs), db.docs, old(db.order), db.order, old(gridfs.files), gridfs.files,
                              ToMigrate(legacy, old(db.docs).Keys), old(clock.now))
  {
    ghost var stored := db.docs.Keys;
    count := 0;
    var i := 0;
    while i < |legacy|
      invariant 0 <= i <= |legacy|
      invariant Consistent(db, clock) && old(clock.now) <= clock.now
      invariant count == |ToMigrate(legacy[..i], stored)|
      invariant MigrationProgress(old(db.docs), db.docs, old(db.order), db.order, old(gridfs.files), gridfs.files,
                                  ToMigrate(legacy[..i], stored), old(clock.now))
    {
      ToMigrateStep(legacy, i, stored);
      var migrated := MigrationTurn(db, gridfs, clock, legacy[i], old(db.docs), old(db.order), old(gridfs.files),
                                    ToMigrate(legacy[..i], stored), old(clock.now));
      if migrated {
        count := count + 1;
      }
      i := i + 1;
    }
    assert legacy[..i] == legacy;
  }

  /** `migrate_older_contracts(db, gridfs_db)`: imports the legacy rows not yet in the store. */
  method MigrateOlderContracts(db: Collection, gridfs: GridFs, clock: Clock) returns (summary: MigrationSummary)
    requires Consistent(db, clock)
    modifies db, gridfs, clock
    ensures Consistent(db, clock) && NoRegression(old(db.docs), db.docs)
    ensures var rows := ToMigrate(LegacyContracts, old(db.docs).Keys);
            && summary == MigrationSummary("success", |rows|, "Migration simulated successfully.")
            && Migrated(old(db.docs), db.docs, rows, |old(gridfs.files)|, old(clock.now))
            && db.order == old(db.order) + KeysOf(rows)
            && gridfs.files == old(gridfs.files) + OldDocuments(rows)
  {
    var count := MigrateRecords(db, gridfs, clock, LegacyContracts);
    summary := MigrationSummary("success", count, "Migration simulated successfully.");
  }
}
