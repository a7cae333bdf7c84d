/**
 * The Contract entity (app/models/contract.py): five attributes, a dictionary
 * form written to the store (`to_dict`) and the reverse reading (`from_dict`).
 */
module ContractModel {
  import opened Common
  import opened Time
  import opened Values

  /** The five attributes of a Contract, as one value. */
  datatype ContractFields = ContractFields(
    contractNumber: Value,
    status: Value,
    details: Value,
    createdAt: Option<Timestamp>,
    updatedAt: Option<Timestamp>)

  /** The isinstance chain `from_dict` applies to one timestamp field. */
  function ParseTimestamp(v: Value): (r: Result<Option<Timestamp>>)
    ensures r.Err? <==> BadIsoText(v)
    ensures r.Err? ==> r.error == InvalidIsoFormat(v.s)
    ensures r.Ok? ==> (r.value.Some? <==> v.Str? || v.DateTime?)
    ensures r.Ok? && v.Str? ==> r.value == FromIsoFormat(v.s)
    ensures v.DateTime? ==> r == Ok(Some(v.t))
  {
    match v
    case Str(s) =>
      (match FromIsoFormat(s)
       case Some(t) => Ok(Some(t))
       case None => Err(InvalidIsoFormat(s)))
    case DateTime(t) => Ok(Some(t))
    case _ => Ok(None)
  }

  /** A string the ISO reader rejects. */
  predicate BadIsoText(v: Value) {
    v.Str? && FromIsoFormat(v.s).None?
  }

  /** What `from_dict` makes of a dictionary, or the error it raises. */
  function Decode(data: Document): (r: Result<ContractFields>)
    ensures r.Err? <==> BadIsoText(Get(data, "created_at")) || BadIsoText(Get(data, "updated_at"))
    ensures r.Err? && BadIsoText(Get(data, "created_at")) ==> r.error == InvalidIsoFormat(Get(data, "created_at").s)
    ensures r.Ok? ==> r.value.contractNumber == Get(data, "contract_number") && r.value.status == Get(data, "status")
    ensures r.Ok? && "details" in data ==> r.value.details == data["details"]
    ensures r.Ok? && "details" !in data ==> r.value.details == Dict(map[])
    ensures r.Ok? ==> (r.value.createdAt.Some? <==> Get(data, "created_at").Str? || Get(data, "created_at").DateTime?)
    ensures r.Ok? ==> (r.value.updatedAt.Some? <==> Get(data, "updated_at").Str? || Get(data, "updated_at").DateTime?)
    ensures r.Ok? && Get(data, "updated_at").DateTime? ==> r.value.updatedAt == Some(Get(data, "updated_at").t)
  {
    var created := ParseTimestamp(Get(data, "created_at"));
    var updated := ParseTimestamp(Get(data, "updated_at"));
    if created.Err? then Err(created.error)
    else if updated.Err? then Err(updated.error)
    else Ok(ContractFields(Get(data, "contract_number"), Get(data, "status"),
                           GetOr(data, "details", Dict(map[])), created.value, updated.value))
  }

  class Contract {
    var contractNumber: Value
    var status: Value
    var details: Value
    var createdAt: Option<Timestamp>
    var updatedAt: Option<Timestamp>

    function Fields(): ContractFields
      reads this
    {
      ContractFields(contractNumber, status, details, createdAt, updatedAt)
    }

    /** `Contract(contract_number, status, details)`: both timestamps are clock readings, creation first. */
    constructor (contractNumber: Value, status: Value, details: Value, clock: Clock)
      modifies clock
      ensures this.contractNumber == contractNumber && this.status == status && this.details == details
      ensures createdAt.Some? && updatedAt.Some?
      ensures old(clock.now) <= createdAt.value <= updatedAt.value == clock.now
    {
      var created := clock.UtcNow();
      var updated := clock.UtcNow();
      this.contractNumber := contractNumber;
      this.status := status;
      this.details := details;
      createdAt := Some(created);
      updatedAt := Some(updated);
    }

    /**
     * `to_dict`: the record written to the store. It fails when a timestamp is
     * missing, and otherwise `from_dict` reads back exactly this contract.
     */
    function ToDict(): (r: Result<Document>)
      reads this
      ensures r.Ok? <==> createdAt.Some? && updatedAt.Some?
      ensures r.Err? ==> r.error == MissingTimestamp
      ensures r.Ok? ==> r.value.Keys == {"contract_number", "status", "details", "created_at", "updated_at"}
      ensures r.Ok? ==> r.value["contract_number"] == contractNumber && r.value["status"] == status
                        && r.value["details"] == details
      ensures r.Ok? ==> r.value["created_at"] == Str(IsoFormat(createdAt.value))
                        && r.value["updated_at"] == Str(IsoFormat(updatedAt.value))
      ensures r.Ok? ==> Decode(r.value) == Ok(Fields())
    {
      if createdAt.None? || updatedAt.None? then Err(MissingTimestamp)
      else
        IsoRoundTrip(createdAt.value);
        IsoRoundTrip(updatedAt.value);
        Ok(map["contract_number" := contractNumber,
               "status" := status,
               "details" := details,
               "created_at" := Str(IsoFormat(createdAt.value)),
               "updated_at" := Str(IsoFormat(updatedAt.value))])
    }

    /**
     * `from_dict`: builds a contract (reading the clock twice, as the
     * constructor does) and then overwrites both timestamps from `data`.
     */
    static method FromDict(data: Document, clock: Clock) returns (r: Result<Contract>)
      modifies clock
      ensures old(clock.now) <= clock.now
      ensures r.Ok? <==> Decode(data).Ok?
      ensures r.Err? ==> r.error == Decode(data).error
      ensures r.Ok? ==> fresh(r.value) && r.value.Fields() == Decode(data).value
    {
      var c := new Contract(Get(data, "contract_number"), Get(data, "status"),
                            GetOr(data, "details", Dict(map[])), clock);
      var created := ParseTimestamp(Get(data, "created_at"));
      if created.Err? {
        return Err(created.error);
      }
      c.createdAt := created.value;
      var updated := ParseTimestamp(Get(data, "updated_at"));
      if updated.Err? {
        return Err(updated.error);
      }
      c.updatedAt := updated.value;
      r := Ok(c);
    }
  }
}
