/**
 * The dynamic values stored in contract records (Python dictionaries and
 * MongoDB documents), and the errors the engine raises.
 */
module Values {
  import opened Time

  /** A JSON/BSON value: what a Python dict or a MongoDB document field can hold. */
  datatype Value =
    | Null
    | Bool(b: bool)
    | Int(i: int)
    | Str(s: string)
    | DateTime(t: Timestamp)
    | List(items: seq<Value>)
    | Dict(entries: map<string, Value>)

  /** A dictionary / document: field names to values. */
  type Document = map<string, Value>

  /** `d.get(key)`: the value, or None when the key is absent. */
  function Get(d: Document, key: string): Value {
    if key in d then d[key] else Null
  }

  /** `d.get(key, default)`. */
  function GetOr(d: Document, key: string, default: Value): Value {
    if key in d then d[key] else default
  }

  /** The exceptions raised by the engine, each named for the rule it reports. */
  datatype Error =
    | MissingKey(key: string)                             // KeyError on `data[key]`
    | DuplicateContract(contractNumber: Value)            // "Contract with number … already exists."
    | NotFound                                            // "Contract not found."
    | InvalidTransition(current: Value, requested: string) // "Cannot transition from … to …"
    | InvalidApprovalStatus(requested: string)            // "Invalid approval status."
    | NotRenewable(current: Value)                        // "Contract status must be 'EXECUTED' to be renewed."
    | InvalidIsoFormat(text: string)                      // ValueError from datetime.fromisoformat
    | MissingTimestamp                                    // AttributeError: None has no isoformat()
    | DetailsNotAnObject                                  // TypeError: item assignment on non-dict details
    | WriteError                                          // MongoDB refuses `$set details.x` on a non-document

  datatype Result<+T> = Ok(value: T) | Err(error: Error)
}
