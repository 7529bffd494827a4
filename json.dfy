/** The JSON values the handlers send, and a reply: an HTTP status with a JSON body. */
module Json {
  import opened Wrappers

  /** A MongoDB ObjectId; the model uses naturals, handed out in insertion order. */
  type ObjectId = nat

  /**
   * A JSON value as `res.json` writes it. `JId` is an ObjectId (written as its hex string) and
   * `JDate` a timestamp (written as an ISO date). Object keys are unordered.
   */
  datatype Json =
    | JNull
    | JBool(b: bool)
    | JNum(n: int)
    | JStr(s: string)
    | JId(id: ObjectId)
    | JDate(t: nat)
    | JArr(items: seq<Json>)
    | JObj(fields: map<string, Json>)

  /** JavaScript truthiness of a value: arrays and objects are always truthy, even when empty. */
  predicate Truthy(j: Json) {
    match j
    case JNull => false
    case JBool(b) => b
    case JNum(n) => n != 0
    case JStr(s) => s != ""
    case _ => true
  }

  /** The member `key` of an object; `None` when `j` is not an object or has no such key. */
  function Get(j: Json, key: string): Option<Json> {
    if j.JObj? && key in j.fields then Some(j.fields[key]) else None
  }

  /** A field whose value may be `undefined`, which `JSON.stringify` leaves out. */
  function WithOptional(fields: map<string, Json>, key: string, v: Option<string>): map<string, Json> {
    if v.Some? then fields[key := JStr(v.value)] else fields
  }

  function Strings(xs: seq<string>): seq<Json> {
    seq(|xs|, i requires 0 <= i < |xs| => JStr(xs[i]))
  }

  function Ids(xs: seq<ObjectId>): seq<Json> {
    seq(|xs|, i requires 0 <= i < |xs| => JId(xs[i]))
  }

  function IdOrNull(x: Option<ObjectId>): Json {
    if x.Some? then JId(x.value) else JNull
  }

  /** What `res.status(status).json(body)` sends. */
  datatype Reply = Reply(status: int, body: Json)
}
