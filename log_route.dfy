/**
 * The upload log endpoint: POST validates a record and appends it to the
 * log file, GET returns the whole log and its length. The file is the
 * field `file` of a `LogStore`; the clock is the `timestamp` parameter.
 */
module UploadLog {
  import opened Wrappers

  /**
   * A JavaScript value as it comes out of `JSON.parse` or out of reading a
   * property that is not there (`Undefined`).
   */
  datatype JsValue =
    | Undefined
    | Null
    | Bool(b: bool)
    | Num(n: real)
    | Str(s: string)
    | Arr(items: seq<JsValue>)
    | Obj(fields: map<string, JsValue>)

  /** JavaScript truthiness: false, 0, "", null and undefined are falsy. */
  predicate Truthy(v: JsValue) {
    match v
    case Undefined => false
    case Null => false
    case Bool(b) => b
    case Num(n) => n != 0.0
    case Str(s) => s != ""
    case Arr(_) => true
    case Obj(_) => true
  }

  /** The five fields POST reads from the body. */
  datatype Fields = Fields(filename: JsValue, size: JsValue, mimeType: JsValue, status: JsValue, language: JsValue)

  /** Reading property `key` of a value that is neither null nor undefined. */
  function Property(v: JsValue, key: string): JsValue
    requires !v.Undefined? && !v.Null?
  {
    if v.Obj? && key in v.fields then v.fields[key] else Undefined
  }

  /**
   * `const { filename, size, type, status, language } = body`: None when
   * destructuring throws, which it does for null and undefined.
   */
  function Destructure(v: JsValue): Option<Fields> {
    if v.Undefined? || v.Null? then None
    else Some(Fields(Property(v, "filename"), Property(v, "size"), Property(v, "type"),
                     Property(v, "status"), Property(v, "language")))
  }

  /** The request body: text that is not JSON makes `req.json()` reject. */
  datatype Body = Unparsable | Json(value: JsValue)

  /** The fields POST works with, or None when reading them throws. */
  function Received(body: Body): Option<Fields> {
    if body.Unparsable? then None else Destructure(body.value)
  }

  /** The validation: filename, size, type and language must be truthy. */
  predicate HasRequiredFields(f: Fields) {
    Truthy(f.filename) && Truthy(f.size) && Truthy(f.mimeType) && Truthy(f.language)
  }

  /** The falsy values are exactly undefined, null, false, 0 and "". */
  lemma FalsyValues(v: JsValue)
    ensures !Truthy(v) <==>
      v == Undefined || v == Null || v == Bool(false) || v == Num(0.0) || v == Str("")
  {
  }

  /**
   * What POST makes of a body: text that is not JSON and a JSON `null`
   * throw while the fields are read; any other value that is not an object
   * has none of the fields and fails the validation.
   */
  lemma NonObjectBodies(v: JsValue)
    ensures Received(Unparsable).None? && Received(Json(Null)).None?
    ensures !v.Obj? && !v.Null? && !v.Undefined? ==>
      Received(Json(v)).Some? && !HasRequiredFields(Received(Json(v)).value)
  {
  }

  /**
   * An object body passes the validation exactly when it has the keys
   * filename, size, type and language, each with a truthy value.
   */
  lemma ObjectBodyValidation(m: map<string, JsValue>)
    ensures Received(Json(Obj(m))).Some?
    ensures HasRequiredFields(Received(Json(Obj(m))).value) <==>
      ("filename" in m && Truthy(m["filename"])) && ("size" in m && Truthy(m["size"])) &&
      ("type" in m && Truthy(m["type"])) && ("language" in m && Truthy(m["language"]))
  {
  }

  /** A size of 0 and an empty filename are rejected. */
  lemma FalsyFieldsRejected(f: Fields)
    ensures f.size == Num(0.0) ==> !HasRequiredFields(f)
    ensures f.filename == Str("") ==> !HasRequiredFields(f)
    ensures f.size == Undefined || f.language == Null ==> !HasRequiredFields(f)
  {
  }

  /** Status is not required, and an empty language list passes. */
  lemma OptionalAndEmptyFields(f: Fields, status: JsValue)
    ensures HasRequiredFields(f) ==> HasRequiredFields(f.(status := status))
    ensures HasRequiredFields(f.(language := Arr([]))) <==>
      Truthy(f.filename) && Truthy(f.size) && Truthy(f.mimeType)
  {
  }

  /** One record of the log: the fields as received plus the time of the POST. */
  datatype LogEntry = LogEntry(timestamp: string, filename: JsValue, size: JsValue, mimeType: JsValue,
                               status: JsValue, language: JsValue)

  function EntryOf(f: Fields, timestamp: string): LogEntry {
    LogEntry(timestamp, f.filename, f.size, f.mimeType, f.status, f.language)
  }

  /** The log file: missing, holding text that does not parse, or a list of records. */
  datatype StoredLog = Absent | Unreadable | Stored(entries: seq<LogEntry>)

  datatype ResponseBody =
    | Message(text: string)
    | CreatedEntry(success: bool, entry: LogEntry)
    | Listing(count: nat, logs: seq<LogEntry>)

  datatype Response = Response(status: nat, body: ResponseBody)

  const RequiredFieldsMessage: string := "Campos obrigatórios: filename, size, type, language."
  const WrittenMessage: string := "O log foi escrito com sucesso."

  /** `readLogs()`: the stored records, or none when the file cannot be read or parsed. */
  function ReadLogs(file: StoredLog): seq<LogEntry> {
    if file.Stored? then file.entries else []
  }

  class LogStore {
    var file: StoredLog

    constructor (initial: StoredLog)
      ensures file == initial
    {
      file := initial;
    }

    /**
     * `POST`. `timestamp` is the clock reading and `writeOk` whether
     * rewriting the file succeeds. A body that cannot be read or a failed
     * write is answered with status 200 and the log is left as it was.
     */
    method Post(body: Body, timestamp: string, writeOk: bool) returns (resp: Response)
      modifies this
      ensures Received(body).None? ==> resp == Response(200, Message(WrittenMessage)) && file == old(file)
      ensures Received(body).Some? && !HasRequiredFields(Received(body).value) ==>
        resp == Response(400, Message(RequiredFieldsMessage)) && file == old(file)
      ensures Received(body).Some? && HasRequiredFields(Received(body).value) ==>
        var entry := EntryOf(Received(body).value, timestamp);
        if writeOk then
          resp == Response(201, CreatedEntry(true, entry)) && file == Stored(ReadLogs(old(file)) + [entry])
        else
          resp == Response(200, Message(WrittenMessage)) && file == old(file)
      ensures resp.status == 201 && !old(file).Stored? ==>
        file == Stored([EntryOf(Received(body).value, timestamp)])
    {
      var fields := Received(body);
      if fields.None? {
        return Response(200, Message(WrittenMessage));
      }
      var f := fields.value;
      if !HasRequiredFields(f) {
        return Response(400, Message(RequiredFieldsMessage));
      }
      var logs := ReadLogs(file);
      var entry := EntryOf(f, timestamp);
      logs := logs + [entry];
      if !writeOk {
        return Response(200, Message(WrittenMessage));
      }
      file := Stored(logs);
      return Response(201, CreatedEntry(true, entry));
    }

    /** `GET`: the count and the list of records, with status 200. */
    method Get() returns (resp: Response)
      ensures resp.status == 200 && resp.body.Listing?
      ensures resp.body.logs == ReadLogs(file) && resp.body.count == |resp.body.logs|
      ensures !file.Stored? ==> resp.body == Listing(0, [])
    {
      var logs := ReadLogs(file);
      return Response(200, Listing(|logs|, logs));
    }
  }

  /**
   * A successful POST adds its record as the last one: every earlier
   * record stays, in its place, and the log grows by exactly one.
   */
  lemma AppendKeepsEarlier(before: StoredLog, entry: LogEntry)
    ensures var after := ReadLogs(Stored(ReadLogs(before) + [entry]));
      |after| == |ReadLogs(before)| + 1 &&
      after[|after| - 1] == entry &&
      forall i :: 0 <= i < |ReadLogs(before)| ==> after[i] == ReadLogs(before)[i]
  {
  }
}
