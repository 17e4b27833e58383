/** JSON values as json-c holds them, the return codes the action uses, and the
    helpers it calls but does not define (json-c's tokener and printer, and
    rsyslog's unescapeStr, jsonMerge and jsonCompact). Those helpers are
    passed in as a JsonLib value whose fields are left uninterpreted. */
module JsonValues {

  datatype Option<+T> = None | Some(value: T)

  /** A JSON value. An object's members are keyed uniquely; the order json-c
      keeps them in is not modelled. */
  datatype Json =
    | Null
    | Bool(b: bool)
    | Int(i: int)
    | String(s: string)
    | Array(items: seq<Json>)
    | Object(members: map<string, Json>)

  type JsonObject = map<string, Json>

  /** json-c represents a JSON `null` by the NULL pointer, so code that tests a
      returned value against NULL cannot tell `null` from "nothing". */
  predicate IsNullPointer(v: Option<Json>)
  {
    v.None? || v.value.Null?
  }

  /** The rsRetVal codes this module produces or passes on. */
  datatype RetCode =
    | Ok                 // RS_RET_OK
    | NoCeeMsg           // RS_RET_NO_CEE_MSG
    | JsonParseErr       // RS_RET_JSON_PARSE_ERR
    | InvalidVar         // RS_RET_INVALID_VAR
    | MissingCnfParams   // RS_RET_MISSING_CNFPARAMS
    | OtherError(code: int)  // any code a foreign helper returns that this file does not name

  /** What json_tokener_parse_ex returns, with the tokener's char_offset afterwards. */
  datatype Parsed = Parsed(value: Option<Json>, charOffset: nat)

  /** jsonMerge's return code and the destination object after the call. */
  datatype Merged = Merged(code: RetCode, result: JsonObject)

  /** jsonCompact's return value and the object after it compacted it in place. */
  datatype Compacted = Compacted(rc: int, result: JsonObject)

  /** The foreign helpers:
      - parse(text, len): json_tokener_parse_ex on a freshly reset tokener;
      - render(v): json_object_to_json_string_ext(v, JSON_C_TO_STRING_PLAIN), None for NULL;
      - unescape(s): unescapeStr on a copy of s;
      - merge(dest, src): jsonMerge(dest, src);
      - compact(obj): jsonCompact(obj). */
  datatype JsonLib = JsonLib(
    parse: (string, nat) -> Parsed,
    render: Json -> Option<string>,
    unescape: string -> string,
    merge: (JsonObject, Json) -> Merged,
    compact: JsonObject -> Compacted)
}
