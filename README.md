# mmjsonparse: a Dafny model of the message handling

rsyslog's `mmjsonparse` action takes a text from a message (the raw message,
a configured variable, or the message part), skips leading whitespace,
requires a configured cookie (by default `@cee:`), parses what follows as
JSON and attaches the resulting object to the message at a configured
container. Optionally it resolves a "double-encoded" field
(`message_field`): the field's value is a string holding JSON text, or an
object. The field is replaced by the content it holds. The pre-resolution
text can be kept under `alt_message_field`. It can also compact the object
(`compact`). Text that is not structured is attached as `{"msg": text}`.

The model has five modules:

- `JsonValues` (`json_values.dfy`): the JSON value type, the return codes,
  and `JsonLib`. `JsonLib` is a record of the helpers the action calls but
  does not define: json-c's `json_tokener_parse_ex` and
  `json_object_to_json_string_ext`, and rsyslog's `unescapeStr`,
  `jsonMerge` and `jsonCompact`. They are function-valued parameters with no
  semantics of their own. Every result is proved for all of them.
- `CookieGate` (`cookie_gate.dfy`): the whitespace loop (a method with its
  invariants), `strncmp` as C defines it, and the gate.
- `ProcessJson` (`process_json.dfy`): what `processJSON` computes, as
  functions. This covers the top-level acceptance test, the quote stripping,
  the `message_field` step, compaction and the alternate field.
- `InstanceConfig` (`instance_config.dfy`): the instance as a class
  (`createInstance`, `setInstParamDefaults`) and `newActInst`. It also holds
  the container-name check and the choice of source text.
- `Action` (`action.dfy`): the message as a class, and `processJSON` and
  `doAction` as methods. The message keeps a log of the objects added to it
  and its parse-success flag. Each method is proved equal to the functions
  above.

Behaviour of the code worth noting, which the model keeps:
- The alternate field is filled whenever the message field held a string.
  It gets the unescaped text even when that text did not re-parse, so a
  plain-string field is kept but the alternate field is still added.
- The re-parse of the unescaped text has no object test and no
  trailing-data test. Any value other than null is merged.
- The re-parse is given the length of the text before unescaping.
- A negative compactor result (an error) discards the object just like an
  empty one. The action still returns Ok and sets the parse-success flag.

## Model

| member | source | states |
|---|---|---|
| `CookieGate.LeadingSpaces` | plugins/mmjsonparse/mmjsonparse.c:362-364 | the count is within the buffer, every character before it is whitespace, and the character at it is not |
| `CookieGate.SkipSpace` | plugins/mmjsonparse/mmjsonparse.c:362-364 | the whitespace loop stops at exactly the first character that is not whitespace (or the end) |
| `CookieGate.StrNEqualIsPrefix` | plugins/mmjsonparse/mmjsonparse.c:366 | `strncmp(buf, cookie, strlen(cookie)) == 0` holds exactly when the cookie is a prefix of the buffer |
| `CookieGate.Gate` | plugins/mmjsonparse/mmjsonparse.c:362-370 | the text passed on is the buffer without its leading whitespace and the cookie; a declined buffer's text is the buffer without its leading whitespace |
| `CookieGate.GatePassesIff` | plugins/mmjsonparse/mmjsonparse.c:362-371 | the gate passes iff the whitespace-stripped remainder is non-empty and starts with the cookie; the text passed on is the remainder after the cookie and its length is the remainder's minus the cookie's |
| `CookieGate.GateRoundTrip` | plugins/mmjsonparse/mmjsonparse.c:362-370 | whitespace + cookie + text passes exactly that text on, when cookie + text does not begin with whitespace |
| `CookieGate.GateDeclinesBlank` | plugins/mmjsonparse/mmjsonparse.c:366 | an empty or all-whitespace buffer is declined for every cookie, the empty cookie included |
| `CookieGate.GateEmptyCookie` | plugins/mmjsonparse/mmjsonparse.c:366-370 | with the empty cookie every non-blank buffer passes, carrying everything after its leading whitespace |
| `CookieGate.GateSpaceLedCookie` | plugins/mmjsonparse/mmjsonparse.c:362-366 | a cookie that begins with whitespace never matches |
| `ProcessJson.AcceptsWholeObject` | plugins/mmjsonparse/mmjsonparse.c:222-230 | assuming the tokener never reports an offset past the buffer it was given, the top-level parse is kept iff it returned a value, the value is an object and the whole buffer was consumed |
| `ProcessJson.StripQuotes` | plugins/mmjsonparse/mmjsonparse.c:268-277 | a rendering that starts with a quote loses it, and also loses a trailing quote if one is present; otherwise it is unchanged |
| `ProcessJson.StripQuotesOfQuoted` | plugins/mmjsonparse/mmjsonparse.c:268-277 | stripping a quoted text gives back exactly the text |
| `ProcessJson.StripQuotesNeedsOpeningQuote` | plugins/mmjsonparse/mmjsonparse.c:270-277 | without an opening quote a trailing quote is kept |
| `ProcessJson.ResolveMessageField` | plugins/mmjsonparse/mmjsonparse.c:255-313 | the object changes only when the field holds a string or an object; a string field always captures text unless its rendering failed; without an alternate field only a string field captures text |
| `ProcessJson.ResolveIgnoresOtherKinds` | plugins/mmjsonparse/mmjsonparse.c:255-313 | a missing field, or an array, number, bool or null value, leaves the object untouched and captures nothing |
| `ProcessJson.ResolveStringReparsed` | plugins/mmjsonparse/mmjsonparse.c:259-297 | a string field whose unescaped, quote-stripped rendering re-parses to any non-null value is deleted and that value is merged in; the unescaped text is captured |
| `ProcessJson.ResolvePlainStringKept` | plugins/mmjsonparse/mmjsonparse.c:284-301 | a string field that does not re-parse leaves the object unchanged, and its unescaped text is still captured |
| `ProcessJson.ResolveObjectMerged` | plugins/mmjsonparse/mmjsonparse.c:302-311 | an object field is deleted and merged in; its rendering is captured only when the alternate field is configured |
| `ProcessJson.ResolvedFieldReplaced` | plugins/mmjsonparse/mmjsonparse.c:293-311 | with a shallow merge, a resolved field is replaced by the nested members: it survives only if the nested object has it, and every other outer member survives unless overridden |
| `ProcessJson.ProcessOutcome` | plugins/mmjsonparse/mmjsonparse.c:190-336 | a rejected parse gives `RS_RET_NO_CEE_MSG` with nothing attached; an object is attached only with Ok; a `NO_CEE_MSG` after an accepted parse can only come from the message-field step |
| `ProcessJson.ParsedObjectAttached` | plugins/mmjsonparse/mmjsonparse.c:222-332 | with no message field and no compaction, the parsed object itself is attached |
| `ProcessJson.CompactionDiscards` | plugins/mmjsonparse/mmjsonparse.c:315-321 | a negative or positive compactor result discards the object: nothing is attached and the code is Ok |
| `ProcessJson.AltFieldAfterCompaction` | plugins/mmjsonparse/mmjsonparse.c:315-331 | the alternate field is added to the compacted object after compaction, holding the captured text |
| `ProcessJson.AltFieldRule` | plugins/mmjsonparse/mmjsonparse.c:315-331 | for every `compact` and `alt_message_field` setting, a surviving object is the (compacted) message-field result, with the alternate field added holding the captured text exactly when it is configured and text was captured; with nothing captured no field is added |
| `ProcessJson.NoAltNoExtraField` | plugins/mmjsonparse/mmjsonparse.c:322-331 | without an alternate field the attached object is exactly the (compacted) result of the message-field step |
| `InstanceConfig.NormalizeContainer` | plugins/mmjsonparse/mmjsonparse.c:421-443 | a container name is accepted iff it, or it without one leading `$`, starts with `!`, `.` or `/`; the result is valid and is the name with at most one `$` removed |
| `InstanceConfig.ContainerBothSpellings` | plugins/mmjsonparse/mmjsonparse.c:425-434 | a valid name and the same name with a leading `$` normalise to the same container |
| `InstanceConfig.ContainerOneDollarOnly` | plugins/mmjsonparse/mmjsonparse.c:425-438 | only one `$` is removed: `$$...` is rejected |
| `InstanceConfig.ContainerNormalizeIdempotent` | plugins/mmjsonparse/mmjsonparse.c:425-443 | normalising a normalised container changes nothing |
| `InstanceConfig.Instance.constructor` | plugins/mmjsonparse/mmjsonparse.c:128-136 | a new instance has container `!`, the CEE cookie and `CONST_LEN_CEE_COOKIE` as its length, which equals the cookie's length (`Valid()`), no message fields and cleared flags |
| `InstanceConfig.Instance.SetInstParamDefaults` | plugins/mmjsonparse/mmjsonparse.c:389-397 | clears the flags, the message fields and the variable, and leaves cookie and container alone |
| `InstanceConfig.Instance.ApplyTable` | plugins/mmjsonparse/mmjsonparse.c:415-459 | each given parameter overwrites its field and an absent one leaves it; the container is stored normalised, and an invalid one stops the loop with failure |
| `InstanceConfig.NewActInst` | plugins/mmjsonparse/mmjsonparse.c:399-478 | unreadable parameters give `MISSING_CNFPARAMS`; an invalid container gives `INVALID_VAR`; otherwise a failing variable description gives its code; on success the instance is valid, the cookie length is the cookie's, the container defaults to `!`, and `variable` is ignored when `userawmsg` is set |
| `Action.ReadsConfiguredText` | plugins/mmjsonparse/mmjsonparse.c:354-360 | for an instance configured from given parameters, the text read is the raw message when `userawmsg` is on, whatever `variable` holds; otherwise the given variable's value; otherwise the message part |
| `Action.Message.AddJSON` | plugins/mmjsonparse/mmjsonparse.c:380-383 | one object is added at the given container |
| `Action.Message.SetParseSuccess` | plugins/mmjsonparse/mmjsonparse.c:386 | sets the parse-success flag and nothing else |
| `Action.ActionOutcome` | plugins/mmjsonparse/mmjsonparse.c:338-387 | the action never returns `NO_CEE_MSG`; the parse-success flag implies Ok; an error code comes with nothing attached and no success |
| `Action.FallbackOnMissingCookie` | plugins/mmjsonparse/mmjsonparse.c:366-385 | a buffer without the cookie gets exactly `{"msg": buffer without leading whitespace}`, returns Ok and is not a parse success |
| `Action.FallbackOnRejectedParse` | plugins/mmjsonparse/mmjsonparse.c:370-385 | text after the cookie that is not one whole object gets exactly `{"msg": text after the cookie}`, returns Ok and is not a parse success |
| `Action.CookieThenObject` | plugins/mmjsonparse/mmjsonparse.c:362-376 | whitespace, cookie, then one whole object: that object is attached and the parse succeeded |
| `Action.ParseSuccessIff` | plugins/mmjsonparse/mmjsonparse.c:371-386 | the flag is set iff the gate passed and processJSON returned Ok, and then what is attached is what processJSON attached (possibly nothing, after compaction) |
| `Action.OutcomeCases` | plugins/mmjsonparse/mmjsonparse.c:366-386 | every call ends in the fallback object, a success, or an error code with nothing attached |
| `Action.ProcessJSON` | plugins/mmjsonparse/mmjsonparse.c:190-336 | the in-place steps return the code of `ProcessOutcome` and add its object (if any) to the message at the container, leaving the flag alone |
| `Action.DoAction` | plugins/mmjsonparse/mmjsonparse.c:338-387 | on the selected text, the return code, the parse-success flag and the objects added are those of `ActionOutcome`: one object or none |

## Left out

- The helpers behind `JsonLib` are uninterpreted: json-c's tokener and printer, `unescapeStr`, `jsonMerge` and `jsonCompact`. They are defined outside `plugins/mmjsonparse/mmjsonparse.c` and are not part of this model. Two lemmas assume a behaviour, each in its requires: `ResolvedFieldReplaced` assumes a shallow merge, and `AcceptsWholeObject` assumes that `json_tokener_parse_ex` never reports a `char_offset` past the length it was given.
- The nested re-parse at line 292 runs on a tokener that was not reset after the first parse. The model gives it the same parse helper as the first parse, as if the tokener were fresh.
- Out-of-memory paths: the `strdup` failure at lines 278-283 and the `CHKmalloc` failures in `createInstance` and `newActInst`. So is the `pData->container == NULL` case at lines 473-474, which only such a failure could reach.
- Memory ownership: `free`, `json_object_get`/`json_object_put`, and the buffer freed when `freeBuf` is set.
- Debug-only diagnostics (lines 203-221) and every `DBGPRINTF`/`LogError`/`parser_errmsg` call. This includes the log line when `variable` is ignored.
- `msgAddJSON`, `getRawMsg`, `getMSG`, `MsgGetProp`, `nvlstGetParams` and `msgPropDescrFill`. The message records each `msgAddJSON` call as an attachment, but how the host merges it into its property tree is not modelled. A property read is an opaque function of the variable name. Parameter reading is reduced to success or failure, and the variable description to its return code.
- The parameter table loop of `newActInst` is written as one step per table entry, in table order.
- Module lifecycle, the legacy selector line (lines 480-500), `resetConfigVariables`, `dbgPrintInstInfo` and per-worker tokener allocation. Concurrency between workers is also out.
- JSON member order and floating-point numbers are not represented. Only the foreign helpers could observe them.
- Strings are NUL-free C strings. An embedded NUL in a configured container (`es_strlen` against `strlen`) is not modelled. `isspace` is taken in the C locale.
