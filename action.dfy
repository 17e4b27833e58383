/** doAction and processJSON as they run on a message: the cookie gate, the
    parse and the message_field step, compaction, the alternate field, the
    fallback object for text that is not JSON, and the parse-success flag. */
module Action {
  import opened JsonValues
  import opened CookieGate
  import opened ProcessJson
  import opened InstanceConfig

  /** One msgAddJSON call: the object and the container it was added at. */
  datatype Attachment = Attachment(container: string, obj: JsonObject)

  /** The message as this action sees it: the texts it can read, the
      objects added to it so far and its parse-success flag. property stands
      for MsgGetProp on a described variable. */
  class Message {
    const rawMsg: CString
    const msgText: CString
    const property: string -> CString
    var attached: seq<Attachment>
    var parseSuccess: bool

    constructor (rawMsg: CString, msgText: CString, property: string -> CString)
      ensures this.rawMsg == rawMsg && this.msgText == msgText && this.property == property
      ensures attached == [] && !parseSuccess
    {
      this.rawMsg := rawMsg;
      this.msgText := msgText;
      this.property := property;
      attached := [];
      parseSuccess := false;
    }

    /** msgAddJSON */
    method AddJSON(container: string, obj: JsonObject)
      modifies this
      ensures attached == old(attached) + [Attachment(container, obj)]
      ensures parseSuccess == old(parseSuccess)
    {
      attached := attached + [Attachment(container, obj)];
    }

    /** MsgSetParseSuccess */
    method SetParseSuccess(success: bool)
      modifies this
      ensures parseSuccess == success && attached == old(attached)
    {
      parseSuccess := success;
    }
  }

  /** The attachments an optional object makes at a container: none or one. */
  function Attachments(container: string, obj: Option<JsonObject>): seq<Attachment>
  {
    if obj.Some? then [Attachment(container, obj.value)] else []
  }

  /** What doAction attaches for text that is not structured: {"msg": text}. */
  function FallbackObject(text: string): JsonObject
  {
    map["msg" := String(text)]
  }

  /** What doAction returns, the object it attaches (if any) and the value
      it gives the parse-success flag. */
  datatype Outcome = Outcome(ret: RetCode, attach: Option<JsonObject>, parseSuccess: bool)

  function ActionOutcome(buf: string, cookie: string, messageField: Option<string>,
                         altMessageField: Option<string>, compact: bool, lib: JsonLib): (o: Outcome)
    ensures o.ret != NoCeeMsg
    ensures o.parseSuccess ==> o.ret == Ok
    ensures o.ret != Ok ==> o.attach.None? && !o.parseSuccess
  {
    match Gate(buf, cookie)
    case Declined(rest) => Outcome(Ok, Some(FallbackObject(rest)), false)
    case Passed(body) =>
      var p := ProcessOutcome(body, messageField, altMessageField, compact, lib);
      if p.code == NoCeeMsg then Outcome(Ok, Some(FallbackObject(body)), false)
      else Outcome(p.code, p.attach, p.code == Ok)
  }

  /** A buffer the gate declines gets exactly the fallback object, holding
      the buffer without its leading whitespace; the action still returns
      Ok and the parse did not succeed. */
  lemma FallbackOnMissingCookie(buf: string, cookie: string, messageField: Option<string>,
                                altMessageField: Option<string>, compact: bool, lib: JsonLib)
    requires var rest := buf[LeadingSpaces(buf)..]; rest == [] || !(cookie <= rest)
    ensures ActionOutcome(buf, cookie, messageField, altMessageField, compact, lib) ==
      Outcome(Ok, Some(FallbackObject(buf[LeadingSpaces(buf)..])), false)
  {
  }

  /** Text after the cookie that does not parse as one whole object gets the
      fallback object holding that text; nothing from the parse is kept. */
  lemma FallbackOnRejectedParse(ws: string, cookie: string, text: string, messageField: Option<string>,
                                altMessageField: Option<string>, compact: bool, lib: JsonLib)
    requires AllSpace(ws)
    requires cookie + text != [] && !IsSpace((cookie + text)[0])
    requires !Accepts(lib.parse(text, |text|), |text|)
    ensures ActionOutcome(ws + cookie + text, cookie, messageField, altMessageField, compact, lib) ==
      Outcome(Ok, Some(FallbackObject(text)), false)
  {
    GateRoundTrip(ws, cookie, text);
  }

  /** Whitespace, the cookie, then one whole JSON object: with no message
      field and no compaction the parsed object is attached as it is and the
      parse succeeded. */
  lemma CookieThenObject(ws: string, cookie: string, text: string, altMessageField: Option<string>, lib: JsonLib)
    requires AllSpace(ws)
    requires cookie + text != [] && !IsSpace((cookie + text)[0])
    requires Accepts(lib.parse(text, |text|), |text|)
    ensures ActionOutcome(ws + cookie + text, cookie, None, altMessageField, false, lib) ==
      Outcome(Ok, Some(lib.parse(text, |text|).value.value.members), true)
  {
    GateRoundTrip(ws, cookie, text);
  }

  /** The parse-success flag is set exactly when the gate passed and
      processJSON returned Ok; that includes an object the compactor
      discarded, which leaves nothing attached. */
  lemma ParseSuccessIff(buf: string, cookie: string, messageField: Option<string>,
                        altMessageField: Option<string>, compact: bool, lib: JsonLib)
    ensures var o := ActionOutcome(buf, cookie, messageField, altMessageField, compact, lib);
      var g := Gate(buf, cookie);
      && (o.parseSuccess <==>
            g.Passed? && ProcessOutcome(g.text, messageField, altMessageField, compact, lib).code == Ok)
      && (o.parseSuccess ==>
            o.attach == ProcessOutcome(g.text, messageField, altMessageField, compact, lib).attach)
  {
  }

  /** Every outcome is one of four: the fallback object (Ok, no success),
      the processed object (Ok, success), nothing after compaction (Ok,
      success), or an error code passed on with nothing attached. */
  lemma OutcomeCases(buf: string, cookie: string, messageField: Option<string>,
                     altMessageField: Option<string>, compact: bool, lib: JsonLib)
    ensures var o := ActionOutcome(buf, cookie, messageField, altMessageField, compact, lib);
      || (o.ret == Ok && !o.parseSuccess && o.attach == Some(FallbackObject(Gate(buf, cookie).text)))
      || (o.ret == Ok && o.parseSuccess)
      || (o.ret != Ok && o.ret != NoCeeMsg && o.attach.None? && !o.parseSuccess)
  {
  }

  /** The text doAction reads, in terms of the configuration it came from:
      the raw message when userawmsg is on, whatever variable was given;
      otherwise the configured variable's value; otherwise the message part. */
  lemma ReadsConfiguredText(inst: Instance, p: ActionParams, m: Message)
    requires ConfiguredFrom(inst, p)
    ensures var buf := SourceText(inst.useRawMsg, inst.varDescr, m.rawMsg, m.msgText, m.property);
      && (p.useRawMsg == Some(true) ==> buf == m.rawMsg)
      && (p.useRawMsg != Some(true) && p.variable.Some? ==> buf == m.property(p.variable.value))
      && (p.useRawMsg != Some(true) && p.variable.None? ==> buf == m.msgText)
  {
  }

  /** processJSON, updating the object step by step and attaching it to the
      message at the end. */
  method ProcessJSON(inst: Instance, m: Message, buf: string, lib: JsonLib) returns (ret: RetCode)
    modifies m
    ensures var p := ProcessOutcome(buf, inst.messageField, inst.altMessageField, inst.compact, lib);
      ret == p.code && m.attached == old(m.attached) + Attachments(inst.container, p.attach)
    ensures m.parseSuccess == old(m.parseSuccess)
  {
    var parsed := lib.parse(buf, |buf|);
    if !Accepts(parsed, |buf|) {
      return NoCeeMsg;
    }
    var json := parsed.value.value.members;
    var ostrcopy: Option<string> := None;
    if inst.messageField.Some? {
      var field := inst.messageField.value;
      if field in json {
        var sub := json[field];
        if sub.String? {
          var ostr := lib.render(sub);
          if ostr.None? {
            return JsonParseErr;
          }
          var oscp := StripQuotes(ostr.value);
          ostrcopy := Some(lib.unescape(oscp));
          var nestedjson := lib.parse(ostrcopy.value, |oscp|).value;
          if !IsNullPointer(nestedjson) {
            json := json - {field};
            var merged := lib.merge(json, nestedjson.value);
            if merged.code != Ok {
              return merged.code;
            }
            json := merged.result;
          }
        } else if sub.Object? {
          if inst.altMessageField.Some? {
            ostrcopy := lib.render(sub);
          }
          json := json - {field};
          var merged := lib.merge(json, sub);
          if merged.code != Ok {
            return merged.code;
          }
          json := merged.result;
        }
      }
    }
    var keep := true;
    if inst.compact {
      var compacted := lib.compact(json);
      json := compacted.result;
      if compacted.rc < 0 || compacted.rc > 0 {
        keep := false;
      }
    }
    if keep {
      if inst.altMessageField.Some? && ostrcopy.Some? {
        json := json[inst.altMessageField.value := String(ostrcopy.value)];
      }
      m.AddJSON(inst.container, json);
    }
    ret := Ok;
  }

  /** doAction: pick the text, skip its leading whitespace, check the
      cookie, run processJSON on what follows it, attach the fallback object
      when the text is not structured, and record whether the parse
      succeeded. */
  method DoAction(inst: Instance, m: Message, lib: JsonLib) returns (ret: RetCode)
    requires inst.Valid()
    modifies m
    ensures var buf := SourceText(inst.useRawMsg, inst.varDescr, m.rawMsg, m.msgText, m.property);
      var o := ActionOutcome(buf, inst.cookie, inst.messageField, inst.altMessageField, inst.compact, lib);
      && ret == o.ret
      && m.parseSuccess == o.parseSuccess
      && m.attached == old(m.attached) + Attachments(inst.container, o.attach)
  {
    var buf := SourceText(inst.useRawMsg, inst.varDescr, m.rawMsg, m.msgText, m.property);
    var success := false;
    var i := SkipSpace(buf);
    var rest := buf[i..];
    StrNEqualIsPrefix(rest, inst.cookie);
    if rest == [] || !StrNEqual(rest, inst.cookie, inst.lenCookie) {
      ret := NoCeeMsg;
    } else {
      rest := rest[inst.lenCookie..];
      ret := ProcessJSON(inst, m, rest, lib);
      if ret == Ok {
        success := true;
      }
    }
    if ret == NoCeeMsg {
      m.AddJSON(inst.container, FallbackObject(rest));
      ret := Ok;
    }
    m.SetParseSuccess(success);
  }
}
