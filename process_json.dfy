/** What processJSON does with the text that passed the cookie gate, as
    functions of that text, the instance's settings and the foreign helpers.
    The method in module Action that runs these steps in place is proved
    equal to ProcessOutcome. */
module ProcessJson {
  import opened JsonValues

  /** The top-level parse is kept only if it returned a value, consumed the
      whole buffer (the tokener's char_offset is not below lenBuf) and that
      value is an object. */
  predicate Accepts(p: Parsed, lenBuf: nat)
  {
    p.value.Some? && !(p.charOffset < lenBuf) && p.value.value.Object?
  }

  /** The tokener never reports an offset past the buffer it was given; then
      acceptance means exactly: an object, and the whole buffer consumed. */
  lemma AcceptsWholeObject(p: Parsed, lenBuf: nat)
    requires p.charOffset <= lenBuf
    ensures Accepts(p, lenBuf) <==>
      (p.value.Some? && p.value.value.Object? && p.charOffset == lenBuf)
  {
  }

  /** The quote handling on the rendering of a string-valued message field:
      a leading '"' is skipped and, when the rendering starts with one, a
      trailing '"' is cut off too. A rendering that is a lone '"' leaves the
      empty string, since the cut lands on that same character. */
  function StripQuotes(ostr: string): (r: string)
    ensures |ostr| >= 2 && ostr[0] == '"' && ostr[|ostr| - 1] == '"' ==> ostr == "\"" + r + "\""
    ensures |ostr| >= 1 && ostr[0] == '"' && !(|ostr| >= 2 && ostr[|ostr| - 1] == '"') ==> ostr == "\"" + r
    ensures (ostr == [] || ostr[0] != '"') ==> r == ostr
  {
    if ostr != [] && ostr[0] == '"' then
      if |ostr| >= 2 && ostr[|ostr| - 1] == '"' then ostr[1..|ostr| - 1] else ostr[1..]
    else ostr
  }

  /** Quoting and stripping are inverse: the text between the quotes comes
      back unchanged, whatever it holds. */
  lemma StripQuotesOfQuoted(s: string)
    ensures StripQuotes("\"" + s + "\"") == s
  {
  }

  /** A rendering without an opening quote is passed on as it is, even if it
      ends in one. */
  lemma StripQuotesNeedsOpeningQuote(s: string)
    requires s != [] && s[0] != '"'
    ensures StripQuotes(s + "\"") == s + "\""
  {
  }

  /** The object after the message_field step, the code the step ends with,
      and the text captured for alt_message_field (ostrcopy), if any. */
  datatype Resolution = Resolution(code: RetCode, obj: JsonObject, captured: Option<string>)

  /** The message_field step for a configured field name. wantAlt says
      whether alt_message_field is configured. */
  function ResolveMessageField(obj: JsonObject, field: string, wantAlt: bool, lib: JsonLib): (r: Resolution)
    ensures r.code == Ok && r.obj != obj ==> field in obj && (obj[field].String? || obj[field].Object?)
    ensures field in obj && obj[field].String? && r.code != JsonParseErr ==> r.captured.Some?
    ensures !wantAlt && r.captured.Some? ==> field in obj && obj[field].String?
  {
    if field !in obj then Resolution(Ok, obj, None)
    else
      match obj[field]
      case String(_) =>
        (match lib.render(obj[field])
         case None => Resolution(JsonParseErr, obj, None)
         case Some(ostr) =>
           var oscp := StripQuotes(ostr);
           var copy := lib.unescape(oscp);
           // the length given to the tokener is that of the text before unescaping
           var nested := lib.parse(copy, |oscp|).value;
           if IsNullPointer(nested) then Resolution(Ok, obj, Some(copy))
           else
             var m := lib.merge(obj - {field}, nested.value);
             Resolution(m.code, m.result, Some(copy)))
      case Object(_) =>
        var captured := if wantAlt then lib.render(obj[field]) else None;
        var m := lib.merge(obj - {field}, obj[field]);
        Resolution(m.code, m.result, captured)
      case _ => Resolution(Ok, obj, None)
  }

  /** A missing field, or one holding an array, number, bool or null, leaves
      the object as it is and captures nothing. */
  lemma ResolveIgnoresOtherKinds(obj: JsonObject, field: string, wantAlt: bool, lib: JsonLib)
    requires field !in obj || !(obj[field].String? || obj[field].Object?)
    ensures ResolveMessageField(obj, field, wantAlt, lib) == Resolution(Ok, obj, None)
  {
  }

  /** A string field whose unescaped text re-parses to anything but null
      (no object or trailing-data test here) is deleted and the re-parsed
      value merged in; the unescaped text is captured. */
  lemma ResolveStringReparsed(obj: JsonObject, field: string, wantAlt: bool, lib: JsonLib, ostr: string)
    requires field in obj && obj[field].String?
    requires lib.render(obj[field]) == Some(ostr)
    requires !IsNullPointer(lib.parse(lib.unescape(StripQuotes(ostr)), |StripQuotes(ostr)|).value)
    ensures var copy := lib.unescape(StripQuotes(ostr));
      var m := lib.merge(obj - {field}, lib.parse(copy, |StripQuotes(ostr)|).value.value);
      ResolveMessageField(obj, field, wantAlt, lib) == Resolution(m.code, m.result, Some(copy))
  {
  }

  /** A string field whose text does not re-parse stays in place, but its
      unescaped text is still captured. */
  lemma ResolvePlainStringKept(obj: JsonObject, field: string, wantAlt: bool, lib: JsonLib, ostr: string)
    requires field in obj && obj[field].String?
    requires lib.render(obj[field]) == Some(ostr)
    requires IsNullPointer(lib.parse(lib.unescape(StripQuotes(ostr)), |StripQuotes(ostr)|).value)
    ensures ResolveMessageField(obj, field, wantAlt, lib) ==
      Resolution(Ok, obj, Some(lib.unescape(StripQuotes(ostr))))
  {
  }

  /** An object field is deleted and merged in; its plain rendering is
      captured first, and only when alt_message_field is configured. */
  lemma ResolveObjectMerged(obj: JsonObject, field: string, wantAlt: bool, lib: JsonLib)
    requires field in obj && obj[field].Object?
    ensures var m := lib.merge(obj - {field}, obj[field]);
      ResolveMessageField(obj, field, wantAlt, lib) ==
        Resolution(m.code, m.result, if wantAlt then lib.render(obj[field]) else None)
  {
  }

  /** jsonMerge as a shallow, right-biased union of object members. */
  ghost predicate MergesShallowly(lib: JsonLib)
  {
    forall dest, src :: lib.merge(dest, Object(src)) == Merged(Ok, dest + src)
  }

  /** With a shallow merge, resolving a field that holds (or encodes) an
      object replaces the field by that object's members: the field name
      survives only if the nested object itself supplies it, and every other
      member of the outer object survives unless the nested object
      overrides it. */
  lemma ResolvedFieldReplaced(obj: JsonObject, field: string, wantAlt: bool, lib: JsonLib, inner: JsonObject)
    requires MergesShallowly(lib)
    requires field in obj
    requires obj[field] == Object(inner) ||
      (obj[field].String? && lib.render(obj[field]).Some? &&
       lib.parse(lib.unescape(StripQuotes(lib.render(obj[field]).value)),
                 |StripQuotes(lib.render(obj[field]).value)|).value == Some(Object(inner)))
    ensures var r := ResolveMessageField(obj, field, wantAlt, lib);
      && r.code == Ok
      && r.obj == (obj - {field}) + inner
      && (field in r.obj <==> field in inner)
      && (forall k :: k in obj && k != field && k !in inner ==> k in r.obj && r.obj[k] == obj[k])
  {
  }

  /** The outcome of processJSON: its return code and the object it hands to
      msgAddJSON, if any. */
  datatype Processed = Processed(code: RetCode, attach: Option<JsonObject>)

  function ProcessOutcome(buf: string, messageField: Option<string>, altMessageField: Option<string>,
                          compact: bool, lib: JsonLib): (r: Processed)
    ensures !Accepts(lib.parse(buf, |buf|), |buf|) ==> r == Processed(NoCeeMsg, None)
    ensures r.attach.Some? ==> r.code == Ok
    ensures r.code == NoCeeMsg && Accepts(lib.parse(buf, |buf|), |buf|) ==> messageField.Some?
  {
    var p := lib.parse(buf, |buf|);
    if !Accepts(p, |buf|) then Processed(NoCeeMsg, None)
    else
      var obj := p.value.value.members;
      var res := if messageField.Some?
                 then ResolveMessageField(obj, messageField.value, altMessageField.Some?, lib)
                 else Resolution(Ok, obj, None);
      if res.code != Ok then Processed(res.code, None)
      else
        var kept := if !compact then Some(res.obj)
                    else (var c := lib.compact(res.obj); if c.rc < 0 || c.rc > 0 then None else Some(c.result));
        match kept
        case None => Processed(Ok, None)
        case Some(o) =>
          Processed(Ok, Some(if altMessageField.Some? && res.captured.Some?
                             then o[altMessageField.value := String(res.captured.value)]
                             else o))
  }

  /** Whole-buffer object, no message_field, no compaction: the parsed
      object itself is what gets attached. */
  lemma ParsedObjectAttached(buf: string, altMessageField: Option<string>, lib: JsonLib)
    requires Accepts(lib.parse(buf, |buf|), |buf|)
    ensures ProcessOutcome(buf, None, altMessageField, false, lib) ==
      Processed(Ok, Some(lib.parse(buf, |buf|).value.value.members))
  {
  }

  /** With compaction on, a compactor result that is negative (error) or
      positive (empty) discards the object: nothing is attached, and the
      code is still Ok. */
  lemma CompactionDiscards(buf: string, messageField: Option<string>, altMessageField: Option<string>, lib: JsonLib)
    requires Accepts(lib.parse(buf, |buf|), |buf|)
    requires var obj := lib.parse(buf, |buf|).value.value.members;
      var res := if messageField.Some?
                 then ResolveMessageField(obj, messageField.value, altMessageField.Some?, lib)
                 else Resolution(Ok, obj, None);
      res.code == Ok && lib.compact(res.obj).rc != 0
    ensures ProcessOutcome(buf, messageField, altMessageField, true, lib) == Processed(Ok, None)
  {
  }

  /** The alternate field is added after compaction: when the object
      survives and text was captured, the alternate field holds that text
      even if it is empty (which the compactor would have removed). */
  lemma AltFieldAfterCompaction(buf: string, field: string, alt: string, lib: JsonLib)
    requires Accepts(lib.parse(buf, |buf|), |buf|)
    requires var res := ResolveMessageField(lib.parse(buf, |buf|).value.value.members, field, true, lib);
      res.code == Ok && res.captured.Some? && lib.compact(res.obj).rc == 0
    ensures var res := ResolveMessageField(lib.parse(buf, |buf|).value.value.members, field, true, lib);
      var r := ProcessOutcome(buf, Some(field), Some(alt), true, lib);
      r == Processed(Ok, Some(lib.compact(res.obj).result[alt := String(res.captured.value)]))
  {
  }

  /** The alternate-field rule for every setting: a surviving object is the
      (compacted, when compact is on) result of the message-field step, with
      the alternate field added exactly when one is configured and text was
      captured. A missing field, a number, array, bool or null value, or an
      object whose rendering failed captures nothing, so no field is added. */
  lemma AltFieldRule(buf: string, messageField: Option<string>, alt: Option<string>, compact: bool, lib: JsonLib)
    requires Accepts(lib.parse(buf, |buf|), |buf|)
    ensures var obj := lib.parse(buf, |buf|).value.value.members;
      var res := if messageField.Some? then ResolveMessageField(obj, messageField.value, alt.Some?, lib)
                 else Resolution(Ok, obj, None);
      var base := if compact then lib.compact(res.obj).result else res.obj;
      var r := ProcessOutcome(buf, messageField, alt, compact, lib);
      r.attach.Some? ==>
        r.attach.value == (if alt.Some? && res.captured.Some? then base[alt.value := String(res.captured.value)] else base)
  {
  }

  /** Without alt_message_field nothing is ever added beyond what the message
      field step and the compactor produce. */
  lemma NoAltNoExtraField(buf: string, messageField: Option<string>, compact: bool, lib: JsonLib)
    requires Accepts(lib.parse(buf, |buf|), |buf|)
    ensures var obj := lib.parse(buf, |buf|).value.value.members;
      var res := if messageField.Some? then ResolveMessageField(obj, messageField.value, false, lib)
                 else Resolution(Ok, obj, None);
      var r := ProcessOutcome(buf, messageField, None, compact, lib);
      r.attach.Some? ==> r.attach.value == (if compact then lib.compact(res.obj).result else res.obj)
  {
  }
}
