/** The action instance's settings and how newActInst normalises them:
    defaults, the container name, the cookie length and which text the
    action reads. */
module InstanceConfig {
  import opened JsonValues
  import opened CookieGate

  /** CONST_CEE_COOKIE, the default cookie (defined in rsyslog.h). */
  const CeeCookie: CString := "@cee:"
  /** CONST_LEN_CEE_COOKIE. */
  const CeeCookieLen: int := 5

  /** The sigils of message-scope, local and global variables. */
  predicate IsContainerSigil(c: char)
  {
    c == '!' || c == '.' || c == '/'
  }

  predicate ValidContainer(name: string)
  {
    name != [] && IsContainerSigil(name[0])
  }

  /** The "container" parameter: one leading '$' is removed (older
      configurations named the container without it) and what is left must
      start with a sigil; None stands for RS_RET_INVALID_VAR. */
  function NormalizeContainer(name: string): (r: Option<string>)
    ensures r.Some? <==> ValidContainer(name) || (name != [] && name[0] == '$' && ValidContainer(name[1..]))
    ensures r.Some? ==> ValidContainer(r.value)
    ensures r.Some? ==> r.value == name || "$" + r.value == name
  {
    var stripped := if name != [] && name[0] == '$' then name[1..] else name;
    if |stripped| == 0 || !IsContainerSigil(stripped[0]) then None else Some(stripped)
  }

  /** Both spellings of a container are accepted and name the same one. */
  lemma ContainerBothSpellings(name: string)
    requires ValidContainer(name)
    ensures NormalizeContainer(name) == Some(name)
    ensures NormalizeContainer("$" + name) == Some(name)
  {
  }

  /** Only one '$' is removed: a doubled one is rejected. */
  lemma ContainerOneDollarOnly(rest: string)
    ensures NormalizeContainer("$$" + rest) == None
  {
  }

  /** A normalised container is normalised again to itself. */
  lemma ContainerNormalizeIdempotent(name: string)
    requires NormalizeContainer(name).Some?
    ensures NormalizeContainer(NormalizeContainer(name).value) == NormalizeContainer(name)
  {
  }

  /** The action parameters, one field per entry of the parameter table in
      table order; None means the parameter was not given. */
  datatype ActionParams = ActionParams(
    cookie: Option<CString>,
    container: Option<string>,
    useRawMsg: Option<bool>,
    compact: Option<bool>,
    messageField: Option<string>,
    altMessageField: Option<string>,
    variable: Option<string>)

  /** instanceData. varDescr is the name of the variable the action reads
      when it does not read the raw message. */
  class Instance {
    var useRawMsg: bool
    var cookie: CString
    var container: string
    var lenCookie: int
    var compact: bool
    var messageField: Option<string>
    var altMessageField: Option<string>
    var varDescr: Option<string>

    ghost predicate Valid()
      reads this
    {
      lenCookie == |cookie| && ValidContainer(container)
    }

    /** createInstance: container "!", the CEE cookie and its length, no
        message fields; the flags start cleared. */
    constructor ()
      ensures Valid()
      ensures container == "!" && cookie == CeeCookie && lenCookie == CeeCookieLen
      ensures messageField == None && altMessageField == None
      ensures !useRawMsg && !compact && varDescr == None
    {
      container := "!";
      cookie := CeeCookie;
      lenCookie := CeeCookieLen;
      messageField := None;
      altMessageField := None;
      useRawMsg := false;
      compact := false;
      varDescr := None;
    }

    method SetInstParamDefaults()
      modifies this
      ensures !useRawMsg && !compact && messageField == None && altMessageField == None && varDescr == None
      ensures cookie == old(cookie) && container == old(container) && lenCookie == old(lenCookie)
    {
      useRawMsg := false;
      compact := false;
      messageField := None;
      altMessageField := None;
      varDescr := None;
    }

    /** The parameter loop of newActInst over every entry but "variable", in
        table order: a parameter that was given overwrites its field, one that
        was not leaves it as it is. An invalid container stops the loop. */
    method ApplyTable(p: ActionParams) returns (ok: bool)
      modifies this
      ensures ok <==> p.container.None? || NormalizeContainer(p.container.value).Some?
      ensures ok ==>
        && cookie == (if p.cookie.Some? then p.cookie.value else old(cookie))
        && container == (if p.container.Some? then NormalizeContainer(p.container.value).value else old(container))
        && useRawMsg == (if p.useRawMsg.Some? then p.useRawMsg.value else old(useRawMsg))
        && compact == (if p.compact.Some? then p.compact.value else old(compact))
        && messageField == (if p.messageField.Some? then p.messageField else old(messageField))
        && altMessageField == (if p.altMessageField.Some? then p.altMessageField else old(altMessageField))
        && varDescr == old(varDescr) && lenCookie == old(lenCookie)
    {
      cookie := if p.cookie.Some? then p.cookie.value else cookie;
      if p.container.Some? {
        var normalized := NormalizeContainer(p.container.value);
        if normalized.None? {
          return false;
        }
        container := normalized.value;
      }
      useRawMsg := if p.useRawMsg.Some? then p.useRawMsg.value else useRawMsg;
      compact := if p.compact.Some? then p.compact.value else compact;
      messageField := if p.messageField.Some? then p.messageField else messageField;
      altMessageField := if p.altMessageField.Some? then p.altMessageField else altMessageField;
      ok := true;
    }
  }

  /** The settings an instance ends up with when newActInst succeeds. */
  ghost predicate ConfiguredFrom(inst: Instance, p: ActionParams)
    reads inst
  {
    var useRaw := p.useRawMsg == Some(true);
    && inst.cookie == (if p.cookie.Some? then p.cookie.value else CeeCookie)
    && inst.lenCookie == |inst.cookie|
    && (if p.container.Some? then NormalizeContainer(p.container.value) == Some(inst.container)
        else inst.container == "!")
    && inst.useRawMsg == useRaw
    && inst.compact == (p.compact == Some(true))
    && inst.messageField == p.messageField
    && inst.altMessageField == p.altMessageField
    && inst.varDescr == (if p.variable.Some? && !useRaw then p.variable else None)
  }

  /** newActInst. pvals is None when the parameter list could not be read;
      fillPropDescr stands for msgPropDescrFill on the variable's name. */
  method NewActInst(pvals: Option<ActionParams>, fillPropDescr: string -> RetCode)
    returns (ret: RetCode, inst: Instance?)
    ensures ret == Ok <==> inst != null
    ensures pvals.None? ==> ret == MissingCnfParams
    ensures pvals.Some? && pvals.value.container.Some? && NormalizeContainer(pvals.value.container.value).None?
      ==> ret == InvalidVar
    ensures pvals.Some? && (pvals.value.container.None? || NormalizeContainer(pvals.value.container.value).Some?)
      ==> var p := pvals.value;
          if p.variable.Some? && p.useRawMsg != Some(true) && fillPropDescr(p.variable.value) != Ok
          then ret == fillPropDescr(p.variable.value)
          else ret == Ok
    ensures ret == Ok ==> fresh(inst) && inst.Valid() && pvals.Some? && ConfiguredFrom(inst, pvals.value)
  {
    if pvals.None? {
      return MissingCnfParams, null;
    }
    var p := pvals.value;
    var pData := new Instance();
    pData.SetInstParamDefaults();
    var tableOk := pData.ApplyTable(p);
    if !tableOk {
      return InvalidVar, null;
    }
    var varName := p.variable;
    // a variable is ignored when the raw message is requested
    if varName.Some? && !pData.useRawMsg {
      var rc := fillPropDescr(varName.value);
      if rc != Ok {
        return rc, null;
      }
      pData.varDescr := varName;
    }
    pData.lenCookie := |pData.cookie|;
    ret, inst := Ok, pData;
  }

  /** Which text the action reads: the raw message first, then the
      configured variable, then the message part. */
  function SourceText(useRawMsg: bool, varDescr: Option<string>,
                      rawMsg: CString, msg: CString, property: string -> CString): CString
  {
    if useRawMsg then rawMsg
    else if varDescr.Some? then property(varDescr.value)
    else msg
  }
}
