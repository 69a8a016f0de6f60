/** The SET pipeline of the HTTP server: which entries of a request reach the
    handler, with what status each ends, and the status of the whole reply. */
module SetPipeline {
  import opened Common
  import opened CText
  import opened ValueCodec

  /** The data types of a request; `Unknown` stands for WDMP_NONE and above. */
  datatype DataType =
    | WdmpString | WdmpInt | WdmpUint | WdmpBoolean | WdmpDateTime | WdmpBase64
    | WdmpLong | WdmpUlong | WdmpFloat | WdmpDouble | WdmpByte | Unknown

  datatype Status =
    | Success
    | Failure
    | ValueIsNull
    | NotWritable
    | InvalidParameterName
    | InvalidParameterType
    | InvalidParameterValue
    | WildcardNotSupported
    | MethodNotSupported
    | InternalError

  datatype Source = NoSource | AllSources | WebpaSource | RfcSource | DefaultSource

  datatype Entry = Entry(name: string, value: Option<string>, dataType: DataType)

  datatype ModelParam = ModelParam(dataType: string, access: Option<string>, bsUpdate: Option<string>)

  /** What hostIf_SetMsgHandler is called with. */
  datatype Message = Message(name: string, paramType: ParamType, buffer: Buffer, requestor: Source, bsUpdate: Source)

  /** Return value and fault code of the handler. */
  datatype Answer = Answer(result: int, fault: int)

  const OK: int := 0
  const NO_FAULT: int := 0
  const INVALID_PARAMETER_VALUE: int := 9007

  /** The surroundings of a request: the wildcard test and the data model, which
      are not part of this model, the caller, and the width of long. */
  datatype Context = Context(
    isWildCard: string -> bool,
    lookup: string -> Option<ModelParam>,
    fromRfc: bool,
    longMax: int)

  /** The handler, arbitrary; its answer may depend on the calls it has had. */
  type Handler = (seq<Message>, Message) -> Answer

  // ----------------------------------------------------------------- one entry

  function WdmpTypeOf(name: string): DataType {
    if name == "string" then WdmpString
    else if name == "boolean" then WdmpBoolean
    else if name == "unsignedInt" then WdmpUint
    else if name == "int" then WdmpInt
    else if name == "unsignedLong" then WdmpUlong
    else if name == "dataTime" then WdmpDateTime
    else Unknown
  }

  function HostIfTypeOf(t: DataType): ParamType {
    match t
    case WdmpInt => IntegerType
    case WdmpUint => UnsignedIntType
    case WdmpUlong => UnsignedIntType
    case WdmpBoolean => BooleanType
    case WdmpDateTime => DateTimeType
    case _ => StringType
  }

  function BsUpdateOf(text: Option<string>): Source {
    match text
    case None => NoSource
    case Some(s) =>
      if EqualIgnoringCase(s, "allUpdate") then AllSources
      else if EqualIgnoringCase(s, "rfcUpdate") then RfcSource
      else if EqualIgnoringCase(s, "default") then DefaultSource
      else NoSource
  }

  const REBOOT_PARAM := "Device.X_CISCO_COM_DeviceControl.RebootDevice"
  const RELOAD_CACHE := "RFC_CONTROL_RELOADCACHE"

  predicate IsRfcName(name: string) {
    |name| >= 4 && name[..4] == "RFC_" && '.' !in name
  }

  function RfcStatus(name: string, value: string): Status {
    if name == RELOAD_CACHE && (EqualIgnoringCase(value, "true") || value == "1")
    then Success else MethodNotSupported
  }

  /** validateAgainstDataModel for a SET, with the update level it looks up. */
  function ModelCheck(c: Context, name: string, value: Option<string>, dataType: DataType): (Status, Source) {
    match c.lookup(name)
    case None => (InvalidParameterName, NoSource)
    case Some(p) =>
      var status :=
        if value == None || dataType == Unknown then ValueIsNull
        else if p.access.Some? && EqualIgnoringCase(p.access.value, "readOnly") then NotWritable
        else if WdmpTypeOf(p.dataType) != dataType then InvalidParameterType
        else Success;
      (status, BsUpdateOf(p.bsUpdate))
  }

  function StatusOfAnswer(a: Answer): Status {
    if a.result == OK then if a.fault == NO_FAULT then Success else Failure
    else if a.result == INVALID_PARAMETER_VALUE then InvalidParameterValue
    else InternalError
  }

  datatype Invocation = Invocation(status: Status, thrown: bool, calls: seq<Message>)

  /** invokeHostIfAPI for a SET. */
  method InvokeHostIfAPI(c: Context, handler: Handler, e: Entry, bsUpdate: Source, calls: seq<Message>)
    returns (r: Invocation)
    requires e.value.Some?
    ensures var m := MessageFor(c, e, bsUpdate);
            r == match Validate(m.paramType, e.value.value, c.longMax)
                 case Throws => Invocation(InternalError, true, calls)
                 case Refused => Invocation(InvalidParameterValue, false, calls)
                 case Accepted => Invocation(StatusOfAnswer(handler(calls, m)), false, calls + [m])
    ensures IsLongMax(c.longMax) && '\0' !in e.value.value && |r.calls| > |calls| ==>
              var m := r.calls[|calls|];
              && m.name == e.name && m.bsUpdate == bsUpdate
              && m.requestor == (if c.fromRfc then RfcSource else WebpaSource)
              && Conveys(m.paramType, m.buffer, e.value.value, c.longMax)
              && (m.paramType == IntegerType <==> e.dataType == WdmpInt)
              && (m.paramType == UnsignedIntType <==> e.dataType == WdmpUint || e.dataType == WdmpUlong)
              && (m.paramType == BooleanType <==> e.dataType == WdmpBoolean)
              && (m.paramType == DateTimeType <==> e.dataType == WdmpDateTime)
  {
    hide Validate, Encode, Conveys;
    var m := MessageFor(c, e, bsUpdate);
    if IsLongMax(c.longMax) && '\0' !in e.value.value && Validate(m.paramType, e.value.value, c.longMax) == Accepted {
      AcceptedIsConveyed(m.paramType, e.value.value, c.longMax);
    }
    var result, fault, calls' := -1, NO_FAULT, calls;
    match Validate(HostIfTypeOf(e.dataType), e.value.value, c.longMax) {
      case Throws => return Invocation(InternalError, true, calls);
      case Refused => result := INVALID_PARAMETER_VALUE;
      case Accepted =>
        var answer := handler(calls, m);
        result, fault, calls' := answer.result, answer.fault, calls + [m];
    }
    var status := Success;
    if result == OK {
      if fault != NO_FAULT {
        status := Failure;
      }
    } else if result == INVALID_PARAMETER_VALUE {
      status := InvalidParameterValue;
    } else {
      status := InternalError;
    }
    r := Invocation(status, false, calls');
  }

  function MessageFor(c: Context, e: Entry, bsUpdate: Source): Message
    requires e.value.Some?
  {
    var t := HostIfTypeOf(e.dataType);
    Message(e.name, t, Encode(t, e.value.value, c.longMax), if c.fromRfc then RfcSource else WebpaSource, bsUpdate)
  }

  // ------------------------------------------------------------- the reference

  /** Everything that is asked of an entry before its value is looked at. */
  predicate Admitted(c: Context, e: Entry) {
    && e.name != REBOOT_PARAM
    && !c.isWildCard(e.name)
    && e.value.Some?
    && !IsRfcName(e.name)
    && c.lookup(e.name).Some?
    && e.dataType != Unknown
    && !(c.lookup(e.name).value.access.Some?
         && EqualIgnoringCase(c.lookup(e.name).value.access.value, "readOnly"))
    && WdmpTypeOf(c.lookup(e.name).value.dataType) == e.dataType
  }

  function VerdictOn(c: Context, e: Entry): Verdict
    requires e.value.Some?
  {
    Validate(HostIfTypeOf(e.dataType), e.value.value, c.longMax)
  }

  /** The entries that reach the handler. */
  predicate Eligible(c: Context, e: Entry) {
    Admitted(c, e) && VerdictOn(c, e) == Accepted
  }

  /** The entries whose number does not fit: stoi or stoul throws. */
  predicate Bursts(c: Context, e: Entry) {
    Admitted(c, e) && VerdictOn(c, e) == Throws
  }

  function CallFor(c: Context, e: Entry): Message
    requires Admitted(c, e)
  {
    MessageFor(c, e, BsUpdateOf(c.lookup(e.name).value.bsUpdate))
  }

  /** The handler calls for the first n entries. */
  function Calls(c: Context, entries: seq<Entry>, n: nat): seq<Message>
    requires n <= |entries|
  {
    if n == 0 then []
    else
      var e := entries[n - 1];
      Calls(c, entries, n - 1) + if Eligible(c, e) then [CallFor(c, e)] else []
  }

  /** The status of an entry, after the given calls. */
  function StatusAfter(c: Context, handler: Handler, calls: seq<Message>, e: Entry): Status {
    if e.name == REBOOT_PARAM then Failure
    else if c.isWildCard(e.name) then WildcardNotSupported
    else if e.value == None then ValueIsNull
    else if IsRfcName(e.name) then RfcStatus(e.name, e.value.value)
    else if !Admitted(c, e) then ModelCheck(c, e.name, e.value, e.dataType).0
    else if VerdictOn(c, e) != Accepted then InvalidParameterValue
    else StatusOfAnswer(handler(calls, CallFor(c, e)))
  }

  function StatusFor(c: Context, handler: Handler, entries: seq<Entry>, k: nat): Status
    requires k < |entries|
  {
    StatusAfter(c, handler, Calls(c, entries, k), entries[k])
  }

  datatype Response =
    | NoResponse                                            // NULL: the client gets a 500 status
    | Statuses(statuses: seq<Status>, calls: seq<Message>)
    | Escaped(at: nat, calls: seq<Message>)                 // the exception is not caught here

  /** The body of the loop over the entries. */
  method HandleEntry(c: Context, handler: Handler, e: Entry, calls: seq<Message>) returns (r: Invocation)
    ensures r.thrown <==> Bursts(c, e)
    ensures !r.thrown ==> r.status == StatusAfter(c, handler, calls, e)
    ensures r.calls == calls + if Eligible(c, e) then [CallFor(c, e)] else []
  {
    hide Validate, Encode, EqualIgnoringCase, WdmpTypeOf, BsUpdateOf;
    if e.name == REBOOT_PARAM {
      return Invocation(Failure, false, calls);
    } else if c.isWildCard(e.name) {
      return Invocation(WildcardNotSupported, false, calls);
    } else if e.value == None {
      return Invocation(ValueIsNull, false, calls);
    }
    if IsRfcName(e.name) {
      return Invocation(RfcStatus(e.name, e.value.value), false, calls);
    }
    var (status, bsUpdate) := ModelCheck(c, e.name, e.value, e.dataType);
    if status != Success {
      return Invocation(status, false, calls);
    }
    r := InvokeHostIfAPI(c, handler, e, bsUpdate, calls);
  }

  /** The SET branch of handleRequest. */
  method HandleRequest(c: Context, handler: Handler, entries: seq<Entry>) returns (r: Response)
    ensures r.NoResponse? <==> entries == []
    ensures r.Statuses? ==>
              && |r.statuses| == |entries| && r.calls == Calls(c, entries, |entries|)
              && (forall k :: 0 <= k < |entries| ==> !Bursts(c, entries[k]))
              && (forall k :: 0 <= k < |entries| ==> r.statuses[k] == StatusFor(c, handler, entries, k))
    ensures r.Escaped? ==>
              && r.at < |entries| && r.calls == Calls(c, entries, r.at)
              && Bursts(c, entries[r.at]) && (forall k :: 0 <= k < r.at ==> !Bursts(c, entries[k]))
    ensures IsLongMax(c.longMax) && !r.NoResponse? ==>
              forall k :: 0 <= k < (if r.Statuses? then |entries| else r.at)
                          && Eligible(c, entries[k]) && '\0' !in entries[k].value.value ==>
                var rank := |Calls(c, entries, k)|;
                rank < |r.calls| && Carries(c, entries[k], r.calls[rank])
  {
    hide Eligible, Bursts, CallFor, StatusAfter, Carries;
    if entries == [] {
      return NoResponse;
    }
    var retStatus: seq<Status>, calls, paramIndex := [], [], 0;
    while paramIndex < |entries|
      invariant paramIndex == |retStatus| <= |entries|
      invariant calls == Calls(c, entries, paramIndex)
      invariant forall k :: 0 <= k < paramIndex ==> !Bursts(c, entries[k])
      invariant forall k :: 0 <= k < paramIndex ==> retStatus[k] == StatusFor(c, handler, entries, k)
    {
      var step := HandleEntry(c, handler, entries[paramIndex], calls);
      if step.thrown {
        EachCallCarries(c, entries, paramIndex);
        return Escaped(paramIndex, calls);
      }
      retStatus, calls := retStatus + [step.status], step.calls;
      paramIndex := paramIndex + 1;
    }
    EachCallCarries(c, entries, |entries|);
    r := Statuses(retStatus, calls);
  }

  lemma EachCallCarries(c: Context, entries: seq<Entry>, n: nat)
    requires n <= |entries|
    ensures IsLongMax(c.longMax) ==>
              forall k :: 0 <= k < n && Eligible(c, entries[k]) && '\0' !in entries[k].value.value ==>
                var rank := |Calls(c, entries, k)|;
                rank < |Calls(c, entries, n)| && Carries(c, entries[k], Calls(c, entries, n)[rank])
  {
    if IsLongMax(c.longMax) {
      forall k | 0 <= k < n && Eligible(c, entries[k]) && '\0' !in entries[k].value.value
        ensures var rank := |Calls(c, entries, k)|;
                rank < |Calls(c, entries, n)| && Carries(c, entries[k], Calls(c, entries, n)[rank])
      {
        CallCarriesEntry(c, entries, n, k);
      }
    }
  }

  // ------------------------------------------------------------- the SET theorems

  /** An entry outside the RFC names succeeds exactly when it reached the handler
      and the handler answered OK without a fault. */
  lemma SuccessIff(c: Context, handler: Handler, entries: seq<Entry>, k: nat)
    requires k < |entries| && !IsRfcName(entries[k].name)
    ensures var e := entries[k];
            StatusFor(c, handler, entries, k) == Success
            <==> && Eligible(c, e)
                 && handler(Calls(c, entries, k), CallFor(c, e)) == Answer(OK, NO_FAULT)
  {
    hide Validate, Encode, EqualIgnoringCase, WdmpTypeOf, BsUpdateOf;
    var e := entries[k];
    assert Admitted(c, e) <==> e.name != REBOOT_PARAM && !c.isWildCard(e.name) && e.value.Some?
                               && ModelCheck(c, e.name, e.value, e.dataType).0 == Success;
  }

  /** RFC variables never reach the handler; the one that succeeds reloads the cache. */
  lemma RfcSuccessIff(c: Context, handler: Handler, entries: seq<Entry>, k: nat)
    requires k < |entries| && IsRfcName(entries[k].name)
    ensures var e := entries[k];
            !Eligible(c, e)
            && (StatusFor(c, handler, entries, k) == Success
                <==> && !c.isWildCard(e.name) && e.value.Some? && e.name == RELOAD_CACHE
                     && (EqualIgnoringCase(e.value.value, "true") || e.value.value == "1"))
  {
    hide Validate, Encode, EqualIgnoringCase;
    var e := entries[k];
    assert REBOOT_PARAM[6] == '.';
    assert e.name != REBOOT_PARAM;
  }

  lemma {:induction false} CallsGrow(c: Context, entries: seq<Entry>, m: nat, n: nat)
    requires m <= n <= |entries|
    ensures Calls(c, entries, m) <= Calls(c, entries, n)
    decreases n
  {
    if m < n {
      CallsGrow(c, entries, m, n - 1);
    }
  }

  /** Every eligible entry is called once, at the place its rank among the eligible
      entries gives it. */
  lemma EligibleIsCalled(c: Context, entries: seq<Entry>, k: nat)
    requires k < |entries| && Eligible(c, entries[k])
    ensures var rank := |Calls(c, entries, k)|;
            && rank < |Calls(c, entries, |entries|)|
            && Calls(c, entries, |entries|)[rank] == CallFor(c, entries[k])
            && |Calls(c, entries, k + 1)| == rank + 1
  {
    CallsGrow(c, entries, k + 1, |entries|);
  }

  /** And every call belongs to exactly one eligible entry. */
  lemma {:induction false} CallIsEligible(c: Context, entries: seq<Entry>, n: nat, i: nat) returns (k: nat)
    requires n <= |entries| && i < |Calls(c, entries, n)|
    ensures k < n && Eligible(c, entries[k]) && |Calls(c, entries, k)| == i
    ensures Calls(c, entries, n)[i] == CallFor(c, entries[k])
    ensures forall q: nat :: q < n && Eligible(c, entries[q]) && |Calls(c, entries, q)| == i ==> q == k
  {
    hide Eligible, CallFor;
    if i < |Calls(c, entries, n - 1)| {
      k := CallIsEligible(c, entries, n - 1, i);
    } else {
      k := n - 1;
    }
    forall q: nat | q < n && Eligible(c, entries[q]) && |Calls(c, entries, q)| == i ensures q == k {
      if q < k {
        RankGrows(c, entries, q, k);
      } else if k < q {
        RankGrows(c, entries, k, q);
      }
    }
  }

  lemma RankGrows(c: Context, entries: seq<Entry>, p: nat, q: nat)
    requires p < q <= |entries| && Eligible(c, entries[p])
    ensures |Calls(c, entries, p)| < |Calls(c, entries, q)|
  {
    hide Eligible, CallFor;
    CallsGrow(c, entries, p + 1, q);
  }

  /** The value type that a spelling of the data model stands for. */
  predicate IsTypeOf(t: ParamType, spelling: string) {
    match spelling
    case "string" => t == StringType
    case "boolean" => t == BooleanType
    case "int" => t == IntegerType
    case "unsignedInt" => t == UnsignedIntType
    case "unsignedLong" => t == UnsignedIntType
    case "dataTime" => t == DateTimeType
    case _ => false
  }

  /** The update level that a text of the data model names, in any case. */
  predicate IsSourceOf(s: Source, text: Option<string>) {
    && (s == AllSources <==> text.Some? && EqualIgnoringCase(text.value, "allUpdate"))
    && (s == RfcSource <==> text.Some? && EqualIgnoringCase(text.value, "rfcUpdate"))
    && (s == DefaultSource <==> text.Some? && EqualIgnoringCase(text.value, "default"))
    && s != WebpaSource
  }

  /** The buffer holds the value and decodes to it. */
  ghost predicate Conveys(t: ParamType, b: Buffer, v: string, longMax: int) {
    match t
    case BooleanType =>
      var truth := v == "1" || EqualIgnoringCase(v, "true");
      HasTruth(b, truth) && Decode(t, b) == if truth then "true" else "false"
    case IntegerType =>
      exists n :: IsNumeral(v, n) && HasWord(b, n) && IsNumeral(Decode(t, b), n)
    case UnsignedIntType =>
      exists n :: IsNumeral(v, n) && HasWord(b, if n <= longMax then n else longMax)
                  && (n <= 0x7FFF_FFFF ==> IsNumeral(Decode(t, b), n))
    case _ =>
      HasText(b, v, 4095) && (|v| < 4096 ==> Decode(t, b) == v)
  }

  /** What a handler call for an entry has to look like. */
  ghost predicate Carries(c: Context, e: Entry, m: Message)
    requires e.value.Some? && c.lookup(e.name).Some?
  {
    && m.name == e.name
    && IsTypeOf(m.paramType, c.lookup(e.name).value.dataType)
    && Conveys(m.paramType, m.buffer, e.value.value, c.longMax)
    && m.requestor == (if c.fromRfc then RfcSource else WebpaSource)
    && IsSourceOf(m.bsUpdate, c.lookup(e.name).value.bsUpdate)
  }

  lemma TypeBySpelling(spelling: string)
    requires WdmpTypeOf(spelling) != Unknown
    ensures IsTypeOf(HostIfTypeOf(WdmpTypeOf(spelling)), spelling)
  {
  }

  lemma SourceByText(text: Option<string>)
    ensures IsSourceOf(BsUpdateOf(text), text)
  {
    if text.Some? {
      assert |"allUpdate"| == 9 && |"rfcUpdate"| == 9 && |"default"| == 7;
      assert Lower("allUpdate")[0] == 'a' && Lower("rfcUpdate")[0] == 'r';
    }
  }

  lemma AcceptedIsConveyed(t: ParamType, v: string, longMax: int)
    requires IsLongMax(longMax) && '\0' !in v && Validate(t, v, longMax) == Accepted
    ensures Conveys(t, Encode(t, v, longMax), v, longMax)
  {
    hide ScanInteger, HasWord, HasText, HasTruth, IsNumeral, Encode, Decode, EqualIgnoringCase, Validate;
    if IsNumber(t) {
      NumberIsConveyed(t, v, longMax);
    } else if t == BooleanType {
      StoredBytes(t, v, longMax, 0);
      BooleanPreserved(v, longMax);
    } else {
      StoredBytes(t, v, longMax, 0);
      if |v| < 4096 {
        StringSurvives(t, v, longMax);
      }
    }
  }

  lemma NumberIsConveyed(t: ParamType, v: string, longMax: int)
    requires IsLongMax(longMax) && IsNumber(t) && Validate(t, v, longMax) == Accepted
    ensures Conveys(t, Encode(t, v, longMax), v, longMax)
  {
    hide ScanInteger, HasWord, IsNumeral, Encode, Decode, Validate, MayBegin;
    if !MayBegin(t, v) {
      OtherVerdicts(t, v, longMax);
    }
    var k, n := NumeralInFront(t, v);
    NumberVerdict(t, v, longMax, k, n);
    assert v[..k] == v;
    StoredBytes(t, v, longMax, n);
    ReadBack(Encode(t, v, longMax), n);
    if t == UnsignedIntType {
      NotNegative(t, v, n);
    }
  }

  lemma NotNegative(t: ParamType, v: string, n: int)
    requires t == UnsignedIntType && MayBegin(t, v) && IsNumeral(v, n)
    ensures n >= 0
  {
  }

  lemma StringSurvives(t: ParamType, v: string, longMax: int)
    requires (t == StringType || t == DateTimeType) && '\0' !in v && |v| < 4096
    ensures Decode(t, Encode(t, v, longMax)) == v
  {
    TextSurvives(v);
  }

  /** The content of the calls: the call at the rank of an eligible entry carries
      that entry's name and value, in the type of the data model, with the source of
      the request and the update level of the data model. */
  lemma CallCarriesEntry(c: Context, entries: seq<Entry>, n: nat, k: nat)
    requires IsLongMax(c.longMax) && k < n <= |entries| && Eligible(c, entries[k])
    requires '\0' !in entries[k].value.value
    ensures var calls, rank := Calls(c, entries, n), |Calls(c, entries, k)|;
            rank < |calls| && Carries(c, entries[k], calls[rank])
  {
    hide Validate, Encode, EqualIgnoringCase, BsUpdateOf, Conveys, IsTypeOf, IsSourceOf, WdmpTypeOf;
    var e := entries[k];
    CallsGrow(c, entries, k + 1, n);
    TypeBySpelling(c.lookup(e.name).value.dataType);
    SourceByText(c.lookup(e.name).value.bsUpdate);
    AcceptedIsConveyed(HostIfTypeOf(e.dataType), e.value.value, c.longMax);
  }

  /** Which entries end the request with an exception: those that would be called,
      but whose value begins with a number that int, or unsigned long, cannot hold. */
  lemma BurstsIff(c: Context, e: Entry, k: nat, n: int)
    requires Admitted(c, e)
    ensures var t, v := HostIfTypeOf(e.dataType), e.value.value;
            && (Leads(t, v, k, n) && IsNumber(t) ==>
                  (Bursts(c, e) <==> if t == IntegerType then !(-0x8000_0000 <= n <= 0x7FFF_FFFF)
                                     else n > 2 * c.longMax + 1))
            && (!IsNumber(t) || !MayBegin(t, v) ==> !Bursts(c, e))
  {
    hide Validate, Leads, MayBegin;
    var t, v := HostIfTypeOf(e.dataType), e.value.value;
    if Leads(t, v, k, n) && IsNumber(t) {
      NumberVerdict(t, v, c.longMax, k, n);
    }
    if !IsNumber(t) || !MayBegin(t, v) {
      OtherVerdicts(t, v, c.longMax);
    }
  }

  /** The type a request has to name for a spelling of the data model. */
  predicate IsRequestType(d: DataType, spelling: string) {
    match d
    case WdmpString => spelling == "string"
    case WdmpBoolean => spelling == "boolean"
    case WdmpInt => spelling == "int"
    case WdmpUint => spelling == "unsignedInt"
    case WdmpUlong => spelling == "unsignedLong"
    case WdmpDateTime => spelling == "dataTime"
    case _ => false
  }

  lemma RequestTypeIff(d: DataType, spelling: string)
    requires d != Unknown
    ensures WdmpTypeOf(spelling) == d <==> IsRequestType(d, spelling)
  {
  }

  /** What a client can conclude from each status of an entry that raised no
      exception; success is SuccessIff and RfcSuccessIff. */
  lemma StatusMeans(c: Context, handler: Handler, entries: seq<Entry>, k: nat)
    requires k < |entries| && !Bursts(c, entries[k])
    ensures var e, status := entries[k], StatusFor(c, handler, entries, k);
            var reboot := e.name == "Device.X_CISCO_COM_DeviceControl.RebootDevice";
            var rfc := |e.name| >= 4 && e.name[..4] == "RFC_" && '.' !in e.name;
            var named := !reboot && !c.isWildCard(e.name) && e.value.Some?;
            var known := named && !rfc && c.lookup(e.name).Some?;
            var typed := known && e.dataType != Unknown;
            var p := if known then c.lookup(e.name).value else ModelParam("", None, None);
            var readOnly := p.access.Some? && EqualIgnoringCase(p.access.value, "readOnly");
            var admitted := typed && !readOnly && IsRequestType(e.dataType, p.dataType);
            var answer := if Eligible(c, e) then handler(Calls(c, entries, k), CallFor(c, e)) else Answer(-1, 0);
            && (status == Failure <==> reboot || (Eligible(c, e) && answer.result == 0 && answer.fault != 0))
            && (status == WildcardNotSupported <==> !reboot && c.isWildCard(e.name))
            && (status == ValueIsNull <==>
                  (!reboot && !c.isWildCard(e.name) && e.value == None) || (known && e.dataType == Unknown))
            && (status == MethodNotSupported <==>
                  named && rfc && !(e.name == "RFC_CONTROL_RELOADCACHE"
                                    && (EqualIgnoringCase(e.value.value, "true") || e.value.value == "1")))
            && (status == InvalidParameterName <==> named && !rfc && c.lookup(e.name) == None)
            && (status == NotWritable <==> typed && readOnly)
            && (status == InvalidParameterType <==>
                  typed && !readOnly && !IsRequestType(e.dataType, p.dataType))
            && (status == InvalidParameterValue <==> admitted && (!Eligible(c, e) || answer.result == 9007))
            && (status == InternalError <==> Eligible(c, e) && answer.result != 0 && answer.result != 9007)
  {
    hide Validate, Encode, EqualIgnoringCase, WdmpTypeOf, BsUpdateOf, IsRequestType, MessageFor;
    var e := entries[k];
    if c.lookup(e.name).Some? && e.dataType != Unknown {
      RequestTypeIff(e.dataType, c.lookup(e.name).value.dataType);
    }
  }

  /** The spellings of a type that the code knows. */
  const KNOWN_TYPES := {"string", "boolean", "unsignedInt", "int", "unsignedLong", "dataTime"}

  lemma KnownTypeIff(name: string)
    ensures WdmpTypeOf(name) == Unknown <==> name !in KNOWN_TYPES
  {
  }

  /** Some value passes for every known type: "0". */
  lemma ZeroIsAccepted(t: ParamType, longMax: int)
    requires IsLongMax(longMax)
    ensures Validate(t, "0", longMax) == Accepted
  {
    assert "0" == IntText(0);
    PrintedIsAccepted(0, longMax);
  }

  /** Which names a request can set at all: exactly those outside the reboot name,
      the wildcards and the RFC names that the data model lists as writable with a
      type in one of the six spellings. The data model's own "dateTime" is not among
      them: the code compares with "dataTime". */
  lemma SettableIff(c: Context, name: string)
    requires IsLongMax(c.longMax)
    ensures (exists e: Entry :: e.name == name && Eligible(c, e))
            <==> && name != REBOOT_PARAM && !c.isWildCard(name) && !IsRfcName(name)
                 && c.lookup(name).Some?
                 && !(c.lookup(name).value.access.Some?
                      && EqualIgnoringCase(c.lookup(name).value.access.value, "readOnly"))
                 && c.lookup(name).value.dataType in KNOWN_TYPES
  {
    hide Validate, WdmpTypeOf, EqualIgnoringCase, IsRfcName;
    if c.lookup(name).Some? {
      var dataType := c.lookup(name).value.dataType;
      var e := Entry(name, Some("0"), WdmpTypeOf(dataType));
      KnownTypeIff(dataType);
      ZeroIsAccepted(HostIfTypeOf(e.dataType), c.longMax);
      assert Admitted(c, e) ==> Eligible(c, e) && e.name == name;
    }
  }

  /** So no date of the data model can ever be set. */
  lemma DateTimeIsNeverSet(c: Context, e: Entry)
    requires c.lookup(e.name).Some? && c.lookup(e.name).value.dataType == "dateTime"
    ensures !Eligible(c, e)
  {
    hide Validate, WdmpTypeOf, EqualIgnoringCase, IsRfcName;
    assert "dateTime"[3] == 'e' && "dataTime"[3] == 'a';
    assert "dateTime" !in KNOWN_TYPES;
    KnownTypeIff("dateTime");
  }

  // -------------------------------------------------------------- the reply status

  /** The loop of HTTPRequestHandler that replaces the generic status code. The
      numbers of the statuses belong to wdmp-c; only that success is 0 matters. */
  method OverallStatus(retStatus: seq<int>) returns (newStCode: int)
    ensures newStCode == 0 <==> forall k :: 0 <= k < |retStatus| ==> retStatus[k] == 0
    ensures newStCode != 0 ==>
              exists k :: 0 <= k < |retStatus| && retStatus[k] == newStCode
                          && forall j :: 0 <= j < k ==> retStatus[j] == 0
  {
    newStCode := 0;
    for paramIndex := 0 to |retStatus|
      invariant newStCode == 0
      invariant forall k :: 0 <= k < paramIndex ==> retStatus[k] == 0
    {
      if retStatus[paramIndex] != 0 || paramIndex == |retStatus| - 1 {
        newStCode := retStatus[paramIndex];
        break;
      }
    }
  }

  /** The whole POST: the status code, or none when there is no response. */
  method Post(c: Context, handler: Handler, entries: seq<Entry>, number: Status -> int)
    returns (r: Response, code: Option<int>)
    requires forall s :: number(s) == 0 <==> s == Success
    ensures code.Some? <==> r.Statuses?
    ensures code.Some? ==>
              (code.value == 0
               <==> forall k :: 0 <= k < |entries| ==> StatusFor(c, handler, entries, k) == Success)
    ensures code.Some? && code.value != 0 ==>
              exists k :: 0 <= k < |entries| && code.value == number(StatusFor(c, handler, entries, k))
                && forall j :: 0 <= j < k ==> StatusFor(c, handler, entries, j) == Success
  {
    hide StatusFor;
    code := None;
    r := HandleRequest(c, handler, entries);
    if r.Statuses? {
      var numbers := seq(|r.statuses|, i requires 0 <= i < |r.statuses| => number(r.statuses[i]));
      var newStCode := OverallStatus(numbers);
      code := Some(newStCode);
      assert forall k :: 0 <= k < |entries| ==> numbers[k] == number(StatusFor(c, handler, entries, k));
    }
  }
}
