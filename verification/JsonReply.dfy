/** The reply to a JSON request: one lookup per collected name, written through
    the event generator, and what the request machine reads back from it. */
module JsonReply {
  import opened Common
  import opened CText
  import opened JsonRequest

  /** A looked-up value by parameter type. The numeric types hold the bits the
      handler left in the value buffer. */
  datatype TypedValue =
    | StringValue(s: string)
    | IntegerValue(raw: nat)
    | UnsignedIntValue(raw: nat)
    | UnsignedLongValue(raw: nat)
    | BooleanValue(b: bool)
    | DateTimeValue

  /** Return code, and the name and value left in the message. */
  datatype GetReply = GetReply(code: int, paramName: string, value: TypedValue)

  const OK: int := 0

  /** get_int and get_ulong both return an int. */
  function ValueJson(v: TypedValue): Json {
    match v
    case StringValue(s) => Str(UpToNul(s))
    case IntegerValue(raw) => Int(AsInt32(raw))
    case UnsignedIntValue(raw) => Int(AsInt32(raw))
    case UnsignedLongValue(raw) => Int(AsInt32(raw))
    case BooleanValue(b) => Bool(b)
    case DateTimeValue => Str("Unknown")
  }

  function ReplyItem(g: GetReply): Json {
    Obj([Member("name", Str(UpToNul(g.paramName))), Member("value", ValueJson(g.value))])
  }

  function Entry(g: GetReply): seq<Json> {
    if g.code == OK then [ReplyItem(g)] else []
  }

  /** One entry per successful lookup, in request order. */
  function ReplyItems(replies: seq<GetReply>): seq<Json> {
    if replies == [] then [] else Entry(replies[0]) + ReplyItems(replies[1..])
  }

  /** The document the reply denotes. */
  function ReplyTree(replies: seq<GetReply>): Json {
    Request([], ReplyItems(replies), [])
  }

  // ------------------------------------------------- the reply, event by event

  /** The event that stands for a value. */
  ghost predicate Shows(e: Event, v: TypedValue) {
    match v
    case StringValue(s) => e.StringEvent? && IsTextOf(e.s, s)
    case BooleanValue(b) => e == BoolEvent(b)
    case DateTimeValue => e == StringEvent("Unknown")
    case _ => e.IntEvent? && -0x8000_0000 <= e.n <= 0x7FFF_FFFF && (e.n - v.raw) % 0x1_0000_0000 == 0
  }

  /** The six events of a lookup that succeeded. */
  ghost predicate IsItem(es: seq<Event>, g: GetReply) {
    && |es| == 6
    && es[0] == StartMap && es[5] == EndMap
    && es[1] == MapKey("name") && es[2].StringEvent? && IsTextOf(es[2].s, g.paramName)
    && es[3] == MapKey("value") && Shows(es[4], g.value)
  }

  /** The lookups that returned OK. */
  function Succeeded(replies: seq<GetReply>): seq<GetReply> {
    if replies == [] then []
    else
      var g := replies[|replies| - 1];
      Succeeded(replies[..|replies| - 1]) + if g.code == 0 then [g] else []
  }

  ghost predicate AreItems(es: seq<Event>, got: seq<GetReply>) {
    && |es| == 6 * |got|
    && forall i :: 0 <= i < |got| ==> IsItem(es[6 * i..6 * i + 6], got[i])
  }

  /** A whole reply: its frame, and one item for each successful lookup in order. */
  ghost predicate IsReply(es: seq<Event>, got: seq<GetReply>) {
    && |es| == 5 + 6 * |got|
    && es[0] == StartMap && es[1] == MapKey("paramList") && es[2] == StartArray
    && AreItems(es[3..|es| - 2], got)
    && es[|es| - 2] == EndArray && es[|es| - 1] == EndMap
  }

  lemma TextIsUpToNul(s: string)
    ensures IsTextOf(UpToNul(s), s)
  {
  }

  lemma ItemTextIsItem(g: GetReply)
    ensures IsItem(ItemText(g), g)
  {
    assert Events(ValueJson(g.value)) == [ItemText(g)[4]];
  }

  lemma AppendItem(es: seq<Event>, got: seq<GetReply>, item: seq<Event>, g: GetReply)
    requires AreItems(es, got) && IsItem(item, g)
    ensures AreItems(es + item, got + [g])
  {
    hide IsItem;
    var all, n := es + item, |got|;
    assert |item| == 6 by {
      ItemLength(item, g);
    }
    forall i | 0 <= i < n + 1 ensures IsItem(all[6 * i..6 * i + 6], (got + [g])[i]) {
      if i < n {
        assert all[6 * i..6 * i + 6] == es[6 * i..6 * i + 6];
      } else {
        assert all[6 * i..6 * i + 6] == item;
      }
    }
  }

  lemma ItemLength(item: seq<Event>, g: GetReply)
    requires IsItem(item, g)
    ensures |item| == 6
  {
  }

  lemma {:induction false} LoopTextAreItems(replies: seq<GetReply>)
    ensures AreItems(LoopText(replies), Succeeded(replies))
  {
    hide IsItem;
    if replies != [] {
      var front, g := replies[..|replies| - 1], replies[|replies| - 1];
      LoopTextAreItems(front);
      if g.code == 0 {
        ItemTextIsItem(g);
        AppendItem(LoopText(front), Succeeded(front), ItemText(g), g);
      } else {
        assert LoopText(front) + [] == LoopText(front);
      }
    }
  }

  /** Which events the reply consists of, read by position. */
  lemma ReplyByPosition(replies: seq<GetReply>)
    ensures IsReply(Events(ReplyTree(replies)), Succeeded(replies))
  {
    hide Events, ReplyTree, LoopText, IsItem;
    ReplyEvents(replies);
    LoopTextAreItems(replies);
    var text, es := LoopText(replies), Events(ReplyTree(replies));
    assert es[3..|es| - 2] == text;
  }

  // ------------------------------------------------------------ the generator

  /** The open maps and arrays, innermost first; a map knows whether its next
      string is a key. */
  datatype Frames = Outside | ExpectKey(up: Frames) | ExpectValue(up: Frames) | InArray(up: Frames) {
    function AfterValue(): Frames {
      if ExpectValue? then ExpectKey(up) else this
    }

    function Close(): Frames {
      if Outside? then this else up.AfterValue()
    }
  }

  datatype GenState = GenState(out: seq<Event>, frames: Frames) {
    function Atom(e: Event): GenState {
      GenState(out + [e], frames.AfterValue())
    }

    function Text(s: string): GenState {
      if frames.ExpectKey? then GenState(out + [MapKey(s)], ExpectValue(frames.up))
      else Atom(StringEvent(s))
    }
  }

  /** The JSON generator as the reply loop drives it: a string is a key or a
      value depending on where it stands. */
  class Generator {
    var state: GenState

    constructor ()
      ensures state == GenState([], Outside)
    {
      state := GenState([], Outside);
    }

    method MapOpen()
      modifies this
      ensures state == GenState(old(state).out + [StartMap], ExpectKey(old(state).frames))
    {
      state := GenState(state.out + [StartMap], ExpectKey(state.frames));
    }

    method MapClose()
      modifies this
      ensures state == GenState(old(state).out + [EndMap], old(state).frames.Close())
    {
      state := GenState(state.out + [EndMap], state.frames.Close());
    }

    method ArrayOpen()
      modifies this
      ensures state == GenState(old(state).out + [StartArray], InArray(old(state).frames))
    {
      state := GenState(state.out + [StartArray], InArray(state.frames));
    }

    method ArrayClose()
      modifies this
      ensures state == GenState(old(state).out + [EndArray], old(state).frames.Close())
    {
      state := GenState(state.out + [EndArray], state.frames.Close());
    }

    method Text(s: string)
      modifies this
      ensures state == old(state).Text(s)
    {
      state := state.Text(s);
    }

    method Integer(n: int)
      modifies this
      ensures state == old(state).Atom(IntEvent(n))
    {
      state := state.Atom(IntEvent(n));
    }

    method Boolean(b: bool)
      modifies this
      ensures state == old(state).Atom(BoolEvent(b))
    {
      state := state.Atom(BoolEvent(b));
    }
  }

  const IN_LIST: Frames := InArray(ExpectValue(Outside))

  method WriteValue(json: Generator, v: TypedValue)
    requires json.state.frames.ExpectValue?
    modifies json
    ensures json.state.frames == ExpectKey(old(json.state.frames.up))
    ensures json.state.out == old(json.state.out) + Events(ValueJson(v))
  {
    match v {
      case StringValue(s) => json.Text(UpToNul(s));
      case IntegerValue(raw) => json.Integer(AsInt32(raw));
      case UnsignedIntValue(raw) => json.Integer(AsInt32(raw));
      case UnsignedLongValue(raw) => json.Integer(AsInt32(raw));
      case BooleanValue(b) => json.Boolean(b);
      case DateTimeValue => json.Text("Unknown");
    }
  }

  function ItemText(g: GetReply): seq<Event> {
    [StartMap, MapKey("name"), StringEvent(UpToNul(g.paramName)), MapKey("value")]
    + Events(ValueJson(g.value)) + [EndMap]
  }

  function EntryText(g: GetReply): seq<Event> {
    if g.code == OK then ItemText(g) else []
  }

  /** One turn of the reply loop: a complete object or nothing is appended. */
  method WriteItem(json: Generator, g: GetReply)
    requires json.state.frames == IN_LIST
    modifies json
    ensures json.state.frames == IN_LIST
    ensures json.state.out == old(json.state.out) + EntryText(g)
    ensures g.code != 0 ==> EntryText(g) == []
    ensures g.code == 0 ==> IsItem(EntryText(g), g)
  {
    ItemTextIsItem(g);
    if g.code == OK {
      json.MapOpen();
      json.Text("name");
      json.Text(UpToNul(g.paramName));
      json.Text("value");
      WriteValue(json, g.value);
      json.MapClose();
    }
  }

  lemma ItemShape(g: GetReply)
    ensures Events(ReplyItem(g)) == ItemText(g)
    ensures |Events(ValueJson(g.value))| == 1
    ensures MemberNames(ReplyItem(g).members)
            == if Short(UpToNul(g.paramName)) then [UpToNul(g.paramName)] else []
  {
    var ms := ReplyItem(g).members;
    assert ms[1..] == [ms[1]] && ms[1..][1..] == [];
    assert MemberEvents(ms[1..]) == [MapKey("value")] + Events(ValueJson(g.value)) + MemberEvents([]);
    assert MemberEvents(ms) == [MapKey("name")] + [StringEvent(UpToNul(g.paramName))] + MemberEvents(ms[1..]);
    assert MemberNames(ms[1..][1..]) == [] && OwnNames(ms[1]) == [];
    assert MemberNames(ms[1..]) == [];
  }

  lemma {:induction false} ReplyItemsSnoc(replies: seq<GetReply>, g: GetReply)
    ensures ReplyItems(replies + [g]) == ReplyItems(replies) + Entry(g)
  {
    if replies == [] {
      assert replies + [g] == [g];
      assert ReplyItems([g][1..]) == [];
    } else {
      assert (replies + [g])[1..] == replies[1..] + [g];
      ReplyItemsSnoc(replies[1..], g);
      Associative(Entry(replies[0]), ReplyItems(replies[1..]), Entry(g));
    }
  }

  /** The text of the turns of the loop, one per reply. */
  function LoopText(replies: seq<GetReply>): seq<Event> {
    if replies == [] then []
    else LoopText(replies[..|replies| - 1]) + EntryText(replies[|replies| - 1])
  }

  lemma EntryEvents(g: GetReply)
    ensures ItemEvents(Entry(g)) == EntryText(g)
  {
    if g.code == OK {
      ItemShape(g);
      assert ItemEvents(Entry(g)) == Events(Entry(g)[0]) + ItemEvents(Entry(g)[1..]);
    }
  }

  lemma {:induction false} LoopTextIsEvents(replies: seq<GetReply>)
    ensures LoopText(replies) == ItemEvents(ReplyItems(replies))
  {
    if replies != [] {
      var front, g := replies[..|replies| - 1], replies[|replies| - 1];
      assert replies == front + [g];
      LoopTextIsEvents(front);
      LoopStep(front, g);
    }
  }

  lemma LoopStep(front: seq<GetReply>, g: GetReply)
    ensures ItemEvents(ReplyItems(front + [g])) == ItemEvents(ReplyItems(front)) + EntryText(g)
  {
    ReplyItemsSnoc(front, g);
    ItemConcat(ReplyItems(front), Entry(g));
    EntryEvents(g);
  }

  method WriteItems(json: Generator, replies: seq<GetReply>)
    requires json.state.frames == IN_LIST
    modifies json
    ensures json.state.frames == IN_LIST
    ensures json.state.out == old(json.state.out) + LoopText(replies)
  {
    ghost var before := json.state.out;
    var l := 0;
    while l < |replies|
      invariant 0 <= l <= |replies|
      invariant json.state.frames == IN_LIST
      invariant json.state.out == before + LoopText(replies[..l])
    {
      WriteItem(json, replies[l]);
      Associative(before, LoopText(replies[..l]), EntryText(replies[l]));
      assert replies[..l + 1][..l] == replies[..l];
      l := l + 1;
    }
    assert replies[..|replies|] == replies;
  }

  /** hostIf_HTTPJsonMsgHandler: 400 exactly when no name was collected;
      otherwise the events of the reply document, well nested and complete.
      `lookups` gives what the handler answers for each list of names. */
  method HTTPJsonMsgHandler(body: seq<Event>, lookups: seq<string> -> seq<GetReply>)
    returns (status: int, reply: seq<Event>)
    requires |lookups(Run(START, body).list)| == |Run(START, body).list|
    ensures var params := Run(START, body).list;
            if params == [] then status == 400 && reply == []
            else
              && status == 200 && reply == Events(ReplyTree(lookups(params)))
              && IsReply(reply, Succeeded(lookups(params)))
  {
    var params := HTTPJsonParse(body);
    if params == [] {
      return 400, [];
    }
    var replies := lookups(params);
    var json := new Generator();
    json.MapOpen();
    json.Text("paramList");
    json.ArrayOpen();
    assert json.state.out == [StartMap, MapKey("paramList"), StartArray];
    WriteItems(json, replies);
    json.ArrayClose();
    json.MapClose();
    status, reply := 200, json.state.out;
    ReplyEvents(replies);
    ReplyByPosition(replies);
  }

  lemma ReplyEvents(replies: seq<GetReply>)
    ensures Events(ReplyTree(replies))
            == [StartMap, MapKey("paramList"), StartArray] + LoopText(replies)
               + [EndArray] + [EndMap]
  {
    var items := ReplyItems(replies);
    LoopTextIsEvents(replies);
    RequestEvents([], items, []);
    assert MemberEvents([]) == [];
    Reassociated(ItemEvents(items));
  }

  lemma Reassociated(i: seq<Event>)
    ensures [StartMap] + ([] + ([MapKey("paramList"), StartArray] + (i + ([EndArray] + [] + [EndMap]))))
            == [StartMap, MapKey("paramList"), StartArray] + i + [EndArray] + [EndMap]
  {
  }

  // ------------------------------------------------------------ reading it back

  /** The names for which the lookup succeeded, in request order. */
  function Answered(params: seq<string>, replies: seq<GetReply>): seq<string>
    requires |params| == |replies|
  {
    if params == [] then []
    else (if replies[0].code == OK then [params[0]] else []) + Answered(params[1..], replies[1..])
  }

  /** The names the handler left behind, where the machine would take them. */
  function ReturnedNames(replies: seq<GetReply>): seq<string> {
    if replies == [] then [] else ReturnedName(replies[0]) + ReturnedNames(replies[1..])
  }

  function ReturnedName(g: GetReply): seq<string> {
    if g.code == OK && Short(UpToNul(g.paramName)) then [UpToNul(g.paramName)] else []
  }

  lemma ItemIsArrayFree(g: GetReply)
    ensures ArrayFree(ReplyItem(g))
  {
  }

  lemma EntryNames(g: GetReply)
    ensures ArrayFreeObjects(Entry(g))
    ensures ItemNames(Entry(g)) == ReturnedName(g)
  {
    hide MemberNames, UpToNul;
    if g.code == OK {
      ItemShape(g);
      ItemIsArrayFree(g);
      assert ItemNames(Entry(g)) == Names(Entry(g)[0]) + ItemNames(Entry(g)[1..]);
    }
  }

  lemma {:induction false} ReplyItemNames(replies: seq<GetReply>)
    ensures ArrayFreeObjects(ReplyItems(replies))
    ensures ItemNames(ReplyItems(replies)) == ReturnedNames(replies)
  {
    if replies != [] {
      ReplyItemNames(replies[1..]);
      EntryNames(replies[0]);
      ItemConcat(Entry(replies[0]), ReplyItems(replies[1..]));
    }
  }

  /** Whatever the handler does to names and values, the reply reads back as the
      names it left: a value is never taken for a name. */
  lemma ReplyReadsBack(replies: seq<GetReply>)
    ensures Run(START, Events(ReplyTree(replies))).list == ReturnedNames(replies)
  {
    ReplyItemNames(replies);
    CollectsExactlyTheNames([], ReplyItems(replies), []);
  }

  ghost predicate KeepsNames(params: seq<string>, replies: seq<GetReply>) {
    |params| == |replies| && forall i :: 0 <= i < |params| ==> replies[i].paramName == params[i]
  }

  /** What a request can put in the list. */
  predicate Clean(params: seq<string>) {
    forall i :: 0 <= i < |params| ==> '\0' !in params[i] && Short(params[i])
  }

  lemma {:induction false} CollectedNamesAreClean(c: Context, es: seq<Event>)
    requires Clean(c.list)
    ensures Clean(Run(c, es).list)
    decreases es
  {
    if es != [] {
      CollectedNamesAreClean(Step(c, es[0]), es[1..]);
    }
  }

  lemma {:induction false} ReturnedAreAnswered(params: seq<string>, replies: seq<GetReply>)
    requires KeepsNames(params, replies) && Clean(params)
    ensures ReturnedNames(replies) == Answered(params, replies)
  {
    if params != [] {
      ReturnedAreAnswered(params[1..], replies[1..]);
    }
  }

  /** The reply round trip, for every request stream and every handler that keeps
      the names: the reply reads back as the names that were answered. */
  lemma ReplyRoundTrip(body: seq<Event>, replies: seq<GetReply>)
    requires KeepsNames(Run(START, body).list, replies)
    ensures Run(START, Events(ReplyTree(replies))).list == Answered(Run(START, body).list, replies)
  {
    CollectedNamesAreClean(START, body);
    ReturnedAreAnswered(Run(START, body).list, replies);
    ReplyReadsBack(replies);
  }

  /** A handler whose answer depends on the name alone. */
  function LookupEach(params: seq<string>, get: string -> GetReply): (replies: seq<GetReply>)
    ensures |replies| == |params|
    ensures forall i :: 0 <= i < |params| ==> replies[i] == get(params[i])
  {
    if params == [] then [] else [get(params[0])] + LookupEach(params[1..], get)
  }

  lemma {:induction false} AskingAgain(params: seq<string>, get: string -> GetReply)
    ensures ReplyItems(LookupEach(Answered(params, LookupEach(params, get)), get))
            == ReplyItems(LookupEach(params, get))
  {
    if params != [] {
      var replies, rest := LookupEach(params, get), params[1..];
      var answered := Answered(params, replies);
      assert replies[1..] == LookupEach(rest, get);
      AskingAgain(rest, get);
      if get(params[0]).code == OK {
        assert answered[1..] == Answered(rest, replies[1..]);
        assert LookupEach(answered, get)[1..] == LookupEach(answered[1..], get);
      } else {
        assert answered == Answered(rest, replies[1..]);
        assert ReplyItems(replies) == ReplyItems(replies[1..]);
      }
    }
  }

  /** Sending a reply back as a request gives the same reply again. */
  lemma ReplyIsAFixpoint(body: seq<Event>, get: string -> GetReply)
    requires KeepsNames(Run(START, body).list, LookupEach(Run(START, body).list, get))
    ensures var reply := ReplyTree(LookupEach(Run(START, body).list, get));
            ReplyTree(LookupEach(Run(START, Events(reply)).list, get)) == reply
  {
    var params := Run(START, body).list;
    ReplyRoundTrip(body, LookupEach(params, get));
    AskingAgain(params, get);
  }
}
