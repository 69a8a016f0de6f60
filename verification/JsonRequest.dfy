/** The JSON request machine: the callbacks that collect parameter names from a
    request document, and the generator that writes the reply in the same grammar. */
module JsonRequest {
  import opened Common
  import opened CText

  // ---------------------------------------------------------------- documents

  datatype Json =
    | Null
    | Bool(b: bool)
    | Int(n: int)
    | Double(x: real)
    | Str(s: string)
    | Arr(items: seq<Json>)
    | Obj(members: seq<Member>)

  datatype Member = Member(key: string, value: Json)

  /** The callbacks of the event parser, one constructor each. */
  datatype Event =
    | NullEvent
    | BoolEvent(b: bool)
    | IntEvent(n: int)
    | DoubleEvent(x: real)
    | StringEvent(s: string)
    | StartMap
    | MapKey(key: string)
    | EndMap
    | StartArray
    | EndArray

  /** The events of a document, in document order. */
  function Events(j: Json): (es: seq<Event>)
    decreases j, 1
  {
    match j
    case Null => [NullEvent]
    case Bool(b) => [BoolEvent(b)]
    case Int(n) => [IntEvent(n)]
    case Double(x) => [DoubleEvent(x)]
    case Str(s) => [StringEvent(s)]
    case Arr(items) => [StartArray] + ItemEvents(items) + [EndArray]
    case Obj(members) => [StartMap] + MemberEvents(members) + [EndMap]
  }

  function ItemEvents(items: seq<Json>): (es: seq<Event>)
    decreases items, 0
  {
    if items == [] then [] else Events(items[0]) + ItemEvents(items[1..])
  }

  function MemberEvents(members: seq<Member>): (es: seq<Event>)
    decreases members, 0
  {
    if members == [] then []
    else [MapKey(members[0].key)] + Events(members[0].value) + MemberEvents(members[1..])
  }

  predicate Short(s: string) {
    |s| < MAX_PARAM_LEN - 1
  }

  /** The string-valued "name" members at any depth that are short enough, in
      document order; strndup keeps each up to its first '\0'. */
  function Names(j: Json): seq<string>
    decreases j, 1
  {
    match j
    case Arr(items) => ItemNames(items)
    case Obj(members) => MemberNames(members)
    case _ => []
  }

  function ItemNames(items: seq<Json>): seq<string>
    decreases items, 0
  {
    if items == [] then [] else Names(items[0]) + ItemNames(items[1..])
  }

  function MemberNames(members: seq<Member>): seq<string>
    decreases members, 0
  {
    if members == [] then [] else OwnNames(members[0]) + MemberNames(members[1..])
  }

  function OwnNames(m: Member): seq<string>
    decreases m, 2
  {
    if !m.value.Str? then Names(m.value)
    else if m.key == "name" && Short(m.value.s) then [UpToNul(m.value.s)]
    else []
  }

  predicate ArrayFree(j: Json)
    decreases j
  {
    match j
    case Arr(items) => false
    case Obj(members) => forall i | 0 <= i < |members| :: ArrayFree(members[i].value)
    case _ => true
  }

  /** No member at any depth is called "paramList". */
  predicate NoParamList(j: Json)
    decreases j
  {
    match j
    case Arr(items) => forall i | 0 <= i < |items| :: NoParamList(items[i])
    case Obj(members) =>
      forall i | 0 <= i < |members| :: members[i].key != "paramList" && NoParamList(members[i].value)
    case _ => true
  }

  /** The conditions on documents, read off their events. */
  lemma {:induction false} NoParamListIff(j: Json)
    ensures NoParamList(j) <==> MapKey("paramList") !in Events(j)
    decreases j, 1
  {
    match j
    case Arr(items) => NoParamListItemsIff(items);
    case Obj(members) => NoParamListMembersIff(members);
    case _ =>
  }

  lemma {:induction false} NoParamListItemsIff(items: seq<Json>)
    ensures NoParamList(Arr(items)) <==> MapKey("paramList") !in ItemEvents(items)
    decreases items, 0
  {
    if items != [] {
      var rest := items[1..];
      NoParamListIff(items[0]);
      NoParamListItemsIff(rest);
      assert items == [items[0]] + rest;
      assert NoParamList(Arr(items)) == (NoParamList(items[0]) && NoParamList(Arr(rest)));
    }
  }

  lemma {:induction false} NoParamListMembersIff(members: seq<Member>)
    ensures NoParamList(Obj(members)) <==> MapKey("paramList") !in MemberEvents(members)
    decreases members, 0
  {
    if members != [] {
      var m, rest := members[0], members[1..];
      NoParamListIff(m.value);
      NoParamListMembersIff(rest);
      assert members == [m] + rest;
      assert NoParamList(Obj(members)) == (m.key != "paramList" && NoParamList(m.value) && NoParamList(Obj(rest)));
    }
  }

  lemma {:induction false} ArrayFreeIff(j: Json)
    ensures ArrayFree(j) <==> StartArray !in Events(j)
    decreases j, 1
  {
    match j
    case Obj(members) => ArrayFreeMembersIff(members);
    case _ =>
  }

  lemma {:induction false} ArrayFreeMembersIff(members: seq<Member>)
    ensures ArrayFree(Obj(members)) <==> StartArray !in MemberEvents(members)
    decreases members, 0
  {
    if members != [] {
      var m, rest := members[0], members[1..];
      ArrayFreeIff(m.value);
      ArrayFreeMembersIff(rest);
      assert members == [m] + rest;
      assert ArrayFree(Obj(members)) == (ArrayFree(m.value) && ArrayFree(Obj(rest)));
    }
  }

  // -------------------------------------------------------------- the machine

  datatype Phase = Before | Param | Processing | Done

  datatype Context = Context(list: seq<string>, phase: Phase, grab: bool)

  const START := Context([], Before, false)

  function Step(c: Context, e: Event): Context {
    match e
    case StringEvent(s) =>
      if c.phase == Processing && c.grab && Short(s)
      then c.(list := c.list + [UpToNul(s)], grab := false)
      else c
    case MapKey(k) =>
      if c.phase == Before && k == "paramList" then c.(phase := Param)
      else c.(grab := c.phase == Processing && k == "name")
    case StartArray => if c.phase == Param then c.(phase := Processing) else c
    case EndArray =>
      if c.phase == Processing || c.phase == Param then c.(phase := Done) else c
    case _ => c
  }

  function Run(c: Context, es: seq<Event>): Context
    decreases es
  {
    if es == [] then c else Run(Step(c, es[0]), es[1..])
  }

  lemma {:induction false} RunConcat(c: Context, a: seq<Event>, b: seq<Event>)
    ensures Run(c, a + b) == Run(Run(c, a), b)
    decreases a
  {
    if a == [] {
      assert a + b == b;
    } else {
      assert (a + b)[1..] == a[1..] + b;
      RunConcat(Step(c, a[0]), a[1..], b);
    }
  }

  lemma RunCons(c: Context, e: Event, es: seq<Event>)
    ensures Run(c, [e] + es) == Run(Step(c, e), es)
  {
    assert ([e] + es)[1..] == es;
  }

  lemma RunSnoc(c: Context, es: seq<Event>, e: Event)
    ensures Run(c, es + [e]) == Step(Run(c, es), e)
  {
    RunConcat(c, es, [e]);
    assert [e][1..] == [];
    assert Run(Step(Run(c, es), e), []) == Step(Run(c, es), e);
  }

  /** parser_state_t and its callbacks. */
  class Parser {
    var list: seq<string>
    var state: Phase
    var grabString: bool

    constructor ()
      ensures Contents() == START
    {
      list, state, grabString := [], Before, false;
    }

    function Contents(): Context
      reads this
    {
      Context(list, state, grabString)
    }

    method ProcessString(s: string)
      modifies this
      ensures Contents() == Step(old(Contents()), StringEvent(s))
      ensures var takes := old(state) == Processing && old(grabString) && |s| < 4095;
              && list == (if takes then old(list) + [UpToNul(s)] else old(list))
              && grabString == (old(grabString) && !takes) && state == old(state)
    {
      if state == Processing && grabString && |s| < MAX_PARAM_LEN - 1 {
        list := list + [UpToNul(s)];
        grabString := false;
      }
    }

    method ProcessMapKey(key: string)
      modifies this
      ensures Contents() == Step(old(Contents()), MapKey(key))
      ensures list == old(list)
      ensures old(state) == Before && key == "paramList" ==> state == Param && grabString == old(grabString)
      ensures !(old(state) == Before && key == "paramList") ==>
                state == old(state) && (grabString <==> state == Processing && key == "name")
    {
      if state == Before && key == "paramList" {
        state := Param;
      } else if state == Processing && key == "name" {
        grabString := true;
      } else {
        grabString := false;
      }
    }

    method ProcessStartArray()
      modifies this
      ensures Contents() == Step(old(Contents()), StartArray)
      ensures list == old(list) && grabString == old(grabString)
      ensures state == if old(state) == Param then Processing else old(state)
    {
      if state == Param {
        state := Processing;
      }
    }

    method ProcessEndArray()
      modifies this
      ensures Contents() == Step(old(Contents()), EndArray)
      ensures list == old(list) && grabString == old(grabString)
      ensures state == if old(state) == Before then Before else Done
    {
      if state == Processing || state == Param {
        state := Done;
      }
    }
  }

  /** hostIf_HTTPJsonParse: the collected list, also when the stream stops early
      because the text turned out not to be JSON. */
  method HTTPJsonParse(es: seq<Event>) returns (list: seq<string>)
    ensures list == Run(START, es).list
  {
    var parser := new Parser();
    var i := 0;
    while i < |es|
      invariant 0 <= i <= |es|
      invariant parser.Contents() == Run(START, es[..i])
    {
      RunSnoc(START, es[..i], es[i]);
      assert es[..i] + [es[i]] == es[..i + 1];
      match es[i] {
        case StringEvent(s) => parser.ProcessString(s);
        case MapKey(k) => parser.ProcessMapKey(k);
        case StartArray => parser.ProcessStartArray();
        case EndArray => parser.ProcessEndArray();
        case _ =>
      }
      i := i + 1;
    }
    assert es[..|es|] == es;
    list := parser.list;
  }

  // ------------------------------------------------- what the machine collects

  lemma {:induction false} DoneStays(c: Context, es: seq<Event>)
    requires c.phase == Done
    ensures Run(c, es).phase == Done && Run(c, es).list == c.list
    decreases es
  {
    if es != [] {
      DoneStays(Step(c, es[0]), es[1..]);
    }
  }

  /** A request cut short yields a prefix of the names of the whole request. */
  lemma {:induction false} ListGrows(c: Context, es: seq<Event>)
    ensures c.list <= Run(c, es).list
    decreases es
  {
    if es != [] {
      ListGrows(Step(c, es[0]), es[1..]);
    }
  }

  lemma TruncatedRequest(es: seq<Event>, k: nat)
    requires k <= |es|
    ensures Run(START, es[..k]).list <= Run(START, es).list
  {
    assert es == es[..k] + es[k..];
    RunConcat(START, es[..k], es[k..]);
    ListGrows(Run(START, es[..k]), es[k..]);
  }

  lemma {:induction false} BeforeValue(c: Context, j: Json)
    requires c.phase == Before && !c.grab && NoParamList(j)
    ensures Run(c, Events(j)) == c
    decreases j, 1
  {
    match j
    case Arr(items) =>
      assert Events(j) == [StartArray] + (ItemEvents(items) + [EndArray]);
      BeforeItems(c, items);
      RunSnoc(c, ItemEvents(items), EndArray);
    case Obj(members) =>
      assert Events(j) == [StartMap] + (MemberEvents(members) + [EndMap]);
      BeforeMembers(c, members);
      RunSnoc(c, MemberEvents(members), EndMap);
    case _ =>
      assert Events(j)[1..] == [];
  }

  lemma {:induction false} BeforeItems(c: Context, items: seq<Json>)
    requires c.phase == Before && !c.grab && forall i | 0 <= i < |items| :: NoParamList(items[i])
    ensures Run(c, ItemEvents(items)) == c
    decreases items, 0
  {
    if items != [] {
      BeforeValue(c, items[0]);
      RunConcat(c, Events(items[0]), ItemEvents(items[1..]));
      BeforeItems(c, items[1..]);
    }
  }

  ghost predicate NoParamListMembers(members: seq<Member>) {
    forall i | 0 <= i < |members| :: members[i].key != "paramList" && NoParamList(members[i].value)
  }

  lemma {:induction false} BeforeMembers(c: Context, members: seq<Member>)
    requires c.phase == Before && !c.grab && NoParamListMembers(members)
    ensures Run(c, MemberEvents(members)) == c
    decreases members, 0
  {
    if members != [] {
      var m := members[0];
      BeforeValue(c, m.value);
      FirstMember(c, members);
      BeforeMembers(c, members[1..]);
    }
  }

  /** What the machine makes of a value inside the array when it meets it armed or
      not: the strings it takes, whether it is armed afterwards, whether an array
      closed, and how many of the strings were items of an array, not members. */
  datatype Reading = Reading(taken: seq<string>, armed: bool, closed: bool, strays: nat)

  function Then(p: Reading, q: Reading): Reading {
    if p.closed then p else Reading(p.taken + q.taken, q.armed, q.closed, p.strays + q.strays)
  }

  function Read(j: Json, armed: bool): Reading
    decreases j, 1
  {
    match j
    case Str(s) =>
      if armed && Short(s) then Reading([UpToNul(s)], false, false, 1) else Reading([], armed, false, 0)
    case Arr(items) => ReadItems(items, armed).(closed := true)
    case Obj(members) => ReadMembers(members, armed)
    case _ => Reading([], armed, false, 0)
  }

  function ReadItems(items: seq<Json>, armed: bool): Reading
    decreases items, 0
  {
    if items == [] then Reading([], armed, false, 0)
    else
      var first := Read(items[0], armed);
      Then(first, ReadItems(items[1..], first.armed))
  }

  function ReadMembers(members: seq<Member>, armed: bool): Reading
    decreases members, 0
  {
    if members == [] then Reading([], armed, false, 0)
    else
      var first := ReadMember(members[0]);
      Then(first, ReadMembers(members[1..], first.armed))
  }

  function ReadMember(m: Member): Reading
    decreases m, 2
  {
    var named := m.key == "name";
    if m.value.Str? then Reading(OwnNames(m), named && !Short(m.value.s), false, 0) else Read(m.value, named)
  }

  ghost predicate Reads(c: Context, es: seq<Event>, r: Reading) {
    var d := Run(c, es);
    && d.list == c.list + r.taken
    && if r.closed then d.phase == Done else d.phase == Processing && d.grab == r.armed
  }

  lemma ReadsThen(c: Context, a: seq<Event>, b: seq<Event>, p: Reading, q: Reading)
    requires Reads(c, a, p)
    requires !p.closed ==> Reads(Run(c, a), b, q)
    ensures Reads(c, a + b, Then(p, q))
  {
    RunConcat(c, a, b);
    if p.closed {
      DoneStays(Run(c, a), b);
    } else {
      Associative(c.list, p.taken, q.taken);
    }
  }

  lemma {:induction false} ReadsValue(c: Context, j: Json)
    requires c.phase == Processing
    ensures Reads(c, Events(j), Read(j, c.grab))
    decreases j, 1
  {
    match j
    case Arr(items) =>
      ReadsItems(c, items);
      ReadsClosed(c, ItemEvents(items), ReadItems(items, c.grab));
      assert Events(j) == [StartArray] + (ItemEvents(items) + [EndArray]);
    case Obj(members) =>
      ReadsMembers(c, members);
      ReadsObject(c, MemberEvents(members), ReadMembers(members, c.grab));
      assert Events(j) == [StartMap] + (MemberEvents(members) + [EndMap]);
    case _ =>
      ScalarStep(c, j);
  }

  lemma ReadsClosed(c: Context, es: seq<Event>, r: Reading)
    requires c.phase == Processing && Reads(c, es, r)
    ensures Reads(c, [StartArray] + (es + [EndArray]), r.(closed := true))
  {
    RunCons(c, StartArray, es + [EndArray]);
    RunSnoc(c, es, EndArray);
    hide Run;
  }

  lemma ReadsObject(c: Context, es: seq<Event>, r: Reading)
    requires Reads(c, es, r)
    ensures Reads(c, [StartMap] + (es + [EndMap]), r)
  {
    RunCons(c, StartMap, es + [EndMap]);
    RunSnoc(c, es, EndMap);
    hide Run;
  }

  lemma {:induction false} ReadsItems(c: Context, items: seq<Json>)
    requires c.phase == Processing
    ensures Reads(c, ItemEvents(items), ReadItems(items, c.grab))
    decreases items, 0
  {
    if items != [] {
      var first := Read(items[0], c.grab);
      ReadsValue(c, items[0]);
      if !first.closed {
        ReadsItems(Run(c, Events(items[0])), items[1..]);
      }
      ReadsThen(c, Events(items[0]), ItemEvents(items[1..]), first, ReadItems(items[1..], first.armed));
    }
  }

  lemma {:induction false} ReadsMembers(c: Context, members: seq<Member>)
    requires c.phase == Processing
    ensures Reads(c, MemberEvents(members), ReadMembers(members, c.grab))
    decreases members, 0
  {
    if members != [] {
      var m, first := members[0], ReadMember(members[0]);
      var es := [MapKey(m.key)] + Events(m.value);
      ReadsMember(c, m);
      if !first.closed {
        ReadsMembers(Run(c, es), members[1..]);
      }
      ReadsThen(c, es, MemberEvents(members[1..]), first, ReadMembers(members[1..], first.armed));
    }
  }

  lemma {:induction false} ReadsMember(c: Context, m: Member)
    requires c.phase == Processing
    ensures Reads(c, [MapKey(m.key)] + Events(m.value), ReadMember(m))
    decreases m, 2
  {
    var keyed := Step(c, MapKey(m.key));
    RunCons(c, MapKey(m.key), Events(m.value));
    if m.value.Str? {
      ScalarStep(keyed, m.value);
    } else {
      ReadsValue(keyed, m.value);
    }
  }

  lemma ScalarStep(c: Context, j: Json)
    requires !j.Obj? && !j.Arr?
    ensures |Events(j)| == 1 && Run(c, Events(j)) == Step(c, Events(j)[0])
  {
    RunSnoc(c, [], Events(j)[0]);
    assert Events(j) == [] + [Events(j)[0]];
  }

  lemma FirstMember(c: Context, members: seq<Member>)
    requires members != []
    ensures Run(c, MemberEvents(members))
            == Run(Run(Step(c, MapKey(members[0].key)), Events(members[0].value)), MemberEvents(members[1..]))
  {
    var value, rest := Events(members[0].value), MemberEvents(members[1..]);
    assert MemberEvents(members) == [MapKey(members[0].key)] + (value + rest);
    RunCons(c, MapKey(members[0].key), value + rest);
    RunConcat(Step(c, MapKey(members[0].key)), value, rest);
  }

  /** The names that follow the first array closed inside a value. */
  function NamesAfter(j: Json): seq<string>
    decreases j, 1
  {
    match j
    case Arr(items) => ItemNamesAfter(items)
    case Obj(members) => MemberNamesAfter(members)
    case _ => []
  }

  function ItemNamesAfter(items: seq<Json>): seq<string>
    decreases items, 0
  {
    if items == [] then []
    else if ArrayFree(items[0]) then ItemNamesAfter(items[1..])
    else NamesAfter(items[0]) + ItemNames(items[1..])
  }

  function MemberNamesAfter(members: seq<Member>): seq<string>
    decreases members, 0
  {
    if members == [] then []
    else if ArrayFree(members[0].value) then MemberNamesAfter(members[1..])
    else NamesAfter(members[0].value) + MemberNames(members[1..])
  }

  ghost predicate ArrayFreeItems(items: seq<Json>) {
    forall i | 0 <= i < |items| :: ArrayFree(items[i])
  }

  /** How a reading relates to the names it should have taken. */
  ghost predicate Accounts(r: Reading, names: seq<string>, after: seq<string>, arrayFree: bool) {
    && r.closed == !arrayFree
    && (arrayFree ==> after == [])
    && |r.taken| + |after| == |names| + r.strays
    && (r.strays == 0 ==> r.taken + after == names)
  }

  lemma AccountsThen(p: Reading, pNames: seq<string>, pAfter: seq<string>, pFree: bool,
                     q: Reading, qNames: seq<string>, qAfter: seq<string>, qFree: bool)
    requires Accounts(p, pNames, pAfter, pFree)
    requires Accounts(q, qNames, qAfter, qFree)
    ensures Accounts(Then(p, q), pNames + qNames, if pFree then qAfter else pAfter + qNames, pFree && qFree)
  {
    if !pFree {
      Associative(p.taken, pAfter, qNames);
    } else {
      assert p.taken + [] == p.taken;
      Associative(p.taken, q.taken, qAfter);
    }
  }

  lemma {:induction false} AccountsForValue(j: Json, armed: bool)
    ensures Accounts(Read(j, armed), Names(j), NamesAfter(j), ArrayFree(j))
    decreases j, 1
  {
    match j
    case Arr(items) => AccountsForItems(items, armed);
    case Obj(members) => AccountsForMembers(members, armed);
    case _ =>
  }

  lemma {:induction false} AccountsForItems(items: seq<Json>, armed: bool)
    ensures Accounts(ReadItems(items, armed), ItemNames(items), ItemNamesAfter(items), ArrayFreeItems(items))
    decreases items, 0
  {
    if items != [] {
      var rest, first := items[1..], Read(items[0], armed);
      AccountsForValue(items[0], armed);
      AccountsForItems(rest, first.armed);
      assert items == [items[0]] + rest;
      assert ArrayFreeItems(items) == (ArrayFree(items[0]) && ArrayFreeItems(rest));
      AccountsThen(first, Names(items[0]), NamesAfter(items[0]), ArrayFree(items[0]),
                   ReadItems(rest, first.armed), ItemNames(rest), ItemNamesAfter(rest), ArrayFreeItems(rest));
    }
  }

  lemma {:induction false} AccountsForMembers(members: seq<Member>, armed: bool)
    ensures Accounts(ReadMembers(members, armed), MemberNames(members), MemberNamesAfter(members),
                     ArrayFree(Obj(members)))
    decreases members, 0
  {
    if members != [] {
      var m, rest, first := members[0], members[1..], ReadMember(members[0]);
      if !m.value.Str? {
        AccountsForValue(m.value, m.key == "name");
      }
      AccountsForMembers(rest, first.armed);
      assert members == [m] + rest;
      assert ArrayFree(Obj(members)) == (ArrayFree(m.value) && ArrayFree(Obj(rest)));
      AccountsThen(first, OwnNames(m), NamesAfter(m.value), ArrayFree(m.value),
                   ReadMembers(rest, first.armed), MemberNames(rest), MemberNamesAfter(rest), ArrayFree(Obj(rest)));
    }
  }

  /** No short string stands directly in an array. */
  predicate NoBareString(j: Json)
    decreases j
  {
    match j
    case Arr(items) => forall i | 0 <= i < |items| :: !ShortText(items[i]) && NoBareString(items[i])
    case Obj(members) => forall i | 0 <= i < |members| :: NoBareString(members[i].value)
    case _ => true
  }

  predicate ShortText(j: Json) {
    j.Str? && Short(j.s)
  }

  lemma {:induction false} NoStrays(j: Json, armed: bool)
    requires NoBareString(j) && !ShortText(j)
    ensures Read(j, armed).strays == 0
    decreases j, 1
  {
    match j
    case Arr(items) => NoStrayItems(items, armed);
    case Obj(members) => NoStrayMembers(members, armed);
    case _ =>
  }

  lemma {:induction false} NoStrayItems(items: seq<Json>, armed: bool)
    requires NoBareString(Arr(items))
    ensures ReadItems(items, armed).strays == 0
    decreases items, 0
  {
    if items != [] {
      NoStrays(items[0], armed);
      NoStrayItems(items[1..], Read(items[0], armed).armed);
    }
  }

  lemma {:induction false} NoStrayMembers(members: seq<Member>, armed: bool)
    requires NoBareString(Obj(members))
    ensures ReadMembers(members, armed).strays == 0
    decreases members, 0
  {
    if members != [] {
      var m := members[0];
      if !m.value.Str? {
        NoStrays(m.value, m.key == "name");
      }
      NoStrayMembers(members[1..], ReadMember(m).armed);
    }
  }

  ghost predicate ArrayFreeObjects(items: seq<Json>) {
    forall i | 0 <= i < |items| :: items[i].Obj? && ArrayFree(items[i])
  }

  function Request(before: seq<Member>, params: seq<Json>, after: seq<Member>): Json {
    Obj(before + [Member("paramList", Arr(params))] + after)
  }

  lemma {:induction false} MemberEventsConcat(a: seq<Member>, b: seq<Member>)
    ensures MemberEvents(a + b) == MemberEvents(a) + MemberEvents(b)
  {
    if a == [] {
      assert a + b == b;
    } else {
      assert (a + b)[1..] == a[1..] + b;
      MemberEventsConcat(a[1..], b);
    }
  }

  /** The events after those of the array's items. */
  function Tail(after: seq<Member>): seq<Event> {
    [EndArray] + MemberEvents(after) + [EndMap]
  }

  lemma RequestEvents(before: seq<Member>, params: seq<Json>, after: seq<Member>)
    ensures Events(Request(before, params, after)) ==
            [StartMap] + (MemberEvents(before)
                          + ([MapKey("paramList"), StartArray] + (ItemEvents(params) + Tail(after))))
  {
    var list := [Member("paramList", Arr(params))];
    MemberEventsConcat(before + list, after);
    MemberEventsConcat(before, list);
    assert MemberEvents(list) == [MapKey("paramList")] + Events(Arr(params)) + MemberEvents([]) by {
      assert list[1..] == [];
    }
    Reassociate(MemberEvents(before), ItemEvents(params), MemberEvents(after));
  }

  lemma Reassociate(h: seq<Event>, i: seq<Event>, m: seq<Event>)
    ensures [StartMap] + (h + ([MapKey("paramList")] + ([StartArray] + i + [EndArray]) + []) + m) + [EndMap]
            == [StartMap] + (h + ([MapKey("paramList"), StartArray] + (i + ([EndArray] + m + [EndMap]))))
  {
  }

  lemma OpensAfter(head: seq<Event>, rest: seq<Event>)
    requires Run(START, head) == START
    ensures Run(START, [StartMap] + (head + ([MapKey("paramList"), StartArray] + rest)))
            == Run(START.(phase := Processing), rest)
  {
    var opens := [MapKey("paramList"), StartArray] + rest;
    RunCons(START, StartMap, head + opens);
    RunConcat(START, head, opens);
    assert opens == [MapKey("paramList")] + ([StartArray] + rest);
    RunCons(START, MapKey("paramList"), [StartArray] + rest);
    RunCons(START.(phase := Param), StartArray, rest);
  }

  lemma OpensTheList(before: seq<Member>, params: seq<Json>, after: seq<Member>)
    requires NoParamListMembers(before)
    ensures Run(START, Events(Request(before, params, after)))
            == Run(START.(phase := Processing), ItemEvents(params) + Tail(after))
  {
    RequestEvents(before, params, after);
    BeforeMembers(START, before);
    OpensAfter(MemberEvents(before), ItemEvents(params) + Tail(after));
  }

  lemma ClosesTheList(c: Context, es: seq<Event>, r: Reading, after: seq<Member>)
    requires Reads(c, es, r)
    ensures Run(c, es + Tail(after)).phase == Done && Run(c, es + Tail(after)).list == c.list + r.taken
  {
    var d, rest := Run(c, es), MemberEvents(after) + [EndMap];
    RunConcat(c, es, Tail(after));
    assert Tail(after) == [EndArray] + rest;
    RunCons(d, EndArray, rest);
    DoneStays(Step(d, EndArray), rest);
  }

  /** What is collected from any request whatever the list holds, and how far that
      is from the names: a list is complete when no array item was taken for a name
      and no name follows the first array closed inside it. When just one of the
      two goes wrong it never is; when both do, the lengths agree exactly when as
      many strings strayed in as names were lost. */
  lemma CollectsFromAnyRequest(before: seq<Member>, params: seq<Json>, after: seq<Member>)
    requires NoParamListMembers(before)
    ensures var end := Run(START, Events(Request(before, params, after)));
            var strays, lost := ReadItems(params, false).strays, ItemNamesAfter(params);
            && end.phase == Done && end.list == ReadItems(params, false).taken
            && |end.list| + |lost| == |ItemNames(params)| + strays
            && (strays == 0 ==> end.list + lost == ItemNames(params))
            && (strays == 0 || lost == [] ==>
                  (end.list == ItemNames(params) <==> strays == 0 && lost == []))
  {
    hide Run, ReadItems, ItemNames, ItemNamesAfter, Request;
    var c := START.(phase := Processing);
    OpensTheList(before, params, after);
    ReadsItems(c, params);
    AccountsForItems(params, false);
    ClosesTheList(c, ItemEvents(params), ReadItems(params, false), after);
  }

  lemma {:induction false} ArrayFreeHasNoBareString(j: Json)
    requires ArrayFree(j)
    ensures NoBareString(j)
    decreases j
  {
    if j.Obj? {
      forall i | 0 <= i < |j.members| ensures NoBareString(j.members[i].value) {
        ArrayFreeHasNoBareString(j.members[i].value);
      }
    }
  }

  /** The request theorem: the names inside "paramList" are collected in document
      order, nothing before it disturbs them, and nothing after it is looked at. */
  lemma CollectsExactlyTheNames(before: seq<Member>, params: seq<Json>, after: seq<Member>)
    requires NoParamListMembers(before)
    requires ArrayFreeObjects(params)
    ensures Run(START, Events(Request(before, params, after))).list == ItemNames(params)
    ensures Run(START, Events(Request(before, params, after))).phase == Done
  {
    forall i | 0 <= i < |params| ensures NoBareString(params[i]) {
      ArrayFreeHasNoBareString(params[i]);
    }
    NoStrayItems(params, false);
    AccountsForItems(params, false);
    CollectsFromAnyRequest(before, params, after);
  }

  /** The documented collection fails for nested arrays. Where no short string
      stands directly in an array, the first array closed inside "paramList" cuts
      the list there, so it is complete exactly when no name follows that array. */
  lemma NestedArrayEndsTheList(before: seq<Member>, params: seq<Json>, after: seq<Member>)
    requires NoParamListMembers(before)
    requires NoBareString(Arr(params))
    ensures var list := Run(START, Events(Request(before, params, after))).list;
            && list + ItemNamesAfter(params) == ItemNames(params)
            && (list == ItemNames(params) <==> ItemNamesAfter(params) == [])
  {
    NoStrayItems(params, false);
    CollectsFromAnyRequest(before, params, after);
  }

  /** An object whose member "name" is an array of one string. */
  function NameInArray(s: string): Json {
    Obj([Member("name", Arr([Str(s)]))])
  }

  lemma NameInArrayReading(s: string, lost: seq<Json>)
    requires Short(s)
    ensures ReadItems([NameInArray(s)] + lost, false) == Reading([UpToNul(s)], false, true, 1)
    ensures ItemNames([NameInArray(s)] + lost) == ItemNames(lost)
  {
    var m := Member("name", Arr([Str(s)]));
    assert [Str(s)][1..] == [] && [m][1..] == [];
    assert ReadItems([Str(s)], true) == Reading([UpToNul(s)], false, false, 1);
    assert ReadMember(m) == Reading([UpToNul(s)], false, true, 1);
    assert Read(NameInArray(s), false) == Then(ReadMember(m), ReadMembers([m][1..], false));
    assert ItemNames([Str(s)]) == [] && OwnNames(m) == [];
    assert Names(NameInArray(s)) == OwnNames(m) + MemberNames([m][1..]);
    assert ([NameInArray(s)] + lost)[1..] == lost;
  }

  /** The other way it fails: a string that is no member at all is collected. And
      the two failures can hide one another, when what follows is just that name. */
  lemma BareStringIsCollected(before: seq<Member>, s: string, lost: seq<Json>, after: seq<Member>)
    requires NoParamListMembers(before) && Short(s)
    ensures var params := [NameInArray(s)] + lost;
            var list := Run(START, Events(Request(before, params, after))).list;
            && list == [UpToNul(s)]
            && (list == ItemNames(params) <==> ItemNames(lost) == [UpToNul(s)])
  {
    NameInArrayReading(s, lost);
    CollectsFromAnyRequest(before, [NameInArray(s)] + lost, after);
  }

  lemma {:induction false} ItemConcat(a: seq<Json>, b: seq<Json>)
    ensures ItemEvents(a + b) == ItemEvents(a) + ItemEvents(b)
    ensures ItemNames(a + b) == ItemNames(a) + ItemNames(b)
  {
    hide Events, Names;
    if a == [] {
      assert a + b == b;
    } else {
      assert (a + b)[1..] == a[1..] + b;
      ItemConcat(a[1..], b);
    }
  }

  // ------------------------------------------ every stream, not only documents

  /** The last key or short string before position m is the key "name". */
  ghost predicate Armed(es: seq<Event>, m: nat)
    requires m <= |es|
  {
    exists p :: 0 <= p < m && es[p] == MapKey("name")
      && forall q | p < q < m :: !es[q].MapKey? && !ShortString(es[q])
  }

  predicate ShortString(e: Event) {
    e.StringEvent? && Short(e.s)
  }

  /** The short strings among the first n events that follow a key "name". */
  ghost function Picked(es: seq<Event>, n: nat): seq<string>
    requires n <= |es|
  {
    if n == 0 then []
    else (Picked(es, n - 1)
          + if ShortString(es[n - 1]) && Armed(es, n - 1) then [UpToNul(es[n - 1].s)] else [])
  }

  lemma ArmedStep(es: seq<Event>, n: nat)
    requires 0 < n <= |es|
    ensures Armed(es, n) <==>
            es[n - 1] == MapKey("name")
            || (!es[n - 1].MapKey? && !ShortString(es[n - 1]) && Armed(es, n - 1))
  {
    if es[n - 1] == MapKey("name") {
      assert Armed(es, n);
    } else if Armed(es, n) {
      var p :| 0 <= p < n && es[p] == MapKey("name")
        && forall q | p < q < n :: !es[q].MapKey? && !ShortString(es[q]);
      assert p < n - 1;
      assert Armed(es, n - 1);
    }
  }

  lemma {:induction false} PickedInside(c: Context, es: seq<Event>, n: nat)
    requires c.phase == Processing && !c.grab && EndArray !in es && n <= |es|
    ensures Run(c, es[..n]) == Context(c.list + Picked(es, n), Processing, Armed(es, n))
  {
    if n > 0 {
      var e := es[n - 1];
      PickedInside(c, es, n - 1);
      RunSnoc(c, es[..n - 1], e);
      assert es[..n] == es[..n - 1] + [e];
      ArmedStep(es, n);
      assert e in es;
    }
  }

  lemma {:induction false} QuietBefore(c: Context, es: seq<Event>)
    requires c.phase == Before && !c.grab && MapKey("paramList") !in es
    ensures Run(c, es) == c
  {
    if es != [] {
      assert Step(c, es[0]) == c;
      QuietBefore(c, es[1..]);
    }
  }

  lemma {:induction false} QuietParam(c: Context, es: seq<Event>)
    requires c.phase == Param && !c.grab && StartArray !in es && EndArray !in es
    ensures Run(c, es) == c
  {
    if es != [] {
      assert Step(c, es[0]) == c;
      QuietParam(c, es[1..]);
    }
  }

  lemma CollectsInsideTheArray(a: seq<Event>, b: seq<Event>, inside: seq<Event>, tail: seq<Event>)
    requires MapKey("paramList") !in a
    requires StartArray !in b && EndArray !in b
    requires EndArray !in inside
    requires tail == [] || tail[0] == EndArray
    ensures Run(START, a + [MapKey("paramList")] + b + [StartArray] + inside + tail).list
            == Picked(inside, |inside|)
  {
    var front := a + [MapKey("paramList")] + b + [StartArray];
    OpensTheArray(a, b);
    RunConcat(START, front + inside, tail);
    RunConcat(START, front, inside);
    PickedInside(START.(phase := Processing), inside, |inside|);
    assert inside[..|inside|] == inside;
    ClosedArrayEnds(Run(START, front + inside), tail);
  }

  lemma ClosedArrayEnds(c: Context, tail: seq<Event>)
    requires c.phase == Processing || c.phase == Param
    requires tail == [] || tail[0] == EndArray
    ensures Run(c, tail).list == c.list
  {
    if tail != [] {
      DoneStays(Step(c, EndArray), tail[1..]);
    }
  }

  lemma OpensTheArray(a: seq<Event>, b: seq<Event>)
    requires MapKey("paramList") !in a
    requires StartArray !in b && EndArray !in b
    ensures Run(START, a + [MapKey("paramList")] + b) == START.(phase := Param)
    ensures Run(START, a + [MapKey("paramList")] + b + [StartArray]) == START.(phase := Processing)
  {
    QuietBefore(START, a);
    RunSnoc(START, a, MapKey("paramList"));
    RunConcat(START, a + [MapKey("paramList")], b);
    QuietParam(START.(phase := Param), b);
    RunSnoc(START, a + [MapKey("paramList")] + b, StartArray);
  }

  lemma CollectsNothingOtherwise(a: seq<Event>, b: seq<Event>, tail: seq<Event>)
    requires MapKey("paramList") !in a
    requires StartArray !in b && EndArray !in b
    requires tail == [] || tail[0] == EndArray
    ensures Run(START, a).list == []
    ensures Run(START, a + [MapKey("paramList")] + b + tail).list == []
  {
    QuietBefore(START, a);
    OpensTheArray(a, b);
    var front := a + [MapKey("paramList")] + b;
    RunConcat(START, front, tail);
    ClosedArrayEnds(Run(START, front), tail);
  }

  /** The first event x or y at or after p. */
  function FirstOf(es: seq<Event>, p: nat, x: Event, y: Event): (i: nat)
    requires p <= |es|
    ensures p <= i <= |es|
    ensures i < |es| ==> es[i] == x || es[i] == y
    ensures x !in es[p..i] && y !in es[p..i]
    decreases |es| - p
  {
    if p == |es| || es[p] == x || es[p] == y then p
    else
      var i := FirstOf(es, p + 1, x, y);
      assert es[p..i] == [es[p]] + es[p + 1..i];
      i
  }

  /** What a stream asks for, read off its events: the short strings that follow a
      key "name", from the first array opened after the first "paramList" key up
      to the first array closed after it. */
  ghost function Wanted(es: seq<Event>): seq<string> {
    var key := FirstOf(es, 0, MapKey("paramList"), MapKey("paramList"));
    if key == |es| then []
    else
      var bracket := FirstOf(es, key + 1, StartArray, EndArray);
      if bracket == |es| || es[bracket] == EndArray then []
      else
        var end := FirstOf(es, bracket + 1, EndArray, EndArray);
        Picked(es[bracket + 1..end], end - bracket - 1)
  }

  lemma StreamWithArray(es: seq<Event>, key: nat, bracket: nat, end: nat)
    requires key < bracket < end <= |es|
    requires es[key] == MapKey("paramList") && MapKey("paramList") !in es[..key]
    requires es[bracket] == StartArray
    requires StartArray !in es[key + 1..bracket] && EndArray !in es[key + 1..bracket]
    requires EndArray !in es[bracket + 1..end] && (end < |es| ==> es[end] == EndArray)
    ensures Run(START, es).list == Picked(es[bracket + 1..end], end - bracket - 1)
  {
    hide Picked, Run;
    var a, b, c, d := es[..key], es[key + 1..bracket], es[bracket + 1..end], es[end..];
    CutTwice(es, key, bracket, end);
    CollectsInsideTheArray(a, b, c, d);
  }

  lemma CutOnce<T>(s: seq<T>, i: nat, j: nat)
    requires i < j <= |s|
    ensures s == s[..i] + [s[i]] + s[i + 1..j] + s[j..]
  {
  }

  lemma CutTwice<T>(s: seq<T>, i: nat, j: nat, k: nat)
    requires i < j < k <= |s|
    ensures s == s[..i] + [s[i]] + s[i + 1..j] + [s[j]] + s[j + 1..k] + s[k..]
  {
  }

  lemma StreamWithoutArray(es: seq<Event>, key: nat, bracket: nat)
    requires key < bracket <= |es|
    requires es[key] == MapKey("paramList") && MapKey("paramList") !in es[..key]
    requires StartArray !in es[key + 1..bracket] && EndArray !in es[key + 1..bracket]
    requires bracket < |es| ==> es[bracket] == EndArray
    ensures Run(START, es).list == []
  {
    hide Run;
    var a, b, d := es[..key], es[key + 1..bracket], es[bracket..];
    CutOnce(es, key, bracket);
    CollectsNothingOtherwise(a, b, d);
  }

  /** For every stream at all, also one cut short by a syntax error: the machine
      collects exactly what the stream asks for. */
  lemma CollectsFromAnyStream(es: seq<Event>)
    ensures Run(START, es).list == Wanted(es)
  {
    hide Picked, Run, FirstOf;
    var key := FirstOf(es, 0, MapKey("paramList"), MapKey("paramList"));
    assert es[0..key] == es[..key];
    if key == |es| {
      CollectsNothingOtherwise(es, [], []);
    } else {
      var bracket := FirstOf(es, key + 1, StartArray, EndArray);
      if bracket == |es| || es[bracket] == EndArray {
        StreamWithoutArray(es, key, bracket);
      } else {
        StreamWithArray(es, key, bracket, FirstOf(es, bracket + 1, EndArray, EndArray));
      }
    }
  }
}
