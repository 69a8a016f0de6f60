/** The add and remove events that keep a remote subscriber's instance tables in
    step with the counters of the handlers. */
module TableEvents {
  import opened CText
  import opened Common
  import opened InstancePaths

  // ---------------------------------------------------------------- the subscriber

  datatype EventKind = Add | Remove

  /** A broadcast event carries nothing but a path. */
  datatype Event = Event(kind: EventKind, path: string)

  type Tables = map<string, set<nat>>

  function TableOf(m: Tables, path: string): set<nat> {
    if path in m then m[path] else {}
  }

  /** ADD creates the instance after the last one; REMOVE deletes the named one. */
  function Apply(m: Tables, e: Event): Tables {
    match e.kind
    case Add =>
      var t := TableOf(m, e.path);
      m[e.path := t + {|t| + 1}]
    case Remove =>
      var inst := ReadInstance(e.path);
      m[inst.objectPath := TableOf(m, inst.objectPath) - {inst.n}]
  }

  /** The tables after the events since the last reset, which emptied them. */
  function Replay(log: seq<Event>): Tables {
    if log == [] then map[] else Apply(Replay(log[..|log| - 1]), log[|log| - 1])
  }

  /** The instances 1..n. */
  function UpTo(n: int): (s: set<nat>)
    ensures forall x :: x in s <==> 1 <= x <= n
    ensures n >= 0 ==> |s| == n
    decreases if n <= 0 then 0 else n
  {
    if n <= 0 then {} else UpTo(n - 1) + {n}
  }

  /** What an event adds to the number of instances of an object. */
  function Change(e: Event, path: string): int {
    if e == Event(Add, path) then 1
    else if e.kind == Remove && ReadInstance(e.path).objectPath == path then -1
    else 0
  }

  /** ADD events minus REMOVE events for one object. */
  function Net(log: seq<Event>, path: string): int {
    if log == [] then 0 else Net(log[..|log| - 1], path) + Change(log[|log| - 1], path)
  }

  /** No REMOVE names an instance the subscriber does not have. */
  ghost predicate Clean(log: seq<Event>) {
    forall k :: 0 <= k < |log| && log[k].kind == Remove ==>
      var inst := ReadInstance(log[k].path);
      inst.n in TableOf(Replay(log[..k]), inst.objectPath)
  }

  /** The subscriber has exactly the instances 1..n of the object, and n is what
      the events since the last reset add up to. */
  ghost predicate InStep(log: seq<Event>, path: string, n: int) {
    n >= 0 && TableOf(Replay(log), path) == UpTo(n) && Net(log, path) == n
  }

  predicate IsObjectPath(path: string) {
    path != "" && !IsDigit(path[|path| - 1])
  }

  function AddEvent(path: string): Event {
    Event(Add, path)
  }

  function RemoveEvent(path: string, n: int): Event {
    Event(Remove, InstancePath(path, n))
  }

  lemma ReplaySnoc(log: seq<Event>, e: Event, path: string)
    ensures Replay(log + [e]) == Apply(Replay(log), e)
    ensures Net(log + [e], path) == Net(log, path) + Change(e, path)
  {
    assert (log + [e])[..|log|] == log;
  }

  lemma CleanSnoc(log: seq<Event>, e: Event)
    requires Clean(log)
    requires e.kind == Remove ==>
               var inst := ReadInstance(e.path); inst.n in TableOf(Replay(log), inst.objectPath)
    ensures Clean(log + [e])
  {
    var after := log + [e];
    forall k | 0 <= k < |after| && after[k].kind == Remove
      ensures var inst := ReadInstance(after[k].path);
              inst.n in TableOf(Replay(after[..k]), inst.objectPath)
    {
      assert after[..k] == log[..k];
      assert log[..|log|] == log;
    }
  }

  /** One ADD appends the next instance. */
  lemma AddKeepsStep(log: seq<Event>, path: string, n: int)
    requires InStep(log, path, n) && Clean(log)
    ensures InStep(log + [AddEvent(path)], path, n + 1) && Clean(log + [AddEvent(path)])
  {
    ReplaySnoc(log, AddEvent(path), path);
    CleanSnoc(log, AddEvent(path));
  }

  /** One REMOVE of the last instance names a present one. */
  lemma RemoveKeepsStep(log: seq<Event>, path: string, n: int)
    requires IsObjectPath(path)
    requires InStep(log, path, n) && Clean(log) && n > 0
    ensures InStep(log + [RemoveEvent(path, n)], path, n - 1) && Clean(log + [RemoveEvent(path, n)])
  {
    ReadPrintedInstance(path, n);
    ReplaySnoc(log, RemoveEvent(path, n), path);
    CleanSnoc(log, RemoveEvent(path, n));
    assert UpTo(n) - {n} == UpTo(n - 1);
  }

  /** Neither touches another object. */
  lemma OthersKeepStep(log: seq<Event>, path: string, n: nat, other: string, m: int)
    requires IsObjectPath(path) && other != path
    requires InStep(log, other, m)
    ensures InStep(log + [AddEvent(path)], other, m)
    ensures InStep(log + [RemoveEvent(path, n)], other, m)
  {
    ReadPrintedInstance(path, n);
    ReplaySnoc(log, AddEvent(path), other);
    ReplaySnoc(log, RemoveEvent(path, n), other);
  }

  // ------------------------------------------------------------ sendAddRemoveEvents

  /** The state one call works on: the events since the last reset, the saved
      counter, whether a reset fell into the call, and the resets still to come.
      Entry k of the schedule says whether a reset falls before loop test k. */
  datatype Poll = Poll(log: seq<Event>, saved: int, reset: bool, schedule: seq<bool>) {
    function Interrupt(): Poll {
      if schedule == [] then this
      else if schedule[0] then Poll([], 0, true, schedule[1..])
      else this.(schedule := schedule[1..])
    }
  }

  function Distance(a: int, b: int): nat {
    if a < b then b - a else a - b
  }

  function RemoveOne(path: string, p: Poll): Poll {
    p.(log := p.log + [RemoveEvent(path, p.saved)], saved := p.saved - 1).Interrupt()
  }

  function AddOne(path: string, p: Poll): Poll {
    p.(log := p.log + [AddEvent(path)], saved := p.saved + 1).Interrupt()
  }

  /** The two loops of sendAddRemoveEvents, the second one when `adding`. */
  function RunPoll(path: string, newValue: int, adding: bool, p: Poll): Poll
    decreases |p.schedule|, !adding, Distance(p.saved, newValue)
  {
    if !adding then
      if p.saved > newValue then RunPoll(path, newValue, false, RemoveOne(path, p))
      else RunPoll(path, newValue, true, p)
    else if p.saved < newValue then RunPoll(path, newValue, true, AddOne(path, p))
    else p
  }

  lemma FreshTablesAreInStep(path: string)
    ensures InStep([], path, 0) && Clean([])
  {
  }

  lemma RemoveOneKeeps(path: string, p: Poll)
    requires IsObjectPath(path) && InStep(p.log, path, p.saved) && Clean(p.log) && p.saved > 0
    ensures var q := RemoveOne(path, p); InStep(q.log, path, q.saved) && Clean(q.log)
  {
    hide InStep, Clean, RemoveEvent, AddEvent;
    RemoveKeepsStep(p.log, path, p.saved);
    FreshTablesAreInStep(path);
  }

  lemma AddOneKeeps(path: string, p: Poll)
    requires InStep(p.log, path, p.saved) && Clean(p.log)
    ensures var q := AddOne(path, p); InStep(q.log, path, q.saved) && Clean(q.log)
  {
    hide InStep, Clean, RemoveEvent, AddEvent;
    AddKeepsStep(p.log, path, p.saved);
    FreshTablesAreInStep(path);
  }

  /** The replay theorem for one call: with any resets falling between the loop
      iterations the call ends with the counter at the new value and the
      subscriber in step, and no REMOVE named an absent instance. */
  lemma {:induction false} PollKeepsStep(path: string, newValue: int, adding: bool, p: Poll)
    requires IsObjectPath(path) && newValue >= 0
    requires InStep(p.log, path, p.saved) && Clean(p.log)
    requires adding ==> p.saved <= newValue
    ensures var q := RunPoll(path, newValue, adding, p);
            q.saved == newValue && InStep(q.log, path, newValue) && Clean(q.log)
    decreases |p.schedule|, !adding, Distance(p.saved, newValue)
  {
    hide InStep, Clean, RemoveEvent, AddEvent;
    if !adding && p.saved > newValue {
      RemoveOneKeeps(path, p);
      PollKeepsStep(path, newValue, false, RemoveOne(path, p));
    } else if !adding {
      PollKeepsStep(path, newValue, true, p);
    } else if p.saved < newValue {
      AddOneKeeps(path, p);
      PollKeepsStep(path, newValue, true, AddOne(path, p));
    }
  }

  /** The other objects are left alone, or back at zero after a reset. */
  lemma {:induction false} PollKeepsOthers(path: string, newValue: int, adding: bool, p: Poll,
                                           other: string, m: int)
    requires IsObjectPath(path) && newValue >= 0 && other != path && p.saved >= 0
    requires InStep(p.log, other, if p.reset then 0 else m)
    ensures var q := RunPoll(path, newValue, adding, p);
            InStep(q.log, other, if q.reset then 0 else m)
    decreases |p.schedule|, !adding, Distance(p.saved, newValue)
  {
    hide InStep, RemoveEvent, AddEvent;
    FreshTablesAreInStep(other);
    if !adding && p.saved > newValue {
      OthersKeepStep(p.log, path, p.saved, other, if p.reset then 0 else m);
      PollKeepsOthers(path, newValue, false, RemoveOne(path, p), other, m);
    } else if !adding {
      PollKeepsOthers(path, newValue, true, p, other, m);
    } else if p.saved < newValue {
      OthersKeepStep(p.log, path, p.saved, other, if p.reset then 0 else m);
      PollKeepsOthers(path, newValue, true, AddOne(path, p), other, m);
    }
  }

  /** A reset may fall before the first loop test already. */
  lemma StartsInStep(log: seq<Event>, path: string, n: int, schedule: seq<bool>)
    requires InStep(log, path, n) && Clean(log)
    ensures var p := Poll(log, n, false, schedule).Interrupt();
            InStep(p.log, path, p.saved) && Clean(p.log) && p.saved >= 0
  {
    FreshTablesAreInStep(path);
  }

  lemma OtherStartsInStep(log: seq<Event>, n: int, schedule: seq<bool>, other: string, m: int)
    requires InStep(log, other, m)
    ensures var p := Poll(log, n, false, schedule).Interrupt();
            InStep(p.log, other, if p.reset then 0 else m)
  {
    FreshTablesAreInStep(other);
  }

  /** What a call without resets emits: REMOVEs from the last instance down, or ADDs. */
  function Burst(path: string, saved: int, newValue: int): (es: seq<Event>)
    ensures |es| == Distance(saved, newValue)
    decreases Distance(saved, newValue)
  {
    if saved > newValue then [RemoveEvent(path, saved)] + Burst(path, saved - 1, newValue)
    else if saved < newValue then [AddEvent(path)] + Burst(path, saved + 1, newValue)
    else []
  }

  /** The events of a burst, letter by letter. */
  lemma {:induction false} BurstByPosition(path: string, saved: int, newValue: int, i: nat)
    requires i < |Burst(path, saved, newValue)|
    ensures Burst(path, saved, newValue)[i]
            == if saved > newValue then Event(Remove, path + IntText(saved - i) + ".") else Event(Add, path)
    decreases i
  {
    hide IntText;
    if i > 0 {
      BurstByPosition(path, if saved > newValue then saved - 1 else saved + 1, newValue, i - 1);
    }
  }

  /** Without resets: exactly |new - saved| events, in that order. */
  lemma {:induction false} QuietPoll(path: string, newValue: int, adding: bool, p: Poll)
    requires true !in p.schedule
    requires adding ==> p.saved <= newValue
    ensures var q := RunPoll(path, newValue, adding, p);
            q.log == p.log + Burst(path, p.saved, newValue) && q.reset == p.reset && q.saved == newValue
    decreases |p.schedule|, !adding, Distance(p.saved, newValue)
  {
    hide RemoveEvent, AddEvent, Burst;
    BurstUnfolds(path, p.saved, newValue);
    if !adding && p.saved > newValue {
      QuietPoll(path, newValue, false, RemoveOne(path, p));
      Associative(p.log, [RemoveEvent(path, p.saved)], Burst(path, p.saved - 1, newValue));
    } else if !adding {
      QuietPoll(path, newValue, true, p);
    } else if p.saved < newValue {
      QuietPoll(path, newValue, true, AddOne(path, p));
      Associative(p.log, [AddEvent(path)], Burst(path, p.saved + 1, newValue));
    } else {
      assert p.log + [] == p.log;
    }
  }

  lemma BurstUnfolds(path: string, saved: int, newValue: int)
    ensures saved > newValue ==>
              Burst(path, saved, newValue) == [RemoveEvent(path, saved)] + Burst(path, saved - 1, newValue)
    ensures saved < newValue ==>
              Burst(path, saved, newValue) == [AddEvent(path)] + Burst(path, saved + 1, newValue)
    ensures saved == newValue ==> Burst(path, saved, newValue) == []
  {
  }

  lemma {:induction false} QuietStaysQuiet(path: string, newValue: int, adding: bool, p: Poll)
    requires true !in p.schedule
    ensures true !in RunPoll(path, newValue, adding, p).schedule
    decreases |p.schedule|, !adding, Distance(p.saved, newValue)
  {
    if !adding && p.saved > newValue {
      QuietStaysQuiet(path, newValue, false, RemoveOne(path, p));
    } else if !adding {
      QuietStaysQuiet(path, newValue, true, p);
    } else if p.saved < newValue {
      QuietStaysQuiet(path, newValue, true, AddOne(path, p));
    }
  }

  lemma UncleanStays(log: seq<Event>, e: Event)
    requires !Clean(log)
    ensures !Clean(log + [e])
  {
    var after := log + [e];
    var k :| 0 <= k < |log| && log[k].kind == Remove
      && var inst := ReadInstance(log[k].path); inst.n !in TableOf(Replay(log[..k]), inst.objectPath);
    assert after[k] == log[k] && after[..k] == log[..k];
  }

  /** A negative count is the exact case in which a REMOVE names an absent
      instance, whatever resets fall in: after the last of them the counter goes
      through zero once more. */
  lemma AbsentRemoveIff(path: string, newValue: int, p: Poll)
    requires IsObjectPath(path) && InStep(p.log, path, p.saved) && Clean(p.log)
    ensures Clean(RunPoll(path, newValue, false, p).log) <==> newValue >= 0
  {
    if newValue >= 0 {
      PollKeepsStep(path, newValue, false, p);
    } else {
      PassesZero(path, newValue, p);
    }
  }

  lemma {:induction false} PassesZero(path: string, newValue: int, p: Poll)
    requires IsObjectPath(path) && newValue < 0 && p.saved >= newValue
    requires Clean(p.log) ==> InStep(p.log, path, p.saved)
    ensures !Clean(RunPoll(path, newValue, false, p).log)
    decreases |p.schedule|, Distance(p.saved, newValue)
  {
    hide InStep, Clean, RemoveEvent;
    if p.saved > newValue {
      var q := RemoveOne(path, p);
      FreshTablesAreInStep(path);
      RemoveTowardZero(path, p);
      PassesZero(path, newValue, q);
    } else if Clean(p.log) {
      InStepIsNotNegative(p.log, path, p.saved);
    }
  }

  lemma InStepIsNotNegative(log: seq<Event>, path: string, n: int)
    requires InStep(log, path, n)
    ensures n >= 0
  {
  }

  /** A REMOVE keeps the subscriber in step until the counter is zero, and then
      names an absent instance. */
  lemma RemoveTowardZero(path: string, p: Poll)
    requires IsObjectPath(path)
    requires Clean(p.log) ==> InStep(p.log, path, p.saved)
    ensures var after := p.log + [RemoveEvent(path, p.saved)];
            Clean(after) ==> InStep(after, path, p.saved - 1)
  {
    hide Replay, Net, RemoveEvent, Clean;
    var e := RemoveEvent(path, p.saved);
    if !Clean(p.log) {
      UncleanStays(p.log, e);
    } else if p.saved > 0 {
      RemoveKeepsStep(p.log, path, p.saved);
    } else {
      RemoveAtZero(p.log, path);
    }
  }

  lemma RemoveAtZero(log: seq<Event>, path: string)
    requires IsObjectPath(path) && InStep(log, path, 0)
    ensures !Clean(log + [RemoveEvent(path, 0)])
  {
    var after := log + [RemoveEvent(path, 0)];
    ReadPrintedInstance(path, 0);
    assert after[|log|] == RemoveEvent(path, 0) && after[..|log|] == log;
    assert 0 !in TableOf(Replay(after[..|log|]), path);
  }
}
