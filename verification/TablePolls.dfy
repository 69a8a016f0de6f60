/** What a poll of IPClientReqHandler emits when no reset falls into it, and a
    subscriber that drops the tables below an instance together with it. */
module TablePolls {
  import opened Common
  import opened InstancePaths
  import opened TableEvents

  const SLOTS: nat := 100

  predicate InRange(t: Table) {
    t.Interfaces? || t.i < SLOTS
  }

  /** What one poll reads from the system; the counts are those of interface i. */
  datatype Readings = Readings(countOk: bool, entries: nat, ipv4: nat -> nat, ipv6: nat -> nat, prefixes: nat -> nat)

  function Reading(r: Readings, t: Table): nat {
    match t
    case Interfaces => r.entries
    case IPv4Addresses(i) => r.ipv4(i)
    case IPv6Addresses(i) => r.ipv6(i)
    case IPv6Prefixes(i) => r.prefixes(i)
  }

  /** The saved counters. */
  datatype Counts = Counts(interfaces: int, ipv4: seq<int>, ipv6: seq<int>, prefixes: seq<int>) {
    predicate Shape() {
      |ipv4| == |ipv6| == |prefixes| == SLOTS
    }

    function At(t: Table): int
      requires Shape() && InRange(t)
    {
      match t
      case Interfaces => interfaces
      case IPv4Addresses(i) => ipv4[i]
      case IPv6Addresses(i) => ipv6[i]
      case IPv6Prefixes(i) => prefixes[i]
    }
  }

  /** Whether interface i's turn of a poll looks at t. */
  predicate InTurn(ipv6: bool, i: nat, t: Table) {
    !t.Interfaces? && t.i == i && (ipv6 || t.IPv4Addresses?)
  }

  /** Whether a poll that read r has looked at t when its loop stands at `bound`. */
  predicate Polled(r: Readings, ipv6: bool, t: Table, bound: int) {
    r.countOk && (t.Interfaces? || (1 <= t.i < bound && InTurn(ipv6, t.i, t)))
  }

  function TableBurst(s: Counts, r: Readings, t: Table): seq<Event>
    requires s.Shape() && InRange(t)
  {
    Burst(ObjectPath(t), s.At(t), Reading(r, t))
  }

  /** The events of interface i's turn. */
  function TurnEvents(s: Counts, r: Readings, ipv6: bool, i: nat): seq<Event>
    requires s.Shape() && i < SLOTS
  {
    TableBurst(s, r, IPv4Addresses(i))
    + if ipv6 then TableBurst(s, r, IPv6Addresses(i)) + TableBurst(s, r, IPv6Prefixes(i)) else []
  }

  /** The events of the turns 1..n. */
  function TurnsUpTo(s: Counts, r: Readings, ipv6: bool, n: nat): seq<Event>
    requires s.Shape() && n < SLOTS
  {
    if n == 0 then [] else TurnsUpTo(s, r, ipv6, n - 1) + TurnEvents(s, r, ipv6, n)
  }

  /** The events of a whole poll. */
  function PollEvents(s: Counts, r: Readings, ipv6: bool): seq<Event>
    requires s.Shape() && (r.countOk ==> r.entries < SLOTS)
  {
    if r.countOk then TableBurst(s, r, Interfaces) + TurnsUpTo(s, r, ipv6, r.entries) else []
  }

  /** The counter of t after the poll. */
  function CountAfter(s: Counts, r: Readings, ipv6: bool, t: Table): int
    requires s.Shape() && InRange(t)
  {
    if Polled(r, ipv6, t, r.entries + 1) then Reading(r, t) else s.At(t)
  }

  // ------------------------------------------------ the cascading subscriber

  /** For this subscriber removing an instance also removes the tables below it. */
  function ApplyCascade(m: Tables, e: Event): Tables {
    if e.kind == Add then Apply(m, e) else Apply(map k | k in m && !(e.path <= k) :: m[k], e)
  }

  function ReplayCascade(log: seq<Event>): Tables {
    if log == [] then map[] else ApplyCascade(ReplayCascade(log[..|log| - 1]), log[|log| - 1])
  }

  function CascadeTable(log: seq<Event>, t: Table): set<nat> {
    TableOf(ReplayCascade(log), ObjectPath(t))
  }

  lemma CascadeAdd(log: seq<Event>, u: Table, n: nat, t: Table)
    requires u == t ==> CascadeTable(log, t) == UpTo(n)
    ensures CascadeTable(log + [AddEvent(ObjectPath(u))], t) == if u == t then UpTo(n + 1) else CascadeTable(log, t)
  {
    hide ObjectPath, ReadInstance;
    var e := AddEvent(ObjectPath(u));
    assert (log + [e])[..|log|] == log;
    if ObjectPath(u) == ObjectPath(t) {
      ObjectPathInjective(u, t);
    }
  }

  /** What a REMOVE leaves of a table. */
  function Left(u: Table, n: nat, t: Table, before: set<nat>): set<nat> {
    if u == t then before - {n} else if u.Interfaces? && t.i == n then {} else before
  }

  /** A REMOVE takes the named instance away, and the tables below it. */
  lemma CascadeRemove(log: seq<Event>, u: Table, n: nat, t: Table)
    ensures CascadeTable(log + [RemoveEvent(ObjectPath(u), n)], t) == Left(u, n, t, CascadeTable(log, t))
  {
    hide ObjectPath, ReadInstance, InstancePath;
    var e := RemoveEvent(ObjectPath(u), n);
    assert (log + [e])[..|log|] == log;
    ObjectPathEndsInDot(u);
    ReadPrintedInstance(ObjectPath(u), n);
    BelowIff(u, n, t);
    if ObjectPath(u) == ObjectPath(t) {
      ObjectPathInjective(u, t);
    }
  }

  /** What a burst for table u leaves in table t. */
  function AfterBurst(u: Table, saved: nat, newValue: nat, t: Table, before: set<nat>): set<nat> {
    if u == t then UpTo(newValue) else if u.Interfaces? && newValue < t.i <= saved then {} else before
  }

  lemma AfterRemove(u: Table, saved: nat, newValue: nat, t: Table, before: set<nat>)
    requires saved > newValue && (u == t ==> before == UpTo(saved))
    ensures u == t ==> Left(u, saved, t, before) == UpTo(saved - 1)
    ensures AfterBurst(u, saved - 1, newValue, t, Left(u, saved, t, before))
            == AfterBurst(u, saved, newValue, t, before)
  {
    assert UpTo(saved) - {saved} == UpTo(saved - 1);
  }

  lemma {:induction false} CascadeBurst(log: seq<Event>, u: Table, saved: nat, newValue: nat, t: Table)
    requires u == t ==> CascadeTable(log, t) == UpTo(saved)
    ensures CascadeTable(log + Burst(ObjectPath(u), saved, newValue), t)
            == AfterBurst(u, saved, newValue, t, CascadeTable(log, t))
    decreases Distance(saved, newValue)
  {
    hide ObjectPath, CascadeTable, RemoveEvent, AddEvent, Left, UpTo;
    var path := ObjectPath(u);
    if saved > newValue {
      var e := RemoveEvent(path, saved);
      CascadeRemove(log, u, saved, t);
      AfterRemove(u, saved, newValue, t, CascadeTable(log, t));
      CascadeBurst(log + [e], u, saved - 1, newValue, t);
      Associative(log, [e], Burst(path, saved - 1, newValue));
    } else if saved < newValue {
      var e := AddEvent(path);
      CascadeAdd(log, u, saved, t);
      CascadeBurst(log + [e], u, saved + 1, newValue, t);
      Associative(log, [e], Burst(path, saved + 1, newValue));
    } else {
      assert log + [] == log;
    }
  }

  /** No counter is negative. */
  ghost predicate Counted(s: Counts) {
    s.Shape() && forall t | InRange(t) :: s.At(t) >= 0
  }

  lemma CascadeTurn(log: seq<Event>, s: Counts, r: Readings, ipv6: bool, i: nat, t: Table)
    requires Counted(s) && i < SLOTS && InRange(t)
    requires InTurn(ipv6, i, t) ==> CascadeTable(log, t) == UpTo(s.At(t))
    ensures CascadeTable(log + TurnEvents(s, r, ipv6, i), t)
            == if InTurn(ipv6, i, t) then UpTo(Reading(r, t)) else CascadeTable(log, t)
  {
    hide ObjectPath, ReplayCascade, CascadeTable, Burst;
    var a, b, c := IPv4Addresses(i), IPv6Addresses(i), IPv6Prefixes(i);
    var first := log + TableBurst(s, r, a);
    CascadeBurst(log, a, s.At(a), r.ipv4(i), t);
    if ipv6 {
      CascadeBurst(first, b, s.At(b), r.ipv6(i), t);
      CascadeBurst(first + TableBurst(s, r, b), c, s.At(c), r.prefixes(i), t);
      Associative(first, TableBurst(s, r, b), TableBurst(s, r, c));
      Associative(log, TableBurst(s, r, a), TableBurst(s, r, b) + TableBurst(s, r, c));
    } else {
      Associative(log, TableBurst(s, r, a), []);
      assert first + [] == first;
    }
  }

  lemma {:induction false} CascadeTurns(log: seq<Event>, s: Counts, r: Readings, ipv6: bool, n: nat, t: Table)
    requires Counted(s) && n < SLOTS && InRange(t)
    requires !t.Interfaces? && 1 <= t.i <= n ==> CascadeTable(log, t) == UpTo(s.At(t))
    ensures CascadeTable(log + TurnsUpTo(s, r, ipv6, n), t)
            == if !t.Interfaces? && 1 <= t.i <= n && InTurn(ipv6, t.i, t) then UpTo(Reading(r, t))
               else CascadeTable(log, t)
  {
    hide ObjectPath, CascadeTable, TurnEvents, UpTo, Reading;
    if n == 0 {
      assert log + [] == log;
    } else {
      CascadeTurns(log, s, r, ipv6, n - 1, t);
      CascadeTurn(log + TurnsUpTo(s, r, ipv6, n - 1), s, r, ipv6, n, t);
      Associative(log, TurnsUpTo(s, r, ipv6, n - 1), TurnEvents(s, r, ipv6, n));
    }
  }

  /** The poll takes the interface of t away. */
  predicate Removed(s: Counts, r: Readings, t: Table) {
    r.countOk && !t.Interfaces? && r.entries < t.i <= s.interfaces
  }

  /** From a state in step, a poll without resets leaves a cascading subscriber in
      step with the counter of every table, except of exactly those below a removed
      interface whose counter was not zero: the poll leaves it as it was. */
  lemma NestedInStepIff(log: seq<Event>, s: Counts, r: Readings, ipv6: bool, t: Table)
    requires Counted(s) && InRange(t) && (r.countOk ==> r.entries < SLOTS)
    requires forall u | InRange(u) :: CascadeTable(log, u) == UpTo(s.At(u))
    ensures CascadeTable(log + PollEvents(s, r, ipv6), t) == UpTo(CountAfter(s, r, ipv6, t))
            <==> !(Removed(s, r, t) && s.At(t) != 0)
  {
    hide ObjectPath, CascadeTable, Burst, TurnsUpTo;
    if r.countOk {
      var gone := TableBurst(s, r, Interfaces);
      CascadeBurst(log, Interfaces, s.interfaces, r.entries, t);
      CascadeTurns(log + gone, s, r, ipv6, r.entries, t);
      Associative(log, gone, TurnsUpTo(s, r, ipv6, r.entries));
      if s.At(t) > 0 {
        assert 1 in UpTo(s.At(t));
      }
    } else {
      assert log + [] == log;
    }
  }
}
