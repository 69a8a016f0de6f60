/** The two handlers that report instance tables: IPClientReqHandler through
    sendAddRemoveEvents, and EthernetClientReqHandler with its own older loop. */
module TableHandlers {
  import opened CText
  import opened Common
  import opened InstancePaths
  import opened TableEvents
  import opened TablePolls

  class IPClientReqHandler {
    var curNumOfIPInterface: int
    const curNumOfInterfaceIPv4Addresses: array<int>
    const curNumOfInterfaceIPv6Addresses: array<int>
    const curNumOfInterfaceIPv6Prefixes: array<int>

    /** The events broadcast since the subscriber last registered. */
    var log: seq<Event>

    ghost predicate Shape() {
      && curNumOfInterfaceIPv4Addresses.Length == SLOTS
      && curNumOfInterfaceIPv6Addresses.Length == SLOTS
      && curNumOfInterfaceIPv6Prefixes.Length == SLOTS
      && curNumOfInterfaceIPv4Addresses != curNumOfInterfaceIPv6Addresses
      && curNumOfInterfaceIPv4Addresses != curNumOfInterfaceIPv6Prefixes
      && curNumOfInterfaceIPv6Addresses != curNumOfInterfaceIPv6Prefixes
    }

    function Counters(t: Table): array<int>
      requires !t.Interfaces?
    {
      match t
      case IPv4Addresses(_) => curNumOfInterfaceIPv4Addresses
      case IPv6Addresses(_) => curNumOfInterfaceIPv6Addresses
      case IPv6Prefixes(_) => curNumOfInterfaceIPv6Prefixes
    }

    /** The saved counter that sendAddRemoveEvents gets by reference. */
    function Saved(t: Table): int
      requires Shape() && InRange(t)
      reads this, curNumOfInterfaceIPv4Addresses, curNumOfInterfaceIPv6Addresses, curNumOfInterfaceIPv6Prefixes
    {
      if t.Interfaces? then curNumOfIPInterface else Counters(t)[t.i]
    }

    function Snapshot(): (s: Counts)
      requires Shape()
      reads this, curNumOfInterfaceIPv4Addresses, curNumOfInterfaceIPv6Addresses, curNumOfInterfaceIPv6Prefixes
      ensures s.Shape() && forall t | InRange(t) :: s.At(t) == Saved(t)
    {
      Counts(curNumOfIPInterface, curNumOfInterfaceIPv4Addresses[..], curNumOfInterfaceIPv6Addresses[..],
             curNumOfInterfaceIPv6Prefixes[..])
    }

    /** In every reachable state the subscriber's table of every object is
        {1..saved}, and every REMOVE so far named a present instance. */
    ghost predicate Valid()
      reads this, curNumOfInterfaceIPv4Addresses, curNumOfInterfaceIPv6Addresses, curNumOfInterfaceIPv6Prefixes
    {
      && Shape()
      && Clean(log)
      && forall t | InRange(t) :: InStep(log, ObjectPath(t), Saved(t))
    }

    constructor ()
      ensures Valid() && log == []
      ensures curNumOfInterfaceIPv4Addresses.Length == curNumOfInterfaceIPv6Addresses.Length
              == curNumOfInterfaceIPv6Prefixes.Length == 100
      ensures fresh(curNumOfInterfaceIPv4Addresses) && fresh(curNumOfInterfaceIPv6Addresses)
      ensures fresh(curNumOfInterfaceIPv6Prefixes)
    {
      curNumOfIPInterface := 0;
      curNumOfInterfaceIPv4Addresses := new int[SLOTS](_ => 0);
      curNumOfInterfaceIPv6Addresses := new int[SLOTS](_ => 0);
      curNumOfInterfaceIPv6Prefixes := new int[SLOTS](_ => 0);
      log := [];
    }

    method SetSaved(t: Table, n: int)
      requires Shape() && InRange(t)
      modifies this`curNumOfIPInterface
      modifies curNumOfInterfaceIPv4Addresses, curNumOfInterfaceIPv6Addresses, curNumOfInterfaceIPv6Prefixes
      ensures Saved(t) == n
      ensures forall u | InRange(u) && u != t :: Saved(u) == old(Saved(u))
    {
      if t.Interfaces? {
        curNumOfIPInterface := n;
      } else {
        Counters(t)[t.i] := n;
      }
    }

    /** reset: a subscriber registered, with empty tables. */
    method Reset()
      requires Shape()
      modifies this, curNumOfInterfaceIPv4Addresses, curNumOfInterfaceIPv6Addresses, curNumOfInterfaceIPv6Prefixes
      ensures Valid() && log == []
      ensures forall t | InRange(t) :: Saved(t) == 0
    {
      hide InStep, ObjectPath;
      curNumOfIPInterface := 0;
      forall i | 0 <= i < SLOTS {
        curNumOfInterfaceIPv4Addresses[i] := 0;
      }
      forall i | 0 <= i < SLOTS {
        curNumOfInterfaceIPv6Addresses[i] := 0;
      }
      forall i | 0 <= i < SLOTS {
        curNumOfInterfaceIPv6Prefixes[i] := 0;
      }
      log := [];
      forall t | InRange(t) ensures InStep(log, ObjectPath(t), Saved(t)) {
        FreshTablesAreInStep(ObjectPath(t));
      }
    }

    /** A reset from another thread, if the schedule has one here. */
    method Interrupt(reset0: bool, schedule: seq<bool>) returns (reset: bool, rest: seq<bool>)
      requires Shape()
      modifies this, curNumOfInterfaceIPv4Addresses, curNumOfInterfaceIPv6Addresses, curNumOfInterfaceIPv6Prefixes
      ensures var hit := schedule != [] && schedule[0];
              && reset == (reset0 || hit)
              && rest == (if schedule == [] then [] else schedule[1..])
              && log == (if hit then [] else old(log))
              && forall t | InRange(t) :: Saved(t) == if hit then 0 else old(Saved(t))
    {
      reset, rest := reset0, schedule;
      if schedule != [] {
        rest := schedule[1..];
        if schedule[0] {
          Reset();
          reset := true;
        }
      }
    }

    /** One turn of the first loop. */
    method RemoveTurn(t: Table, reset0: bool, schedule: seq<bool>) returns (reset: bool, rest: seq<bool>)
      requires Shape() && InRange(t)
      modifies this, curNumOfInterfaceIPv4Addresses, curNumOfInterfaceIPv6Addresses, curNumOfInterfaceIPv6Prefixes
      ensures Poll(log, Saved(t), reset, rest)
              == RemoveOne(ObjectPath(t), Poll(old(log), old(Saved(t)), reset0, schedule))
      ensures var hit := schedule != [] && schedule[0];
              && reset == (reset0 || hit)
              && forall u | InRange(u) && u != t :: Saved(u) == if hit then 0 else old(Saved(u))
    {
      hide ObjectPath, InstancePath;
      log := log + [RemoveEvent(ObjectPath(t), Saved(t))];
      SetSaved(t, Saved(t) - 1);
      reset, rest := Interrupt(reset0, schedule);
    }

    /** One turn of the second loop. */
    method AddTurn(t: Table, reset0: bool, schedule: seq<bool>) returns (reset: bool, rest: seq<bool>)
      requires Shape() && InRange(t)
      modifies this, curNumOfInterfaceIPv4Addresses, curNumOfInterfaceIPv6Addresses, curNumOfInterfaceIPv6Prefixes
      ensures Poll(log, Saved(t), reset, rest)
              == AddOne(ObjectPath(t), Poll(old(log), old(Saved(t)), reset0, schedule))
      ensures var hit := schedule != [] && schedule[0];
              && reset == (reset0 || hit)
              && forall u | InRange(u) && u != t :: Saved(u) == if hit then 0 else old(Saved(u))
    {
      hide ObjectPath, InstancePath;
      log := log + [AddEvent(ObjectPath(t))];
      SetSaved(t, Saved(t) + 1);
      reset, rest := Interrupt(reset0, schedule);
    }

    /** The two loops of sendAddRemoveEvents. */
    method Loops(t: Table, newValue: int, schedule: seq<bool>) returns (reset: bool, rest: seq<bool>)
      requires Shape() && InRange(t)
      modifies this, curNumOfInterfaceIPv4Addresses, curNumOfInterfaceIPv6Addresses, curNumOfInterfaceIPv6Prefixes
      ensures Poll(log, Saved(t), reset, rest) == Call(old(log), t, old(Saved(t)), newValue, schedule)
      ensures forall u | InRange(u) && u != t :: Saved(u) == if reset then 0 else old(Saved(u))
    {
      hide RemoveEvent, AddEvent, ObjectPath;
      ghost var path := ObjectPath(t);
      ghost var end := Call(log, t, Saved(t), newValue, schedule);
      reset, rest := Interrupt(false, schedule);
      while Saved(t) > newValue
        invariant RunPoll(path, newValue, false, Poll(log, Saved(t), reset, rest)) == end
        invariant forall u | InRange(u) && u != t :: Saved(u) == if reset then 0 else old(Saved(u))
        decreases |rest|, Distance(Saved(t), newValue)
      {
        reset, rest := RemoveTurn(t, reset, rest);
      }
      while Saved(t) < newValue
        invariant RunPoll(path, newValue, true, Poll(log, Saved(t), reset, rest)) == end
        invariant forall u | InRange(u) && u != t :: Saved(u) == if reset then 0 else old(Saved(u))
        decreases |rest|, Distance(Saved(t), newValue)
      {
        reset, rest := AddTurn(t, reset, rest);
      }
    }

    /** sendAddRemoveEvents for one object, with resets falling where the schedule
        puts them. */
    method SendAddRemoveEvents(t: Table, newValue: nat, schedule: seq<bool>)
      returns (reset: bool, rest: seq<bool>)
      requires Valid() && InRange(t)
      modifies this, curNumOfInterfaceIPv4Addresses, curNumOfInterfaceIPv6Addresses, curNumOfInterfaceIPv6Prefixes
      ensures Valid() && Saved(t) == newValue
      ensures forall u | InRange(u) && u != t :: Saved(u) == if reset then 0 else old(Saved(u))
      ensures true !in schedule ==>
                !reset && true !in rest
                && log == old(log) + Burst(ObjectPath(t), old(Saved(t)), newValue)
    {
      hide InStep, Clean, ObjectPath, RunPoll;
      reset, rest := Loops(t, newValue, schedule);
      CallKeepsStep(old(log), t, old(Saved(t)), newValue, schedule);
      forall u | InRange(u) && u != t ensures InStep(log, ObjectPath(u), Saved(u)) {
        CallKeepsOthers(old(log), t, old(Saved(t)), newValue, schedule, u, old(Saved(u)));
      }
    }

    /** The three calls for interface i. */
    method PollInterface(i: nat, r: Readings, ipv6: bool, schedule: seq<bool>) returns (rest: seq<bool>)
      requires Valid() && i < SLOTS
      modifies this, curNumOfInterfaceIPv4Addresses, curNumOfInterfaceIPv6Addresses, curNumOfInterfaceIPv6Prefixes
      ensures Valid()
      ensures true !in schedule ==>
                && true !in rest && log == old(log) + TurnEvents(old(Snapshot()), r, ipv6, i)
                && forall t | InRange(t) :: Saved(t) == if InTurn(ipv6, i, t) then Reading(r, t) else old(Saved(t))
    {
      hide InStep, Clean, ObjectPath, Burst;
      ghost var s, before := Snapshot(), log;
      var reset: bool;
      reset, rest := SendAddRemoveEvents(IPv4Addresses(i), r.ipv4(i), schedule);
      if ipv6 {
        reset, rest := SendAddRemoveEvents(IPv6Addresses(i), r.ipv6(i), rest);
        reset, rest := SendAddRemoveEvents(IPv6Prefixes(i), r.prefixes(i), rest);
      }
      TurnIsThreeBursts(before, s, r, ipv6, i);
    }

    /** The add and remove part of checkForUpdates. Whatever resets fall in, the
        subscriber ends in step with every counter. Without resets the events are
        those of the poll and the counters the ones just read; and a subscriber that
        cascades stays in step except with the counters left behind. */
    method CheckForUpdates(callback: bool, r: Readings, ipv6: bool, schedule: seq<bool>)
      requires Valid() && (r.countOk ==> r.entries < SLOTS)
      modifies this, curNumOfInterfaceIPv4Addresses, curNumOfInterfaceIPv6Addresses, curNumOfInterfaceIPv6Prefixes
      ensures Valid()
      ensures !callback ==> log == old(log) && forall t | InRange(t) :: Saved(t) == old(Saved(t))
      ensures callback && true !in schedule ==>
                && log == old(log) + PollEvents(old(Snapshot()), r, ipv6)
                && forall t | InRange(t) :: Saved(t) == CountAfter(old(Snapshot()), r, ipv6, t)
      ensures callback && r.countOk && true !in schedule ==>
                && curNumOfIPInterface == r.entries
                && forall i | 1 <= i <= r.entries ::
                     && curNumOfInterfaceIPv4Addresses[i] == r.ipv4(i)
                     && (ipv6 ==> curNumOfInterfaceIPv6Addresses[i] == r.ipv6(i)
                                  && curNumOfInterfaceIPv6Prefixes[i] == r.prefixes(i))
      ensures callback && true !in schedule && old(forall t | InRange(t) :: CascadeTable(log, t) == UpTo(Saved(t))) ==>
                forall t | InRange(t) ::
                  CascadeTable(log, t) == UpTo(Saved(t)) <==> !(Removed(old(Snapshot()), r, t) && old(Saved(t)) != 0)
    {
      hide InStep, Clean, ObjectPath, Burst, TurnEvents, CascadeTable, UpTo;
      if !callback {
        return;
      }
      ghost var s, before := Snapshot(), log;
      assert Counted(s) by {
        forall t | InRange(t) ensures s.At(t) >= 0 {
          InStepIsNotNegative(log, ObjectPath(t), Saved(t));
        }
      }
      var rest := schedule;
      var interfaceNumberOfEntries := 0;
      if r.countOk {
        interfaceNumberOfEntries := r.entries;
        var reset;
        reset, rest := SendAddRemoveEvents(Interfaces, interfaceNumberOfEntries, rest);
      }
      ghost var front := if r.countOk then TableBurst(s, r, Interfaces) else [];
      var i := 1;
      while i <= interfaceNumberOfEntries
        invariant 1 <= i <= interfaceNumberOfEntries + 1
        invariant Valid()
        invariant true !in schedule ==>
                    && true !in rest && log == before + front + TurnsUpTo(s, r, ipv6, i - 1)
                    && forall t | InRange(t) :: Saved(t) == if Polled(r, ipv6, t, i) then Reading(r, t) else s.At(t)
      {
        ghost var now, sofar := Snapshot(), log;
        rest := PollInterface(i, r, ipv6, rest);
        if true !in schedule {
          SameTurn(now, s, r, ipv6, i);
          Associative(before + front, TurnsUpTo(s, r, ipv6, i - 1), TurnEvents(s, r, ipv6, i));
        }
        i := i + 1;
      }
      Associative(before, front, TurnsUpTo(s, r, ipv6, i - 1));
      if r.countOk && true !in schedule {
        assert InRange(Interfaces) && Saved(Interfaces) == r.entries;
        forall i: nat | 1 <= i <= r.entries
          ensures curNumOfInterfaceIPv4Addresses[i] == r.ipv4(i)
          ensures ipv6 ==> curNumOfInterfaceIPv6Addresses[i] == r.ipv6(i)
                           && curNumOfInterfaceIPv6Prefixes[i] == r.prefixes(i)
        {
          assert InRange(IPv4Addresses(i)) && Saved(IPv4Addresses(i)) == curNumOfInterfaceIPv4Addresses[i];
          assert InRange(IPv6Addresses(i)) && Saved(IPv6Addresses(i)) == curNumOfInterfaceIPv6Addresses[i];
          assert InRange(IPv6Prefixes(i)) && Saved(IPv6Prefixes(i)) == curNumOfInterfaceIPv6Prefixes[i];
        }
      }
      if true !in schedule && forall t | InRange(t) :: CascadeTable(before, t) == UpTo(s.At(t)) {
        forall t | InRange(t) {
          NestedInStepIff(before, s, r, ipv6, t);
        }
      }
    }

    /** The state in step, in the letters of the paths and the names of the counters. */
    ghost predicate SubscriberAgrees()
      requires Shape()
      reads this, curNumOfInterfaceIPv4Addresses, curNumOfInterfaceIPv6Addresses, curNumOfInterfaceIPv6Prefixes
    {
      var tables := Replay(log);
      && TableOf(tables, "Device.IP.Interface.") == UpTo(curNumOfIPInterface)
      && forall i: nat | i < 100 ::
           var below := "Device.IP.Interface." + Decimal(i);
           && TableOf(tables, below + ".IPv4Address.") == UpTo(curNumOfInterfaceIPv4Addresses[i])
           && TableOf(tables, below + ".IPv6Address.") == UpTo(curNumOfInterfaceIPv6Addresses[i])
           && TableOf(tables, below + ".IPv6Prefix.") == UpTo(curNumOfInterfaceIPv6Prefixes[i])
    }

    lemma InStepMeansAgrees()
      requires Valid()
      ensures SubscriberAgrees()
    {
      hide Replay, ObjectPath, UpTo, Clean;
      ObjectPathText(0);
      assert InRange(Interfaces) && Saved(Interfaces) == curNumOfIPInterface;
      assert InStep(log, ObjectPath(Interfaces), Saved(Interfaces));
      forall i: nat | i < 100
        ensures var below := "Device.IP.Interface." + Decimal(i);
                && TableOf(Replay(log), below + ".IPv4Address.") == UpTo(curNumOfInterfaceIPv4Addresses[i])
                && TableOf(Replay(log), below + ".IPv6Address.") == UpTo(curNumOfInterfaceIPv6Addresses[i])
                && TableOf(Replay(log), below + ".IPv6Prefix.") == UpTo(curNumOfInterfaceIPv6Prefixes[i])
      {
        ObjectPathText(i);
        assert InRange(IPv4Addresses(i)) && InRange(IPv6Addresses(i)) && InRange(IPv6Prefixes(i));
        assert InStep(log, ObjectPath(IPv4Addresses(i)), Saved(IPv4Addresses(i)));
        assert InStep(log, ObjectPath(IPv6Addresses(i)), Saved(IPv6Addresses(i)));
        assert InStep(log, ObjectPath(IPv6Prefixes(i)), Saved(IPv6Prefixes(i)));
      }
    }

    /** Any history of polls, each with its own readings and with resets falling
        into it anywhere, and of resets between them. */
    method RunHistory(history: seq<Command>)
      requires Valid()
      requires forall k :: 0 <= k < |history| && history[k].Check? && history[k].r.countOk ==>
                 history[k].r.entries < SLOTS
      modifies this, curNumOfInterfaceIPv4Addresses, curNumOfInterfaceIPv6Addresses, curNumOfInterfaceIPv6Prefixes
      ensures Valid() && SubscriberAgrees()
    {
      hide InStep, Clean, ObjectPath, SubscriberAgrees;
      for k := 0 to |history|
        invariant Valid()
      {
        match history[k] {
          case Check(callback, r, ipv6, schedule) => CheckForUpdates(callback, r, ipv6, schedule);
          case Register => Reset();
        }
      }
      InStepMeansAgrees();
    }
  }

  datatype Command =
    | Check(callback: bool, r: Readings, ipv6: bool, schedule: seq<bool>)
    | Register

  function Call(log: seq<Event>, t: Table, saved: int, newValue: int, schedule: seq<bool>): Poll {
    RunPoll(ObjectPath(t), newValue, false, Poll(log, saved, false, schedule).Interrupt())
  }

  /** What one call of sendAddRemoveEvents leaves behind for its own object. */
  lemma CallKeepsStep(log: seq<Event>, t: Table, saved: int, newValue: nat, schedule: seq<bool>)
    requires InStep(log, ObjectPath(t), saved) && Clean(log)
    ensures var q := Call(log, t, saved, newValue, schedule);
            && q.saved == newValue && InStep(q.log, ObjectPath(t), newValue) && Clean(q.log)
            && (true !in schedule ==>
                  !q.reset && true !in q.schedule && q.log == log + Burst(ObjectPath(t), saved, newValue))
  {
    hide InStep, Clean, RunPoll;
    var start := Poll(log, saved, false, schedule).Interrupt();
    StartsInStep(log, ObjectPath(t), saved, schedule);
    ObjectPathEndsInDot(t);
    PollKeepsStep(ObjectPath(t), newValue, false, start);
    if true !in schedule {
      QuietPoll(ObjectPath(t), newValue, false, start);
      QuietStaysQuiet(ObjectPath(t), newValue, false, start);
    }
  }

  /** And for every other object. */
  lemma CallKeepsOthers(log: seq<Event>, t: Table, saved: int, newValue: nat, schedule: seq<bool>,
                        u: Table, m: int)
    requires u != t && InStep(log, ObjectPath(t), saved) && Clean(log)
    requires InStep(log, ObjectPath(u), m)
    ensures var q := Call(log, t, saved, newValue, schedule);
            InStep(q.log, ObjectPath(u), if q.reset then 0 else m)
  {
    hide InStep, Clean, RunPoll;
    StartsInStep(log, ObjectPath(t), saved, schedule);
    OtherStartsInStep(log, saved, schedule, ObjectPath(u), m);
    ObjectPathEndsInDot(t);
    if ObjectPath(u) == ObjectPath(t) {
      ObjectPathInjective(u, t);
    }
    PollKeepsOthers(ObjectPath(t), newValue, false,
                    Poll(log, saved, false, schedule).Interrupt(), ObjectPath(u), m);
  }

  lemma TurnIsThreeBursts(log: seq<Event>, s: Counts, r: Readings, ipv6: bool, i: nat)
    requires s.Shape() && i < SLOTS
    ensures var a, b, c := TableBurst(s, r, IPv4Addresses(i)), TableBurst(s, r, IPv6Addresses(i)),
                           TableBurst(s, r, IPv6Prefixes(i));
            log + TurnEvents(s, r, ipv6, i) == if ipv6 then log + a + b + c else log + a
  {
    hide TableBurst;
    var a, b, c := TableBurst(s, r, IPv4Addresses(i)), TableBurst(s, r, IPv6Addresses(i)),
                   TableBurst(s, r, IPv6Prefixes(i));
    Associative(log, a, b + c);
    Associative(log + a, b, c);
    Associative(log, a, []);
  }

  /** A turn depends on no other interface's counters. */
  lemma SameTurn(s: Counts, s': Counts, r: Readings, ipv6: bool, i: nat)
    requires s.Shape() && s'.Shape() && i < SLOTS
    requires forall t | InRange(t) && !t.Interfaces? && t.i == i :: s.At(t) == s'.At(t)
    ensures TurnEvents(s, r, ipv6, i) == TurnEvents(s', r, ipv6, i)
  {
    assert s.At(IPv4Addresses(i)) == s'.At(IPv4Addresses(i));
    assert s.At(IPv6Addresses(i)) == s'.At(IPv6Addresses(i));
    assert s.At(IPv6Prefixes(i)) == s'.At(IPv6Prefixes(i));
  }

  // ------------------------------------------------------------ the older loop

  const ETHERNET := "Device.Ethernet.Interface."

  /** The older loop moves its local counter toward the saved one. */
  function OlderBurst(saved: int, tmpNoDev: int): (es: seq<Event>)
    ensures |es| == Distance(saved, tmpNoDev)
    decreases Distance(saved, tmpNoDev)
  {
    if saved > tmpNoDev then [RemoveEvent(ETHERNET, tmpNoDev)] + OlderBurst(saved, tmpNoDev + 1)
    else if saved < tmpNoDev then [AddEvent(ETHERNET)] + OlderBurst(saved, tmpNoDev - 1)
    else []
  }

  datatype EthernetCommand =
    | EthernetCheck(callback: bool, countOk: bool, count: int)
    | EthernetRegister

  /** The saved count after a history: what the last poll that could read one has
      read, or 0 after a reset. */
  function CountAfterAll(start: int, history: seq<EthernetCommand>): int {
    if history == [] then start
    else
      match history[|history| - 1]
      case EthernetRegister => 0
      case EthernetCheck(_, countOk, count) =>
        if countOk then count else CountAfterAll(start, history[..|history| - 1])
  }

  /** The changes of the count since the last reset that no callback was told of. */
  function Unheard(start: int, history: seq<EthernetCommand>): int {
    if history == [] then 0
    else
      var front := history[..|history| - 1];
      match history[|history| - 1]
      case EthernetRegister => 0
      case EthernetCheck(callback, countOk, count) =>
        Unheard(start, front) + if countOk && !callback then count - CountAfterAll(start, front) else 0
  }

  class EthernetClientReqHandler {
    const curNumOfDevices: array<int>
    var log: seq<Event>

    ghost predicate Shape() {
      curNumOfDevices.Length == 10
    }

    constructor ()
      ensures Shape() && fresh(curNumOfDevices) && curNumOfDevices[1] == 0 && log == []
    {
      curNumOfDevices := new int[10](_ => 0);
      log := [];
    }

    method Reset()
      requires Shape()
      modifies this, curNumOfDevices
      ensures curNumOfDevices[1] == 0 && log == [] && Net(log, ETHERNET) == 0
    {
      forall i | 0 <= i < 10 {
        curNumOfDevices[i] := 0;
      }
      log := [];
    }

    /** checkForUpdates; it runs under the lock that reset takes too. */
    method CheckForUpdates(callback: bool, countOk: bool, count: int)
      requires Shape()
      modifies this, curNumOfDevices
      ensures curNumOfDevices[1] == if countOk then count else old(curNumOfDevices[1])
      ensures log == if callback && countOk then old(log) + OlderBurst(old(curNumOfDevices[1]), count)
                     else old(log)
      ensures count >= 0 ==>
                Net(log, ETHERNET) == old(Net(log, ETHERNET))
                                      + if callback && countOk then count - old(curNumOfDevices[1]) else 0
    {
      hide RemoveEvent, AddEvent, Net, OlderBurst;
      if countOk {
        ghost var before, saved := log, curNumOfDevices[1];
        OlderLoops(callback, count);
        if count >= 0 || saved <= count {
          OlderConserves(before, saved, count);
        }
        curNumOfDevices[1] := count;
      }
    }

    /** Any history of polls and resets: ADDs minus REMOVEs since the last reset are
        the saved count, less what was polled with nobody to tell. */
    method RunHistory(history: seq<EthernetCommand>)
      requires Shape() && Net(log, ETHERNET) == curNumOfDevices[1]
      requires forall k :: 0 <= k < |history| && history[k].EthernetCheck? ==> history[k].count >= 0
      modifies this, curNumOfDevices
      ensures curNumOfDevices[1] == CountAfterAll(old(curNumOfDevices[1]), history)
      ensures Net(log, ETHERNET) == curNumOfDevices[1] - Unheard(old(curNumOfDevices[1]), history)
    {
      hide Net, OlderBurst;
      assert history[..|history|] == history;
      for k := 0 to |history|
        invariant curNumOfDevices[1] == CountAfterAll(old(curNumOfDevices[1]), history[..k])
        invariant Net(log, ETHERNET) == curNumOfDevices[1] - Unheard(old(curNumOfDevices[1]), history[..k])
      {
        assert history[..k + 1][..k] == history[..k];
        match history[k] {
          case EthernetCheck(callback, countOk, count) => CheckForUpdates(callback, countOk, count);
          case EthernetRegister => Reset();
        }
      }
    }

    method OlderLoops(callback: bool, count: int)
      requires Shape()
      modifies this
      ensures log == if callback then old(log) + OlderBurst(curNumOfDevices[1], count) else old(log)
    {
      hide RemoveEvent, AddEvent, OlderBurst;
      var index, tmpNoDev := 1, count;
      while curNumOfDevices[index] > tmpNoDev
        invariant callback ==> log + OlderBurst(curNumOfDevices[index], tmpNoDev)
                               == old(log) + OlderBurst(curNumOfDevices[index], count)
        invariant !callback ==> log == old(log)
        decreases Distance(curNumOfDevices[index], tmpNoDev)
      {
        OlderStep(log, curNumOfDevices[index], tmpNoDev);
        if callback {
          log := log + [RemoveEvent(ETHERNET, tmpNoDev)];
        }
        tmpNoDev := tmpNoDev + 1;
      }
      while curNumOfDevices[index] < tmpNoDev
        invariant curNumOfDevices[index] <= tmpNoDev
        invariant callback ==> log + OlderBurst(curNumOfDevices[index], tmpNoDev)
                               == old(log) + OlderBurst(curNumOfDevices[index], count)
        invariant !callback ==> log == old(log)
        decreases Distance(curNumOfDevices[index], tmpNoDev)
      {
        OlderStep(log, curNumOfDevices[index], tmpNoDev);
        if callback {
          log := log + [AddEvent(ETHERNET)];
        }
        tmpNoDev := tmpNoDev - 1;
      }
      OlderDone(log, tmpNoDev);
    }
  }

  /** The events of the older loop, letter by letter. */
  lemma {:induction false} OlderBurstByPosition(saved: int, tmpNoDev: int, i: nat)
    requires i < |OlderBurst(saved, tmpNoDev)|
    ensures OlderBurst(saved, tmpNoDev)[i]
            == if saved > tmpNoDev
               then Event(Remove, "Device.Ethernet.Interface." + IntText(tmpNoDev + i) + ".")
               else Event(Add, "Device.Ethernet.Interface.")
    decreases i
  {
    hide IntText;
    if i > 0 {
      OlderBurstByPosition(saved, if saved > tmpNoDev then tmpNoDev + 1 else tmpNoDev - 1, i - 1);
    }
  }

  lemma OlderDone(log: seq<Event>, n: int)
    ensures log + OlderBurst(n, n) == log
  {
  }

  lemma OlderStep(emitted: seq<Event>, saved: int, tmpNoDev: int)
    requires saved != tmpNoDev
    ensures emitted + OlderBurst(saved, tmpNoDev)
            == if saved > tmpNoDev
               then (emitted + [RemoveEvent(ETHERNET, tmpNoDev)]) + OlderBurst(saved, tmpNoDev + 1)
               else (emitted + [AddEvent(ETHERNET)]) + OlderBurst(saved, tmpNoDev - 1)
  {
    hide RemoveEvent, AddEvent;
  }

  lemma EthernetChanges(log: seq<Event>, n: nat)
    ensures Net(log + [RemoveEvent(ETHERNET, n)], ETHERNET) == Net(log, ETHERNET) - 1
    ensures Net(log + [AddEvent(ETHERNET)], ETHERNET) == Net(log, ETHERNET) + 1
  {
    ReadPrintedInstance(ETHERNET, n);
    ReplaySnoc(log, RemoveEvent(ETHERNET, n), ETHERNET);
    ReplaySnoc(log, AddEvent(ETHERNET), ETHERNET);
  }

  /** Conservation: ADDs minus REMOVEs move by exactly the change of the count. */
  lemma {:induction false} OlderConserves(log: seq<Event>, saved: int, tmpNoDev: int)
    requires tmpNoDev >= 0 || saved <= tmpNoDev
    ensures Net(log + OlderBurst(saved, tmpNoDev), ETHERNET) == Net(log, ETHERNET) + tmpNoDev - saved
    decreases Distance(saved, tmpNoDev)
  {
    hide RemoveEvent, AddEvent, Net;
    if saved > tmpNoDev {
      var e := RemoveEvent(ETHERNET, tmpNoDev);
      EthernetChanges(log, tmpNoDev);
      OlderConserves(log + [e], saved, tmpNoDev + 1);
      assert log + OlderBurst(saved, tmpNoDev) == log + [e] + OlderBurst(saved, tmpNoDev + 1);
    } else if saved < tmpNoDev {
      var e := AddEvent(ETHERNET);
      EthernetChanges(log, 0);
      OlderConserves(log + [e], saved, tmpNoDev - 1);
      assert log + OlderBurst(saved, tmpNoDev) == log + [e] + OlderBurst(saved, tmpNoDev - 1);
    } else {
      assert log + [] == log;
    }
  }

  lemma EthernetRemoves(log: seq<Event>, n: nat, x: nat)
    ensures x in TableOf(Replay(log + [RemoveEvent(ETHERNET, n)]), ETHERNET)
            <==> x in TableOf(Replay(log), ETHERNET) && x != n
  {
    ReadPrintedInstance(ETHERNET, n);
    ReplaySnoc(log, RemoveEvent(ETHERNET, n), ETHERNET);
  }

  /** The older loop removes the instances new..saved-1 instead of new+1..saved. */
  lemma {:induction false} OlderRemoves(log: seq<Event>, saved: int, tmpNoDev: int, x: nat)
    requires 0 <= tmpNoDev <= saved
    ensures x in TableOf(Replay(log + OlderBurst(saved, tmpNoDev)), ETHERNET)
            <==> x in TableOf(Replay(log), ETHERNET) && !(tmpNoDev <= x < saved)
    decreases saved - tmpNoDev
  {
    hide RemoveEvent, AddEvent, Replay;
    if tmpNoDev < saved {
      var e := RemoveEvent(ETHERNET, tmpNoDev);
      EthernetRemoves(log, tmpNoDev, x);
      OlderRemoves(log + [e], saved, tmpNoDev + 1, x);
      OlderStep(log, saved, tmpNoDev);
    } else {
      assert log + [] == log;
    }
  }

  lemma {:induction false} OlderAdds(log: seq<Event>, saved: int, tmpNoDev: int, k: int)
    requires saved <= tmpNoDev && InStep(log, ETHERNET, k) && Clean(log)
    ensures InStep(log + OlderBurst(saved, tmpNoDev), ETHERNET, k + tmpNoDev - saved)
    decreases tmpNoDev - saved
  {
    hide InStep, Clean;
    if saved < tmpNoDev {
      var e := AddEvent(ETHERNET);
      AddKeepsStep(log, ETHERNET, k);
      OlderAdds(log + [e], saved, tmpNoDev - 1, k + 1);
      assert log + OlderBurst(saved, tmpNoDev) == log + [e] + OlderBurst(saved, tmpNoDev - 1);
    } else {
      assert log + [] == log;
    }
  }

  /** The events of the older loop always add up, but they keep the subscriber in
      step exactly when the table does not shrink: it names the wrong instances. */
  lemma OlderInStepIff(log: seq<Event>, saved: int, count: nat)
    requires InStep(log, ETHERNET, saved) && Clean(log)
    ensures InStep(log + OlderBurst(saved, count), ETHERNET, count) <==> count >= saved
  {
    hide Replay, Net, Clean, OlderBurst;
    if count >= saved {
      OlderAdds(log, saved, count, saved);
    } else {
      OlderRemoves(log, saved, count, saved);
      assert saved !in UpTo(count) && saved in UpTo(saved);
    }
  }
}
