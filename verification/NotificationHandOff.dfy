/** The notification hand-off: any number of threads push a message to one queue
    and then each pops one, not necessarily its own, sends it and frees it. */
module NotificationHandOff {
  import opened Backoff
  import opened Common

  // ------------------------------------------------------------ sendNotification

  const MAX_SENDS: nat := 4

  /** The outcomes of the sends for one message: failures, then a success or the
      fourth failure. */
  predicate Complete(sends: seq<bool>) {
    && 1 <= |sends| <= MAX_SENDS
    && (forall i :: 0 <= i < |sends| - 1 ==> !sends[i])
    && (sends[|sends| - 1] || |sends| == MAX_SENDS)
  }

  /** The five ways in which the sends of one message can go. */
  lemma CompleteIff(sends: seq<bool>)
    ensures Complete(sends)
            <==> sends in {[true], [false, true], [false, false, true], [false, false, false, true],
                           [false, false, false, false]}
  {
    if Complete(sends) {
      var n, last := |sends|, sends[|sends| - 1];
      assert n < 4 ==> last;
      assert sends == if n == 1 then [last] else if n == 2 then [false, last]
                      else if n == 3 then [false, false, last] else [false, false, false, last];
    }
  }

  /** The retry loop of sendNotification: stops at the first success, gives up
      after four failures, and after k failures has slept 2^(k+2) - 4 - k seconds. */
  method SendNotification(send: nat -> int) returns (sends: seq<bool>, slept: nat)
    ensures Complete(sends)
    ensures forall i :: 0 <= i < |sends| ==> (sends[i] <==> send(i) == 0)
    ensures var failures := if sends[|sends| - 1] then |sends| - 1 else |sends|;
            slept == Pow2(failures + 2) - 4 - failures == [0, 3, 10, 25, 56][failures]
  {
    SmallPowers();
    var retryCount, c := 0, 2;
    sends, slept := [], 0;
    while retryCount <= 3
      invariant retryCount == |sends| <= 4 && c == retryCount + 2
      invariant forall i :: 0 <= i < |sends| ==> !sends[i] && send(i) != 0
      invariant slept == Pow2(c) - 4 - retryCount == [0, 3, 10, 25, 56][retryCount]
      decreases 4 - retryCount
    {
      var backoffRetryTime := Pow2(c) - 1;
      var sendStatus := send(retryCount);
      sends := sends + [sendStatus == 0];
      if sendStatus == 0 {
        return;
      }
      slept := slept + backoffRetryTime;
      c := c + 1;
      retryCount := retryCount + 1;
    }
  }

  // ------------------------------------------- one message, whatever its shape

  /** A queued message; a field is None where the pointer is NULL. */
  datatype Message = Message(kind: int, data: Option<NotifyData>)
  datatype NotifyData = NotifyData(notify: Option<ParamNotify>)
  datatype ParamNotify = ParamNotify(dest: Option<string>, payload: Option<string>)

  /** How often each heap cell of a message has been freed. */
  datatype Freed = Freed(message: nat, data: nat, param: nat, dest: nat, payload: nat)

  /** What sendNotification is called with. */
  datatype Delivery = Delivery(payload: string, dest: string)

  function Present(p: Option<string>): nat {
    if p.Some? then 1 else 0
  }

  const PARAM_VALUE_CHANGE_NOTIFY: int := 4
  const NOTIFY_TYPE_MAX: int := 5

  /** notificationCallBack after its pop: along every path each cell that exists is
      freed exactly once, and exactly the complete messages of the five types are
      sent, with their own payload and destination. */
  method ReleaseMessage(m: Message) returns (freed: Freed, sent: Option<Delivery>)
    ensures freed.message == 1 && freed.data == if m.data.Some? then 1 else 0
    ensures m.data.Some? && m.data.value.notify.Some? ==>
              var p := m.data.value.notify.value;
              && freed.param == 1
              && freed.dest == (if p.dest.Some? then 1 else 0)
              && freed.payload == (if p.payload.Some? then 1 else 0)
              && (sent.Some? <==> p.dest.Some? && p.payload.Some? && 0 <= m.kind <= 4)
              && (sent.Some? ==> p.payload == Some(sent.value.payload) && p.dest == Some(sent.value.dest))
    ensures !(m.data.Some? && m.data.value.notify.Some?) ==>
              freed.param == freed.dest == freed.payload == 0 && sent == None
  {
    freed, sent := Freed(0, 0, 0, 0, 0), None;
    if m.data.Some? {
      if m.data.value.notify.Some? {
        var param := m.data.value.notify.value;
        if m.kind < 0 || m.kind >= NOTIFY_TYPE_MAX {
        } else if param.dest == None || param.payload == None {
        } else {
          // sendNotification frees the payload with the message it wraps it in
          freed := freed.(payload := freed.payload + 1);
          sent := Some(Delivery(param.payload.value, param.dest.value));
        }
        if sent == None {
          freed := freed.(payload := freed.payload + Present(param.payload));
        }
        freed := freed.(dest := freed.dest + Present(param.dest), param := freed.param + 1);
      }
      freed := freed.(data := freed.data + 1);
    }
    freed := freed.(message := freed.message + 1);
  }

  /** A message as pushNotification builds it. */
  predicate IsValueChange(m: Message, payload: string, dest: string) {
    m == Message(4, Some(NotifyData(Some(ParamNotify(Some(dest), Some(payload))))))
  }

  predicate IsPushed(m: Message) {
    && m.kind == 4 && m.data.Some? && m.data.value.notify.Some?
    && m.data.value.notify.value.dest.Some? && m.data.value.notify.value.payload.Some?
  }

  lemma PushedIff(m: Message)
    ensures IsPushed(m) <==> exists payload, dest :: IsValueChange(m, payload, dest)
  {
    if IsPushed(m) {
      var p := m.data.value.notify.value;
      assert IsValueChange(m, p.payload.value, p.dest.value);
    }
  }

  /** The queue holds nothing else. */
  predicate ValueChanges(queue: seq<Message>) {
    forall i :: 0 <= i < |queue| ==> IsPushed(queue[i])
  }

  class NotificationHandler {
    var queue: seq<Message>
    var registered: bool

    constructor ()
      ensures queue == [] && !registered && ValueChanges(queue)
    {
      queue, registered := [], false;
    }

    /** pushNotification in one thread: rejected without a callback or with a NULL
        argument; otherwise the new message goes to the end, and the callback takes
        the oldest one, sends it until a success or four times, and frees it. */
    method PushNotification(destination: Option<string>, payload: Option<string>, send: nat -> int)
      returns (sent: Option<Delivery>, freed: Freed, sends: seq<bool>)
      requires ValueChanges(queue)
      modifies this
      ensures ValueChanges(queue) && registered == old(registered)
      ensures !(registered && destination.Some? && payload.Some?) ==>
                sent == None && sends == [] && freed == Freed(0, 0, 0, 0, 0) && queue == old(queue)
      ensures registered && destination.Some? && payload.Some? ==>
                && sent.Some? && freed == Freed(1, 1, 1, 1, 1)
                && |queue| == |old(queue)|
                && (forall i :: 0 < i < |old(queue)| ==> queue[i - 1] == old(queue[i]))
                && (if old(queue) == [] then sent == Some(Delivery(payload.value, destination.value))
                    else IsValueChange(old(queue)[0], sent.value.payload, sent.value.dest)
                         && IsValueChange(queue[|queue| - 1], payload.value, destination.value))
                && Complete(sends) && forall i :: 0 <= i < |sends| ==> (sends[i] <==> send(i) == 0)
    {
      sent, freed, sends := None, Freed(0, 0, 0, 0, 0), [];
      if registered && destination.Some? && payload.Some? {
        var message := Message(PARAM_VALUE_CHANGE_NOTIFY, Some(NotifyData(Some(ParamNotify(destination, payload)))));
        queue := queue + [message];
        var m := queue[0];
        queue := queue[1..];
        freed, sent := ReleaseMessage(m);
        if sent.Some? {
          var slept;
          sends, slept := SendNotification(send);
        }
      }
    }
  }

  // ------------------------------------------------------------ the threads

  /** Where a thread stands. Messages are numbered in the order they are accepted. */
  datatype Pc =
    | Idle
    | Pushed
    | Popped(k: nat)
    | Sending(k: nat)
    | Sent(k: nat)

  /** What has happened to one accepted message. */
  datatype Fate = Fate(handed: nat, sends: seq<bool>, freed: nat)

  const UNTOUCHED := Fate(0, [], 0)

  datatype State = State(
    registered: bool,
    queue: seq<nat>,
    fates: seq<Fate>,
    popped: seq<nat>,
    threads: seq<Pc>,
    emptyPops: nat)

  datatype Action =
    | Register
    | Push(t: nat, destination: bool, payload: bool)
    | Pop(t: nat)
    | HandOver(t: nat)
    | Send(t: nat, ok: bool)
    | Free(t: nat)

  function Initial(n: nat): State {
    State(false, [], [], [], seq(n, _ => Idle), 0)
  }

  predicate Enabled(s: State, a: Action) {
    match a
    case Register => true
    case Push(t, _, _) => t < |s.threads| && s.threads[t].Idle?
    case Pop(t) => t < |s.threads| && s.threads[t].Pushed?
    case HandOver(t) => t < |s.threads| && s.threads[t].Popped? && s.threads[t].k < |s.fates|
    case Send(t, _) => t < |s.threads| && s.threads[t].Sending? && s.threads[t].k < |s.fates|
    case Free(t) => t < |s.threads| && s.threads[t].Sent? && s.threads[t].k < |s.fates|
  }

  function Step(s: State, a: Action): State
    requires Enabled(s, a)
  {
    match a
    case Register => s.(registered := true)
    case Push(t, destination, payload) =>
      // pushNotification: nothing happens without a callback or with a NULL argument
      if !s.registered || !destination || !payload then s
      else
        var k := |s.fates|;
        s.(queue := s.queue + [k], fates := s.fates + [UNTOUCHED], threads := s.threads[t := Pushed])
    case Pop(t) =>
      // g_async_queue_timeout_pop: the callback returns when the queue is empty
      if s.queue == [] then s.(threads := s.threads[t := Idle], emptyPops := s.emptyPops + 1)
      else
        var k := s.queue[0];
        s.(queue := s.queue[1..], popped := s.popped + [k], threads := s.threads[t := Popped(k)])
    case HandOver(t) =>
      var k := s.threads[t].k;
      s.(fates := s.fates[k := s.fates[k].(handed := s.fates[k].handed + 1)],
         threads := s.threads[t := Sending(k)])
    case Send(t, ok) =>
      var k := s.threads[t].k;
      var sends := s.fates[k].sends + [ok];
      s.(fates := s.fates[k := s.fates[k].(sends := sends)],
         threads := s.threads[t := if ok || |sends| >= MAX_SENDS then Sent(k) else Sending(k)])
    case Free(t) =>
      var k := s.threads[t].k;
      s.(fates := s.fates[k := s.fates[k].(freed := s.fates[k].freed + 1)],
         threads := s.threads[t := Idle])
  }

  /** A push is accepted exactly with a callback and both arguments, and otherwise
      changes nothing. */
  lemma PushAcceptsIff(s: State, t: nat, destination: bool, payload: bool)
    requires Enabled(s, Push(t, destination, payload))
    ensures var r := Step(s, Push(t, destination, payload));
            if s.registered && destination && payload
            then r.queue == s.queue + [|s.fates|] && r.fates == s.fates + [Fate(0, [], 0)] && r.threads[t] == Pushed
            else r == s
  {
  }

  // ------------------------------------------------------------ the invariant

  function CountPushed(threads: seq<Pc>): nat {
    if threads == [] then 0
    else CountPushed(threads[..|threads| - 1]) + if threads[|threads| - 1].Pushed? then 1 else 0
  }

  function Range(a: nat, b: nat): (r: seq<nat>)
    requires a <= b
    ensures |r| == b - a
    ensures forall i :: 0 <= i < |r| ==> r[i] == a + i
  {
    seq(b - a, i requires 0 <= i < b - a => a + i)
  }

  /** How far the message a thread holds has come. */
  predicate HeldFate(pc: Pc, f: Fate) {
    match pc
    case Popped(_) => f == UNTOUCHED
    case Sending(_) =>
      f.handed == 1 && f.freed == 0 && |f.sends| < MAX_SENDS && forall i :: 0 <= i < |f.sends| ==> !f.sends[i]
    case Sent(_) => f.handed == 1 && f.freed == 0 && Complete(f.sends)
    case _ => true
  }

  predicate Finished(f: Fate) {
    f.handed == 1 && f.freed == 1 && Complete(f.sends)
  }

  predicate Busy(pc: Pc) {
    pc.Popped? || pc.Sending? || pc.Sent?
  }

  /** Queue and pop order, and the count that ties the queue to the threads. */
  predicate QueueInv(s: State) {
    && |s.popped| <= |s.fates|
    && s.popped == Range(0, |s.popped|)
    && s.queue == Range(|s.popped|, |s.fates|)
    && |s.queue| == CountPushed(s.threads)
    && s.emptyPops == 0
  }

  /** Threads hold popped messages, each its own, as far along as its program
      counter says. */
  predicate ThreadInv(s: State) {
    && (forall t :: 0 <= t < |s.threads| && Busy(s.threads[t]) ==>
          s.threads[t].k < |s.popped| <= |s.fates| && HeldFate(s.threads[t], s.fates[s.threads[t].k]))
    && (forall t, u :: 0 <= t < u < |s.threads| && Busy(s.threads[t]) && Busy(s.threads[u]) ==>
          s.threads[t].k != s.threads[u].k)
  }

  ghost predicate Held(s: State, k: nat) {
    exists t :: 0 <= t < |s.threads| && Busy(s.threads[t]) && s.threads[t].k == k
  }

  /** Messages in the queue are untouched; popped ones are held or finished. */
  ghost predicate FateInv(s: State) {
    forall k :: 0 <= k < |s.fates| ==>
      if k >= |s.popped| then s.fates[k] == UNTOUCHED else Held(s, k) || Finished(s.fates[k])
  }

  ghost predicate Inv(s: State) {
    QueueInv(s) && ThreadInv(s) && FateInv(s)
  }

  lemma {:induction false} CountUpdate(threads: seq<Pc>, t: nat, pc: Pc)
    requires t < |threads|
    ensures CountPushed(threads[t := pc]) + (if threads[t].Pushed? then 1 else 0)
            == CountPushed(threads) + (if pc.Pushed? then 1 else 0)
    ensures threads[t].Pushed? ==> CountPushed(threads) > 0
  {
    var n := |threads| - 1;
    if t < n {
      CountUpdate(threads[..n], t, pc);
      assert threads[t := pc][..n] == threads[..n][t := pc];
    } else {
      assert threads[t := pc][..n] == threads[..n];
    }
  }

  /** A message that is accepted goes to the end of the queue, untouched. */
  lemma PushKeepsThreads(s: State, t: nat, k: nat)
    requires ThreadInv(s) && t < |s.threads| && s.threads[t].Idle?
    ensures ThreadInv(s.(queue := s.queue + [k], fates := s.fates + [UNTOUCHED],
                         threads := s.threads[t := Pushed]))
  {
    hide HeldFate;
  }

  lemma PushKeeps(s: State, a: Action)
    requires Inv(s) && Enabled(s, a) && a.Push?
    ensures Inv(Step(s, a))
  {
    hide Complete, ThreadInv;
    var r := Step(s, a);
    CountUpdate(s.threads, a.t, Pushed);
    PushKeepsThreads(s, a.t, |s.fates|);
    if r != s {
      assert r.queue == Range(|r.popped|, |r.fates|);
      forall k | 0 <= k < |s.popped| && Held(s, k) ensures Held(r, k) {
        var t :| 0 <= t < |s.threads| && Busy(s.threads[t]) && s.threads[t].k == k;
        assert r.threads[t] == s.threads[t];
      }
    }
  }

  lemma PopKeeps(s: State, a: Action)
    requires Inv(s) && Enabled(s, a) && a.Pop?
    ensures s.queue != []
    ensures Inv(Step(s, a))
  {
    hide Complete, CountPushed;
    var r := Step(s, a);
    var k := |s.popped|;
    CountUpdate(s.threads, a.t, Popped(k));
    assert s.queue[0] == k;
    assert r.popped == Range(0, |r.popped|) && r.queue == Range(|r.popped|, |r.fates|);
    assert r.threads[a.t] == Popped(k);
    forall q | 0 <= q < |r.popped| ensures Held(r, q) || Finished(r.fates[q]) {
      if q < k && Held(s, q) {
        var t :| 0 <= t < |s.threads| && Busy(s.threads[t]) && s.threads[t].k == q;
        assert r.threads[t] == s.threads[t];
      }
    }
  }

  /** A step of thread t on its own message leaves the other messages held. */
  lemma OthersStillHeld(s: State, r: State, t: nat, q: nat)
    requires t < |s.threads| == |r.threads| && Busy(s.threads[t]) && s.threads[t].k != q
    requires forall u :: 0 <= u < |s.threads| && u != t ==> r.threads[u] == s.threads[u]
    ensures Held(s, q) ==> Held(r, q)
  {
    if Held(s, q) {
      var u :| 0 <= u < |s.threads| && Busy(s.threads[u]) && s.threads[u].k == q;
      assert r.threads[u] == s.threads[u];
    }
  }

  /** The steps of a thread on the message it holds, up to the last send. */
  lemma WorkKeeps(s: State, a: Action)
    requires Inv(s) && Enabled(s, a) && (a.HandOver? || a.Send?)
    ensures Inv(Step(s, a))
  {
    var r := Step(s, a);
    var mine := s.threads[a.t].k;
    CountUpdate(s.threads, a.t, r.threads[a.t]);
    assert ThreadInv(r) by {
      assert HeldFate(s.threads[a.t], s.fates[mine]);
      assert HeldFate(r.threads[a.t], r.fates[mine]);
    }
    forall q | 0 <= q < |r.popped| ensures Held(r, q) || Finished(r.fates[q]) {
      if q == mine {
        assert Busy(r.threads[a.t]) && r.threads[a.t].k == mine;
      } else {
        OthersStillHeld(s, r, a.t, q);
      }
    }
  }

  lemma FreeKeeps(s: State, a: Action)
    requires Inv(s) && Enabled(s, a) && a.Free?
    ensures Inv(Step(s, a))
  {
    hide Complete, CountPushed;
    var r := Step(s, a);
    var mine := s.threads[a.t].k;
    CountUpdate(s.threads, a.t, Idle);
    assert Finished(r.fates[mine]);
    forall q | 0 <= q < |r.popped| ensures Held(r, q) || Finished(r.fates[q]) {
      if q != mine {
        OthersStillHeld(s, r, a.t, q);
      }
    }
  }

  lemma StepKeepsInv(s: State, a: Action)
    requires Inv(s) && Enabled(s, a)
    ensures Inv(Step(s, a))
  {
    match a
    case Register =>
      assert forall k :: Held(s, k) ==> Held(Step(s, a), k);
    case Push(_, _, _) => PushKeeps(s, a);
    case Pop(_) => PopKeeps(s, a);
    case Free(_) => FreeKeeps(s, a);
    case _ => WorkKeeps(s, a);
  }

  // ---------------------------------------------------------------- every run

  /** A run of any length, with the threads interleaved in any way. */
  ghost predicate IsRun(s: State, actions: seq<Action>, end: State)
    decreases actions
  {
    if actions == [] then s == end
    else Enabled(s, actions[0]) && IsRun(Step(s, actions[0]), actions[1..], end)
  }

  lemma {:induction false} RunKeepsInv(s: State, actions: seq<Action>, end: State)
    requires Inv(s) && IsRun(s, actions, end)
    ensures Inv(end)
    decreases actions
  {
    if actions != [] {
      StepKeepsInv(s, actions[0]);
      RunKeepsInv(Step(s, actions[0]), actions[1..], end);
    }
  }

  /** As long as no callback is registered nothing ever happens. */
  lemma {:induction false} NothingBeforeRegister(n: nat, actions: seq<Action>, s: State)
    requires IsRun(Initial(n), actions, s) && forall i :: 0 <= i < |actions| ==> !actions[i].Register?
    ensures s == Initial(n) && !s.registered && s.fates == [] && s.queue == []
    decreases actions
  {
    if actions != [] {
      assert actions[0].Push? && Step(Initial(n), actions[0]) == Initial(n);
      NothingBeforeRegister(n, actions[1..], s);
    }
  }

  lemma {:induction false} NonePushed(threads: seq<Pc>)
    requires forall t :: 0 <= t < |threads| ==> !threads[t].Pushed?
    ensures CountPushed(threads) == 0
  {
    if threads != [] {
      NonePushed(threads[..|threads| - 1]);
    }
  }

  lemma InitialInv(n: nat)
    ensures Inv(Initial(n))
  {
    NonePushed(Initial(n).threads);
  }

  /** The hand-off theorem, for any number of threads and any interleaving: the
      queue is as long as there are threads between push and pop, no pop has found
      it empty, and messages leave it in the order in which they were accepted. */
  lemma HandOffSafety(n: nat, actions: seq<Action>, s: State)
    requires IsRun(Initial(n), actions, s)
    ensures |s.queue| == CountPushed(s.threads)
    ensures s.emptyPops == 0
    ensures forall t :: 0 <= t < |s.threads| && s.threads[t].Pushed? ==> s.queue != []
    ensures |s.popped| + |s.queue| == |s.fates|
    ensures forall k :: 0 <= k < |s.fates| ==> (s.popped + s.queue)[k] == k
    ensures forall k :: 0 <= k < |s.fates| ==> s.fates[k].handed <= 1 && s.fates[k].freed <= s.fates[k].handed
  {
    InitialInv(n);
    RunKeepsInv(Initial(n), actions, s);
    forall t | 0 <= t < |s.threads| && s.threads[t].Pushed? ensures s.queue != [] {
      CountUpdate(s.threads, t, Idle);
    }
    forall k | 0 <= k < |s.fates| ensures s.fates[k].handed <= 1 && s.fates[k].freed <= s.fates[k].handed {
      if k < |s.popped| && Held(s, k) {
        var t :| 0 <= t < |s.threads| && Busy(s.threads[t]) && s.threads[t].k == k;
        assert HeldFate(s.threads[t], s.fates[k]);
      }
    }
  }

  predicate AtRest(s: State) {
    forall t :: 0 <= t < |s.threads| ==> s.threads[t].Idle?
  }

  /** At rest: the queue is empty and every accepted message has been handed to
      sendNotification once, tried until a success or four times, and freed once. */
  lemma HandOffAtRest(n: nat, actions: seq<Action>, s: State)
    requires IsRun(Initial(n), actions, s)
    requires AtRest(s)
    ensures s.queue == [] && |s.popped| == |s.fates| && forall k :: 0 <= k < |s.popped| ==> s.popped[k] == k
    ensures forall k :: 0 <= k < |s.fates| ==>
              s.fates[k].handed == 1 && s.fates[k].freed == 1 && Complete(s.fates[k].sends)
  {
    InitialInv(n);
    RunKeepsInv(Initial(n), actions, s);
    NonePushed(s.threads);
  }

  // --------------------------------------------------------- the queue drains

  /** An upper bound on the steps a thread still takes before it is idle again. */
  function StepsLeft(s: State, pc: Pc): nat {
    match pc
    case Idle => 0
    case Pushed => 7
    case Popped(_) => 6
    case Sending(k) =>
      if k < |s.fates| && |s.fates[k].sends| < MAX_SENDS then 5 - |s.fates[k].sends| else 2
    case Sent(_) => 1
  }

  function Work(s: State, n: nat): nat
    requires n <= |s.threads|
  {
    if n == 0 then 0 else Work(s, n - 1) + StepsLeft(s, s.threads[n - 1])
  }

  lemma {:induction false} WorkChanges(s: State, r: State, t: nat, n: nat)
    requires t < |s.threads| == |r.threads| && n <= |s.threads|
    requires forall u :: 0 <= u < |s.threads| && u != t ==>
               StepsLeft(r, r.threads[u]) == StepsLeft(s, s.threads[u])
    requires StepsLeft(r, r.threads[t]) < StepsLeft(s, s.threads[t])
    ensures if t < n then Work(r, n) < Work(s, n) else Work(r, n) == Work(s, n)
    decreases n
  {
    if n > 0 {
      WorkChanges(s, r, t, n - 1);
    }
  }

  /** Every step of a thread that has been told of a notification takes work away. */
  lemma StepsDrain(s: State, a: Action)
    requires Inv(s) && Enabled(s, a) && !a.Push? && !a.Register?
    ensures |Step(s, a).threads| == |s.threads|
    ensures Work(Step(s, a), |s.threads|) < Work(s, |s.threads|)
  {
    var r := Step(s, a);
    if a.Pop? {
      PopKeeps(s, a);
    }
    forall u | 0 <= u < |s.threads| && u != a.t
      ensures StepsLeft(r, r.threads[u]) == StepsLeft(s, s.threads[u])
    {
      assert r.threads[u] == s.threads[u];
    }
    WorkChanges(s, r, a.t, |s.threads|);
  }

  /** And until then some thread can always take its next step. */
  lemma NeverStuck(s: State)
    requires Inv(s) && !AtRest(s)
    ensures exists a :: Enabled(s, a) && !a.Push? && !a.Register?
  {
    var t :| 0 <= t < |s.threads| && !s.threads[t].Idle?;
    var pc := s.threads[t];
    var a := if pc.Pushed? then Pop(t) else if pc.Popped? then HandOver(t)
             else if pc.Sending? then Send(t, true) else Free(t);
    assert Enabled(s, a);
  }

  predicate Drains(actions: seq<Action>) {
    forall i :: 0 <= i < |actions| ==> !actions[i].Push? && !actions[i].Register?
  }

  /** A notification gives a thread seven steps to do, and no thread has more. */
  lemma {:induction false} WorkBound(s: State, n: nat)
    requires n <= |s.threads|
    ensures Work(s, n) <= 7 * n
  {
    if n > 0 {
      WorkBound(s, n - 1);
    }
  }

  /** A run without new notifications is never longer than the work it finds. */
  lemma {:induction false} DrainingRunsAreShort(s: State, actions: seq<Action>, end: State)
    requires Inv(s) && IsRun(s, actions, end) && Drains(actions)
    ensures |actions| + Work(end, |end.threads|) <= Work(s, |s.threads|)
    decreases actions
  {
    hide Inv, Enabled, Step, StepsLeft;
    if actions != [] {
      StepsDrain(s, actions[0]);
      StepKeepsInv(s, actions[0]);
      DrainingRunsAreShort(Step(s, actions[0]), actions[1..], end);
    }
  }

  /** And it can always be extended until the threads rest. */
  lemma {:induction false} RunsToRest(s: State) returns (actions: seq<Action>, end: State)
    requires Inv(s)
    ensures IsRun(s, actions, end) && Drains(actions) && AtRest(end)
    decreases Work(s, |s.threads|)
  {
    hide Inv, Enabled, Step, StepsLeft;
    if AtRest(s) {
      actions, end := [], s;
    } else {
      NeverStuck(s);
      var a :| Enabled(s, a) && !a.Push? && !a.Register?;
      StepsDrain(s, a);
      StepKeepsInv(s, a);
      var rest;
      rest, end := RunsToRest(Step(s, a));
      actions := [a] + rest;
      assert actions[1..] == rest;
    }
  }

  lemma {:induction false} RunsConcat(s: State, a: seq<Action>, mid: State, b: seq<Action>, end: State)
    requires IsRun(s, a, mid) && IsRun(mid, b, end)
    ensures IsRun(s, a + b, end)
    decreases a
  {
    hide Enabled, Step;
    if a == [] {
      assert a + b == b;
    } else {
      assert (a + b)[1..] == a[1..] + b;
      RunsConcat(Step(s, a[0]), a[1..], mid, b, end);
    }
  }

  /** Wherever a run has got to, the notifications accepted so far can be brought to
      their end without another push, in at most seven steps a thread: then the queue is
      empty, and each has been handed over, tried and freed once. */
  lemma EveryRunCanFinish(n: nat, actions: seq<Action>, s: State) returns (more: seq<Action>, end: State)
    requires IsRun(Initial(n), actions, s)
    ensures IsRun(Initial(n), actions + more, end) && Drains(more) && |more| <= 7 * |s.threads|
    ensures AtRest(end) && end.queue == []
    ensures |end.fates| == |s.fates|
    ensures forall k :: 0 <= k < |end.fates| ==>
              end.fates[k].handed == 1 && end.fates[k].freed == 1 && Complete(end.fates[k].sends)
  {
    hide Inv, IsRun, Work;
    InitialInv(n);
    RunKeepsInv(Initial(n), actions, s);
    more, end := RunsToRest(s);
    DrainingRunsAreShort(s, more, end);
    WorkBound(s, |s.threads|);
    DrainsAcceptNothing(s, more, end);
    RunsConcat(Initial(n), actions, s, more, end);
    HandOffAtRest(n, actions + more, end);
  }

  lemma {:induction false} DrainsAcceptNothing(s: State, actions: seq<Action>, end: State)
    requires IsRun(s, actions, end) && Drains(actions)
    ensures |end.fates| == |s.fates|
    decreases actions
  {
    if actions != [] {
      DrainsAcceptNothing(Step(s, actions[0]), actions[1..], end);
    }
  }

  // ------------------------------------------------------------ one thread alone

  function SendActions(t: nat, sends: seq<bool>): (actions: seq<Action>)
    ensures |actions| == |sends| && forall i :: 0 <= i < |sends| ==> actions[i] == Send(t, sends[i])
  {
    seq(|sends|, i requires 0 <= i < |sends| => Send(t, sends[i]))
  }

  lemma {:induction false} SendsRun(s: State, t: nat, k: nat, n: nat, sends: seq<bool>)
    requires n < |sends| && Complete(sends) && t < |s.threads| && k < |s.fates|
    requires s.threads[t] == Sending(k) && s.fates[k].sends == sends[..n]
    ensures IsRun(s, SendActions(t, sends)[n..],
                  s.(fates := s.fates[k := s.fates[k].(sends := sends)], threads := s.threads[t := Sent(k)]))
    decreases |sends| - n
  {
    var actions, a := SendActions(t, sends)[n..], Send(t, sends[n]);
    var r := Step(s, a);
    assert actions[0] == a && actions[1..] == SendActions(t, sends)[n + 1..];
    assert sends[..n] + [sends[n]] == sends[..n + 1];
    if n + 1 < |sends| {
      SendsRun(r, t, k, n + 1, sends);
      assert r.fates[k := r.fates[k].(sends := sends)] == s.fates[k := s.fates[k].(sends := sends)];
      assert r.threads[t := Sent(k)] == s.threads[t := Sent(k)];
    } else {
      assert sends[..n + 1] == sends;
      assert actions[1..] == [];
    }
  }

  /** What one call of PushNotification does is a run of the threads: from rest, a
      thread can push, pop its own message, hand it over, make any complete series
      of sends and free it, and then all rest again. */
  lemma OneCallIsARun(s: State, t: nat, sends: seq<bool>)
    requires Inv(s) && AtRest(s) && s.registered && t < |s.threads| && Complete(sends)
    ensures IsRun(s, [Push(t, true, true), Pop(t), HandOver(t)] + SendActions(t, sends) + [Free(t)],
                  s.(fates := s.fates + [Fate(1, sends, 1)], popped := s.popped + [|s.fates|]))
  {
    hide Inv, Enabled;
    var k := |s.fates|;
    AtRestIsEmpty(s);
    var s3 := s.(fates := s.fates + [Fate(1, [], 0)], popped := s.popped + [k], threads := s.threads[t := Sending(k)]);
    HandsOver(s, t);
    SendsRun(s3, t, k, 0, sends);
    var s4 := s3.(fates := s3.fates[k := Fate(1, sends, 0)], threads := s3.threads[t := Sent(k)]);
    assert SendActions(t, sends)[0..] == SendActions(t, sends);
    RunsConcat(s, [Push(t, true, true), Pop(t), HandOver(t)], s3, SendActions(t, sends), s4);
    var end := s.(fates := s.fates + [Fate(1, sends, 1)], popped := s.popped + [k]);
    FreesLast(s, s4, t, sends);
    RunsConcat(s, [Push(t, true, true), Pop(t), HandOver(t)] + SendActions(t, sends), s4, [Free(t)], end);
  }

  lemma AtRestIsEmpty(s: State)
    requires Inv(s) && AtRest(s)
    ensures s.queue == []
  {
    NonePushed(s.threads);
  }

  lemma HandsOver(s: State, t: nat)
    requires AtRest(s) && s.queue == [] && s.registered && t < |s.threads|
    ensures var k := |s.fates|;
            IsRun(s, [Push(t, true, true), Pop(t), HandOver(t)],
                  s.(fates := s.fates + [Fate(1, [], 0)], popped := s.popped + [k],
                     threads := s.threads[t := Sending(k)]))
  {
    var k := |s.fates|;
    var all := [Push(t, true, true), Pop(t), HandOver(t)];
    var s1 := Step(s, all[0]);
    var s2 := Step(s1, all[1]);
    var s3 := Step(s2, all[2]);
    assert all[1..] == [all[1], all[2]] && all[1..][1..] == [all[2]] && all[1..][1..][1..] == [];
    assert s3.fates == s.fates + [Fate(1, [], 0)];
    assert s3.threads == s.threads[t := Sending(k)];
    assert IsRun(s3, [], s3) && IsRun(s2, [all[2]], s3);
    assert IsRun(s1, [all[1], all[2]], s3);
  }

  lemma FreesLast(s: State, s4: State, t: nat, sends: seq<bool>)
    requires AtRest(s) && t < |s.threads|
    requires s4 == s.(fates := s.fates + [Fate(1, sends, 0)], popped := s.popped + [|s.fates|],
                      threads := s.threads[t := Sent(|s.fates|)])
    ensures IsRun(s4, [Free(t)], s.(fates := s.fates + [Fate(1, sends, 1)], popped := s.popped + [|s.fates|]))
  {
    var r := Step(s4, Free(t));
    assert r.threads == s.threads;
    assert r.fates == s.fates + [Fate(1, sends, 1)];
    assert [Free(t)][1..] == [] && IsRun(r, [], r);
  }
}
