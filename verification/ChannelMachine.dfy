// The bounded channel as a state machine: each lock-protected section of nr_channel_send,
// nr_channel_recv and nr_channel_close is one step, as is a spurious wakeup.
module ChannelMachine {
  import opened Wrappers

  type Tid = nat
  type V = int // NrVal: a boxed 64-bit value

  /** Where a thread is with respect to the channel. A woken thread has left the condition variable
      but has not yet re-acquired the lock. */
  datatype Status =
    | Out
    | SleepSend(v: V) | WokenSend(v: V)
    | SleepRecv | WokenRecv

  /** `accepted` and `received` record, in order, the values of successful sends and receives. */
  datatype State = State(
    cap: nat, queue: seq<V>, closed: bool, threads: map<Tid, Status>, accepted: seq<V>, received: seq<V>)

  /** `wake` is the thread that the signal of this section unblocks, if any sleeps. */
  datatype Event =
    | Send(t: Tid, v: V, wake: Option<Tid>)
    | Recv(t: Tid, wake: Option<Tid>)
    | Close
    | Spurious(t: Tid)

  function SleepingSenders(m: map<Tid, Status>): set<Tid> { set t | t in m && m[t].SleepSend? }
  function WokenSenders(m: map<Tid, Status>): set<Tid> { set t | t in m && m[t].WokenSend? }
  function SleepingReceivers(m: map<Tid, Status>): set<Tid> { set t | t in m && m[t].SleepRecv? }
  function WokenReceivers(m: map<Tid, Status>): set<Tid> { set t | t in m && m[t].WokenRecv? }

  /** A signal wakes one of the sleepers, and does nothing only when there is none. */
  predicate MayWake(sleepers: set<Tid>, w: Option<Tid>) {
    if sleepers == {} then w == None else w.Some? && w.value in sleepers
  }

  function Awake(st: Status): Status {
    match st
    case Out => Out
    case SleepSend(v) => WokenSend(v)
    case WokenSend(v) => WokenSend(v)
    case SleepRecv => WokenRecv
    case WokenRecv => WokenRecv
  }

  function Wake(m: map<Tid, Status>, w: Option<Tid>): map<Tid, Status> {
    if w.Some? && w.value in m then m[w.value := Awake(m[w.value])] else m
  }

  function WakeAll(m: map<Tid, Status>): map<Tid, Status> {
    map t | t in m :: Awake(m[t])
  }

  predicate Full(s: State) { |s.queue| == s.cap }

  predicate Enabled(s: State, e: Event) {
    match e
    case Send(t, v, w) =>
      t in s.threads && (s.threads[t] == Out || s.threads[t] == WokenSend(v)) &&
      (if Full(s) || s.closed then w == None else MayWake(SleepingReceivers(s.threads), w))
    case Recv(t, w) =>
      t in s.threads && (s.threads[t].Out? || s.threads[t].WokenRecv?) &&
      (if s.queue == [] then w == None else MayWake(SleepingSenders(s.threads), w))
    case Close => true
    case Spurious(t) => t in s.threads && (s.threads[t].SleepSend? || s.threads[t].SleepRecv?)
  }

  function Apply(s: State, e: Event): State
    requires Enabled(s, e)
  {
    match e
    case Send(t, v, w) =>
      if Full(s) && !s.closed then s.(threads := s.threads[t := SleepSend(v)])
      else if s.closed then s.(threads := s.threads[t := Out])
      else s.(queue := s.queue + [v], accepted := s.accepted + [v], threads := Wake(s.threads[t := Out], w))
    case Recv(t, w) =>
      if s.queue == [] && !s.closed then s.(threads := s.threads[t := SleepRecv])
      else if s.queue == [] then s.(threads := s.threads[t := Out])
      else s.(queue := s.queue[1..], received := s.received + [s.queue[0]], threads := Wake(s.threads[t := Out], w))
    case Close => s.(closed := true, threads := WakeAll(s.threads))
    case Spurious(t) => s.(threads := s.threads[t := Awake(s.threads[t])])
  }

  ghost predicate Initial(s: State) {
    s.queue == [] && !s.closed && s.accepted == [] && s.received == [] &&
    forall t :: t in s.threads ==> s.threads[t].Out?
  }

  ghost predicate Run(init: State, events: seq<Event>, last: State)
    decreases |events|
  {
    if events == [] then init == last
    else Enabled(init, events[0]) && Run(Apply(init, events[0]), events[1..], last)
  }

  // ---- The invariant ------------------------------------------------------------------------

  /** While the channel is open, a sleeping receiver means that every queued value already has a
      woken receiver on its way, and a sleeping sender the same for every free slot. */
  ghost predicate NoLostWakeup(s: State) {
    && (!s.closed && SleepingReceivers(s.threads) != {} ==> |s.queue| <= |WokenReceivers(s.threads)|)
    && (!s.closed && SleepingSenders(s.threads) != {} ==> s.cap - |s.queue| <= |WokenSenders(s.threads)|)
    && (s.closed ==> SleepingReceivers(s.threads) == {} && SleepingSenders(s.threads) == {})
  }

  /** First in, first out, nothing lost, never over capacity. */
  ghost predicate Fifo(s: State) {
    s.accepted == s.received + s.queue && |s.queue| <= s.cap
  }

  ghost predicate Inv(s: State) { NoLostWakeup(s) && Fifo(s) }

  lemma SetsAfterUpdate(m: map<Tid, Status>, t: Tid, st: Status)
    ensures var m' := m[t := st];
      && SleepingSenders(m') == (if st.SleepSend? then SleepingSenders(m) + {t} else SleepingSenders(m) - {t})
      && WokenSenders(m') == (if st.WokenSend? then WokenSenders(m) + {t} else WokenSenders(m) - {t})
      && SleepingReceivers(m') == (if st.SleepRecv? then SleepingReceivers(m) + {t} else SleepingReceivers(m) - {t})
      && WokenReceivers(m') == (if st.WokenRecv? then WokenReceivers(m) + {t} else WokenReceivers(m) - {t})
  {
  }

  /** Leaving the channel: one woken thread less if t was woken, nobody else changes. */
  lemma LeavingCounts(m: map<Tid, Status>, t: Tid)
    requires t in m && !m[t].SleepSend? && !m[t].SleepRecv?
    ensures var m' := m[t := Out];
      && SleepingSenders(m') == SleepingSenders(m) && SleepingReceivers(m') == SleepingReceivers(m)
      && |WokenSenders(m')| == |WokenSenders(m)| - (if m[t].WokenSend? then 1 else 0)
      && |WokenReceivers(m')| == |WokenReceivers(m)| - (if m[t].WokenRecv? then 1 else 0)
  {
    SetsAfterUpdate(m, t, Out);
    if !m[t].WokenSend? { assert WokenSenders(m) - {t} == WokenSenders(m); }
    if !m[t].WokenRecv? { assert WokenReceivers(m) - {t} == WokenReceivers(m); }
    assert SleepingSenders(m) - {t} == SleepingSenders(m) && SleepingReceivers(m) - {t} == SleepingReceivers(m);
  }

  /** Waking a sleeper: it moves from sleeping to woken. */
  lemma WakingCounts(m: map<Tid, Status>, t: Tid)
    requires t in m && (m[t].SleepSend? || m[t].SleepRecv?)
    ensures var m' := m[t := Awake(m[t])];
      && SleepingSenders(m') == SleepingSenders(m) - {t} && SleepingReceivers(m') == SleepingReceivers(m) - {t}
      && |WokenSenders(m')| == |WokenSenders(m)| + (if m[t].SleepSend? then 1 else 0)
      && |WokenReceivers(m')| == |WokenReceivers(m)| + (if m[t].SleepRecv? then 1 else 0)
  {
    SetsAfterUpdate(m, t, Awake(m[t]));
    assert t !in WokenSenders(m) && t !in WokenReceivers(m);
    if !m[t].SleepSend? { assert WokenSenders(m) - {t} == WokenSenders(m); }
    if !m[t].SleepRecv? { assert WokenReceivers(m) - {t} == WokenReceivers(m); }
  }

  lemma SendKeepsInv(s: State, t: Tid, v: V, w: Option<Tid>)
    requires Inv(s) && Enabled(s, Send(t, v, w))
    ensures Inv(Apply(s, Send(t, v, w)))
  {
    LeavingCounts(s.threads, t);
    if s.closed {
    } else if Full(s) {
      SetsAfterUpdate(s.threads, t, SleepSend(v));
      assert WokenReceivers(s.threads) - {t} == WokenReceivers(s.threads);
    } else {
      var m := s.threads[t := Out];
      if w.Some? { WakingCounts(m, w.value); }
      if SleepingSenders(m) != {} { assert w.Some? ==> w.value !in SleepingSenders(m); }
    }
  }

  lemma RecvKeepsInv(s: State, t: Tid, w: Option<Tid>)
    requires Inv(s) && Enabled(s, Recv(t, w))
    ensures Inv(Apply(s, Recv(t, w)))
  {
    LeavingCounts(s.threads, t);
    if s.queue != [] {
      var m := s.threads[t := Out];
      if w.Some? { WakingCounts(m, w.value); }
      assert s.queue == [s.queue[0]] + s.queue[1..];
    } else if !s.closed {
      SetsAfterUpdate(s.threads, t, SleepRecv);
      assert WokenSenders(s.threads) - {t} == WokenSenders(s.threads);
    }
  }

  /** A step moves only its own thread, and otherwise only wakes sleepers. */
  lemma OthersOnlyWake(s: State, e: Event)
    requires Enabled(s, e)
    ensures Apply(s, e).threads.Keys == s.threads.Keys
    ensures forall u :: u in s.threads && !(e.Send? && u == e.t) && !(e.Recv? && u == e.t) ==>
              Apply(s, e).threads[u] == s.threads[u] || Apply(s, e).threads[u] == Awake(s.threads[u])
  {
  }

  lemma StepKeepsInv(s: State, e: Event)
    requires Inv(s) && Enabled(s, e)
    ensures Inv(Apply(s, e))
  {
    match e
    case Send(t, v, w) => SendKeepsInv(s, t, v, w);
    case Recv(t, w) => RecvKeepsInv(s, t, w);
    case Close =>
    case Spurious(t) => WakingCounts(s.threads, t);
  }

  lemma {:induction false} RunKeepsInv(init: State, events: seq<Event>, last: State)
    requires Inv(init) && Run(init, events, last)
    ensures Inv(last) && last.cap == init.cap && last.threads.Keys == init.threads.Keys
    decreases |events|
  {
    if events != [] {
      StepKeepsInv(init, events[0]);
      RunKeepsInv(Apply(init, events[0]), events[1..], last);
    }
  }

  /** In every run of a channel of capacity at least 1, no wakeup is lost, and a sender and a receiver
      never sleep at the same time with no woken thread between them. */
  lemma ChannelSafety(init: State, events: seq<Event>, last: State)
    requires Initial(init) && init.cap >= 1 && Run(init, events, last)
    ensures NoLostWakeup(last) && Fifo(last)
    ensures SleepingSenders(last.threads) != {} && SleepingReceivers(last.threads) != {} ==>
            WokenSenders(last.threads) + WokenReceivers(last.threads) != {}
    ensures last.closed ==> SleepingSenders(last.threads) + SleepingReceivers(last.threads) == {}
  {
    assert SleepingSenders(init.threads) == {} && SleepingReceivers(init.threads) == {};
    RunKeepsInv(init, events, last);
  }

  // ---- What is passed on --------------------------------------------------------------------

  /** The values that the calls of nr_channel_send were made with, of those passes that find the channel open and
      not full, in order. `calls` holds the argument of each thread's latest call: a thread that slept comes back
      with the call it slept in. */
  ghost function Offered(s: State, events: seq<Event>, calls: map<Tid, V>): seq<V>
    decreases |events|
  {
    if events == [] || !Enabled(s, events[0]) then []
    else
      var e := events[0];
      var calls1 := if e.Send? && s.threads[e.t].Out? then calls[e.t := e.v] else calls;
      Offer(s, e, calls1) + Offered(Apply(s, e), events[1..], calls1)
  }

  function Offer(s: State, e: Event, calls: map<Tid, V>): seq<V> {
    if e.Send? && !s.closed && |s.queue| < s.cap && e.t in calls then [calls[e.t]] else []
  }

  /** How many passes of nr_channel_recv find a value. */
  ghost function Taken(s: State, events: seq<Event>): nat
    decreases |events|
  {
    if events == [] || !Enabled(s, events[0]) then 0
    else (if events[0].Recv? && s.queue != [] then 1 else 0) + Taken(Apply(s, events[0]), events[1..])
  }

  /** A thread inside a send is there with the argument of its latest call. */
  ghost predicate Remembers(s: State, calls: map<Tid, V>) {
    forall t :: t in s.threads && (s.threads[t].SleepSend? || s.threads[t].WokenSend?) ==>
      t in calls && calls[t] == s.threads[t].v
  }

  lemma {:induction false} RunPassesOn(s: State, events: seq<Event>, last: State, calls: map<Tid, V>)
    requires Inv(s) && Remembers(s, calls) && Run(s, events, last)
    ensures last.accepted == s.accepted + Offered(s, events, calls)
    ensures |last.received| == |s.received| + Taken(s, events)
    decreases |events|
  {
    if events != [] {
      var e := events[0];
      var calls1 := if e.Send? && s.threads[e.t].Out? then calls[e.t := e.v] else calls;
      StepKeepsInv(s, e);
      StepRemembers(s, e, calls, calls1);
      StepPassesOn(s, e, calls1);
      RunPassesOn(Apply(s, e), events[1..], last, calls1);
      Regroup(s.accepted, Offer(s, e, calls1), Offered(Apply(s, e), events[1..], calls1));
    } else {
      assert s.accepted + [] == s.accepted;
    }
  }

  lemma StepPassesOn(s: State, e: Event, calls: map<Tid, V>)
    requires Inv(s) && Enabled(s, e) && (e.Send? ==> e.t in calls && calls[e.t] == e.v)
    ensures Apply(s, e).accepted == s.accepted + Offer(s, e, calls)
    ensures |Apply(s, e).received| == |s.received| + if e.Recv? && s.queue != [] then 1 else 0
  {
  }

  lemma StepRemembers(s: State, e: Event, calls: map<Tid, V>, calls1: map<Tid, V>)
    requires Remembers(s, calls) && Enabled(s, e)
    requires calls1 == if e.Send? && s.threads[e.t].Out? then calls[e.t := e.v] else calls
    ensures Remembers(Apply(s, e), calls1)
    ensures e.Send? ==> e.t in calls1 && calls1[e.t] == e.v
  {
  }

  /** In every run the values received are those that the accepted calls sent, in order, the first of them: the
      k-th value received is the argument of the k-th accepted call, and the rest is in the queue. */
  lemma ReceivedAreSent(init: State, events: seq<Event>, last: State)
    requires Initial(init) && Run(init, events, last)
    ensures var sent, n := Offered(init, events, map[]), Taken(init, events);
            n <= |sent| && last.received == sent[..n] && last.queue == sent[n..]
  {
    assert SleepingSenders(init.threads) == {} && SleepingReceivers(init.threads) == {};
    RunPassesOn(init, events, last, map[]);
    RunKeepsInv(init, events, last);
    assert init.accepted + Offered(init, events, map[]) == Offered(init, events, map[]);
  }

  /** With capacity 0 nothing is ever passed on, and until the channel is closed no thread gets out again. */
  lemma {:induction false} CapacityZeroPassesNothing(s: State, events: seq<Event>, last: State)
    requires s.cap == 0 && Inv(s) && s.accepted == [] && Run(s, events, last)
    ensures last.accepted == [] && last.received == []
    ensures !last.closed ==> !s.closed && forall t :: t in s.threads && !s.threads[t].Out? ==>
              t in last.threads && !last.threads[t].Out?
    decreases |events|
  {
    if events != [] {
      StepKeepsInv(s, events[0]);
      CapacityZeroPassesNothing(Apply(s, events[0]), events[1..], last);
    }
  }

  /** With capacity 0 the guarantee is void: a sender and a receiver meet and both sleep for good. */
  lemma CapacityZeroDeadlocks()
    ensures var init := State(0, [], false, map[1 := Out, 2 := Out], [], []);
            var last := init.(threads := map[1 := SleepSend(5), 2 := SleepRecv]);
            Initial(init) && Run(init, [Send(1, 5, None), Recv(2, None)], last)
            && WokenSenders(last.threads) == {} == WokenReceivers(last.threads)
  {
    var init := State(0, [], false, map[1 := Out, 2 := Out], [], []);
    var s1 := Apply(init, Send(1, 5, None));
    var last := init.(threads := map[1 := SleepSend(5), 2 := SleepRecv]);
    assert s1.threads == map[1 := SleepSend(5), 2 := Out];
    assert Apply(s1, Recv(2, None)).threads == last.threads;
    assert Run(s1, [Recv(2, None)], last) by { assert [Recv(2, None)][1..] == []; }
    assert [Send(1, 5, None), Recv(2, None)][1..] == [Recv(2, None)];
  }

  /** A closed channel hands out exactly what it still holds and then reports the end: once closed,
      nothing more is ever accepted. */
  lemma {:induction false} ClosedAcceptsNothing(s: State, events: seq<Event>, last: State)
    requires s.closed && Inv(s) && Run(s, events, last)
    ensures last.closed && last.accepted == s.accepted && s.received <= last.received
    decreases |events|
  {
    if events != [] {
      StepKeepsInv(s, events[0]);
      ClosedAcceptsNothing(Apply(s, events[0]), events[1..], last);
    }
  }
}
