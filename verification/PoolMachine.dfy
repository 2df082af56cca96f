// The thread pool as a state machine over the channel machine: workers receive and run tasks until
// the channel reports its end; shutdown closes the channel and joins every worker.
module PoolMachine {
  import C = ChannelMachine
  import opened Wrappers

  /** Running(k): executing the k-th value received from the channel. */
  datatype Worker = InLoop | Running(k: nat) | Exited

  datatype Phase = Open | Joining | Returned

  /** `ran` lists, in order of completion, which received values have been executed. */
  datatype State = State(chan: C.State, workers: map<C.Tid, Worker>, phase: Phase, ran: seq<nat>)

  datatype Event =
    | Submit(t: C.Tid, task: C.V, wake: Option<C.Tid>)
    | Work(t: C.Tid, wake: Option<C.Tid>)
    | Finish(t: C.Tid)
    | Spurious(t: C.Tid)
    | CloseTasks
    | AllJoined

  function Channel(e: Event): Option<C.Event> {
    match e
    case Submit(t, v, w) => Some(C.Send(t, v, w))
    case Work(t, w) => Some(C.Recv(t, w))
    case Spurious(t) => Some(C.Spurious(t))
    case CloseTasks => Some(C.Close)
    case Finish(_) => None
    case AllJoined => None
  }

  /** Submitting threads are not workers, and nothing touches the pool after shutdown returned: it
      has been freed. */
  predicate Enabled(s: State, e: Event) {
    && s.phase != Returned
    && (Channel(e).Some? ==> C.Enabled(s.chan, Channel(e).value))
    && match e
       case Submit(t, _, _) => t !in s.workers
       case Work(t, _) => t in s.workers && s.workers[t].InLoop?
       case Finish(t) => t in s.workers && s.workers[t].Running?
       case Spurious(_) => true
       case CloseTasks => s.phase == Open
       case AllJoined => s.phase == Joining && forall t :: t in s.workers ==> s.workers[t].Exited?
  }

  function Apply(s: State, e: Event): State
    requires Enabled(s, e)
  {
    var s' := if Channel(e).Some? then s.(chan := C.Apply(s.chan, Channel(e).value)) else s;
    match e
    case Submit(_, _, _) => s'
    case Work(t, _) =>
      if s.chan.queue != [] then s'.(workers := s.workers[t := Running(|s.chan.received|)])
      else if s.chan.closed then s'.(workers := s.workers[t := Exited])
      else s'
    case Finish(t) => s'.(workers := s.workers[t := InLoop], ran := s.ran + [s.workers[t].k])
    case Spurious(_) => s'
    case CloseTasks => s'.(phase := Joining)
    case AllJoined => s'.(phase := Returned)
  }

  ghost predicate Initial(s: State) {
    && C.Initial(s.chan) && s.phase == Open && s.ran == []
    && s.workers.Keys <= s.chan.threads.Keys
    && forall t :: t in s.workers ==> s.workers[t].InLoop?
  }

  ghost predicate Run(init: State, events: seq<Event>, last: State)
    decreases |events|
  {
    if events == [] then init == last
    else Enabled(init, events[0]) && Run(Apply(init, events[0]), events[1..], last)
  }

  // ---- Invariant ----------------------------------------------------------------------------

  ghost predicate IsRunning(s: State, k: nat) {
    exists t :: t in s.workers && s.workers[t] == Running(k)
  }

  /** Each received task is either executed once and for all, or in the hands of exactly one worker. */
  ghost predicate OnceEach(s: State) {
    && (forall k: nat :: k < |s.chan.received| <==> k in s.ran || IsRunning(s, k))
    && (forall i, j :: 0 <= i < j < |s.ran| ==> s.ran[i] != s.ran[j])
    && (forall t :: t in s.workers && s.workers[t].Running? ==> s.workers[t].k !in s.ran)
    && (forall t, u :: t in s.workers && u in s.workers && s.workers[t].Running? && s.workers[t] == s.workers[u] ==>
          t == u)
  }

  /** A worker is in the channel only as a receiver, and only while in its loop. */
  ghost predicate WorkersReceive(s: State) {
    forall t :: t in s.workers ==>
      && t in s.chan.threads && !s.chan.threads[t].SleepSend? && !s.chan.threads[t].WokenSend?
      && (s.workers[t].InLoop? || s.chan.threads[t].Out?)
  }

  ghost predicate Inv(s: State) {
    && C.Inv(s.chan) && OnceEach(s) && WorkersReceive(s)
    && (forall t :: t in s.workers && s.workers[t].Exited? ==> s.chan.closed && s.chan.queue == [])
    && (s.phase != Open <==> s.chan.closed)
    && (s.phase == Returned ==> forall t :: t in s.workers ==> s.workers[t].Exited?)
  }

  lemma WorkKeepsOnceEach(s: State, t: C.Tid, w: Option<C.Tid>)
    requires Inv(s) && Enabled(s, Work(t, w)) && s.chan.queue != []
    ensures OnceEach(Apply(s, Work(t, w)))
  {
    var s' := Apply(s, Work(t, w));
    var n := |s.chan.received|;
    assert s'.workers[t] == Running(n) && |s'.chan.received| == n + 1;
    assert n !in s.ran && !IsRunning(s, n);
    forall k: nat ensures IsRunning(s', k) <==> k == n || IsRunning(s, k) {
      if IsRunning(s, k) { var u :| u in s.workers && s.workers[u] == Running(k); assert s'.workers[u] == Running(k); }
    }
  }

  lemma FinishKeepsOnceEach(s: State, t: C.Tid)
    requires Inv(s) && Enabled(s, Finish(t))
    ensures OnceEach(Apply(s, Finish(t)))
  {
    var s' := Apply(s, Finish(t));
    var n := s.workers[t].k;
    assert IsRunning(s, n);
    forall k: nat ensures IsRunning(s', k) <==> k != n && IsRunning(s, k) {
      if IsRunning(s, k) && k != n {
        var u :| u in s.workers && s.workers[u] == Running(k);
        assert s'.workers[u] == Running(k);
      }
    }
    assert forall k: nat :: k in s'.ran <==> k in s.ran || k == n;
  }

  lemma SameWorkersKeepOnceEach(s: State, s': State)
    requires OnceEach(s) && |s'.chan.received| == |s.chan.received| && s'.ran == s.ran
    requires s'.workers == s.workers
             || exists t :: t in s.workers && s.workers[t].InLoop? && s'.workers == s.workers[t := Exited]
    ensures OnceEach(s')
  {
    forall k: nat ensures IsRunning(s', k) <==> IsRunning(s, k) {
      if IsRunning(s, k) { var u :| u in s.workers && s.workers[u] == Running(k); assert s'.workers[u] == Running(k); }
      if IsRunning(s', k) {
        var u :| u in s'.workers && s'.workers[u] == Running(k);
        assert s.workers[u] == Running(k);
      }
    }
  }

  lemma StepKeepsWorkersReceive(s: State, e: Event)
    requires WorkersReceive(s) && Enabled(s, e)
    ensures WorkersReceive(Apply(s, e))
  {
    if Channel(e).Some? { C.OthersOnlyWake(s.chan, Channel(e).value); }
  }

  lemma StepKeepsOnceEach(s: State, e: Event)
    requires Inv(s) && Enabled(s, e)
    ensures OnceEach(Apply(s, e))
  {
    match e
    case Work(t, w) =>
      if s.chan.queue != [] { WorkKeepsOnceEach(s, t, w); } else { SameWorkersKeepOnceEach(s, Apply(s, e)); }
    case Finish(t) => FinishKeepsOnceEach(s, t);
    case Submit(_, _, _) => SameWorkersKeepOnceEach(s, Apply(s, e));
    case Spurious(_) => SameWorkersKeepOnceEach(s, Apply(s, e));
    case CloseTasks => SameWorkersKeepOnceEach(s, Apply(s, e));
    case AllJoined => SameWorkersKeepOnceEach(s, Apply(s, e));
  }

  lemma StepKeepsInv(s: State, e: Event)
    requires Inv(s) && Enabled(s, e)
    ensures Inv(Apply(s, e))
  {
    if Channel(e).Some? { C.StepKeepsInv(s.chan, Channel(e).value); }
    StepKeepsOnceEach(s, e);
    StepKeepsWorkersReceive(s, e);
    assert s.chan.closed ==> Apply(s, e).chan.closed;
    assert s.chan.closed && s.chan.queue == [] ==> Apply(s, e).chan.queue == [];
  }

  lemma {:induction false} RunKeepsInv(init: State, events: seq<Event>, last: State)
    requires Inv(init) && Run(init, events, last)
    ensures Inv(last) && last.workers.Keys == init.workers.Keys
    decreases |events|
  {
    if events != [] {
      StepKeepsInv(init, events[0]);
      RunKeepsInv(Apply(init, events[0]), events[1..], last);
    }
  }

  lemma InitialInv(s: State)
    requires Initial(s)
    ensures Inv(s)
  {
    assert C.SleepingSenders(s.chan.threads) == {} && C.SleepingReceivers(s.chan.threads) == {};
  }

  /** When shutdown of a pool with at least one worker returns, every accepted task has run exactly
      once, in the sense of `ran` being a permutation of all positions of the accepted sequence. */
  lemma ShutdownRanEverything(init: State, events: seq<Event>, last: State)
    requires Initial(init) && init.workers != map[] && Run(init, events, last) && last.phase == Returned
    ensures last.chan.queue == [] && last.chan.received == last.chan.accepted
    ensures forall k: nat :: k < |last.chan.accepted| <==> k in last.ran
    ensures forall i, j :: 0 <= i < j < |last.ran| ==> last.ran[i] != last.ran[j]
  {
    InitialInv(init);
    RunKeepsInv(init, events, last);
    assert init.workers.Keys != {};
    var t :| t in init.workers.Keys;
    assert last.workers[t].Exited?;
    assert last.chan.received + [] == last.chan.received;
  }

  /** What happens to the channel in a run of the pool. */
  function ChannelEvents(events: seq<Event>): seq<C.Event> {
    if events == [] then []
    else (if Channel(events[0]).Some? then [Channel(events[0]).value] else []) + ChannelEvents(events[1..])
  }

  lemma {:induction false} ChannelRuns(s: State, events: seq<Event>, last: State)
    requires Run(s, events, last)
    ensures C.Run(s.chan, ChannelEvents(events), last.chan)
    decreases |events|
  {
    if events != [] {
      ChannelRuns(Apply(s, events[0]), events[1..], last);
      var es := ChannelEvents(events);
      if Channel(events[0]).Some? {
        assert es[0] == Channel(events[0]).value && es[1..] == ChannelEvents(events[1..]);
      } else {
        assert es == ChannelEvents(events[1..]);
      }
    }
  }

  /** The tasks received are those that were submitted, in order; the worker that gets the k-th runs the k-th. */
  lemma TasksAreSubmitted(init: State, events: seq<Event>, last: State)
    requires Initial(init) && Run(init, events, last)
    ensures var tasks := C.Offered(init.chan, ChannelEvents(events), map[]);
            |last.chan.received| <= |tasks| && last.chan.received == tasks[..|last.chan.received|]
            && last.chan.accepted == tasks
  {
    ChannelRuns(init, events, last);
    C.ReceivedAreSent(init.chan, ChannelEvents(events), last.chan);
    InitialInv(init);
    RunKeepsInv(init, events, last);
    C.RunPassesOn(init.chan, ChannelEvents(events), last.chan, map[]);
    assert init.chan.accepted + last.chan.accepted == last.chan.accepted;
  }

  lemma {:induction false} NoWorkersReceiveNothing(s: State, events: seq<Event>, last: State)
    requires Inv(s) && s.workers == map[] && s.chan.received == [] && Run(s, events, last)
    ensures last.chan.received == []
    decreases |events|
  {
    if events != [] {
      StepKeepsInv(s, events[0]);
      NoWorkersReceiveNothing(Apply(s, events[0]), events[1..], last);
    }
  }

  /** When shutdown returns, every accepted task has run if and only if there was a worker or nothing to run. */
  lemma ShutdownRanAllExactly(init: State, events: seq<Event>, last: State)
    requires Initial(init) && Run(init, events, last) && last.phase == Returned
    ensures (forall k: nat :: k < |last.chan.accepted| ==> k in last.ran) <==>
            init.workers != map[] || last.chan.accepted == []
  {
    if init.workers != map[] {
      ShutdownRanEverything(init, events, last);
    } else {
      InitialInv(init);
      RunKeepsInv(init, events, last);
      NoWorkersReceiveNothing(init, events, last);
      if 0 < |last.chan.accepted| { assert 0 !in last.ran; }
    }
  }

  /** Without workers the guarantee is void: an accepted task is dropped. */
  lemma NoWorkersDropTasks()
    ensures var chan := C.State.State(1, [], false, map[1 := C.Out], [], []);
            var init := State.State(chan, map[], Open, []);
            var last := State.State(chan.(queue := [5], accepted := [5], closed := true), map[], Returned, []);
            Initial(init) && Run(init, [Submit(1, 5, None), CloseTasks, AllJoined], last)
  {
    var chan := C.State.State(1, [], false, map[1 := C.Out], [], []);
    var init := State.State(chan, map[], Open, []);
    var es := [Submit(1, 5, None), CloseTasks, AllJoined];
    assert C.SleepingReceivers(chan.threads) == {};
    var s1 := Apply(init, es[0]);
    assert s1.chan.threads == map[1 := C.Out] && s1.chan.queue == [5];
    var s2 := Apply(s1, es[1]);
    assert s2.chan.threads == map[1 := C.Out];
    var s3 := Apply(s2, es[2]);
    assert es[1..][0] == CloseTasks && es[1..][1..] == [AllJoined] && [AllJoined][1..] == [];
    assert Run(s2, [AllJoined], s3) && Run(s1, es[1..], s3);
  }

  // ---- Shutdown terminates ------------------------------------------------------------------

  ghost function Looping(s: State): set<C.Tid> { set t | t in s.workers && s.workers[t].InLoop? }
  ghost function Busy(s: State): set<C.Tid> { set t | t in s.workers && s.workers[t].Running? }

  /** Work left once the channel is closed. */
  ghost function Left(s: State): nat { 3 * |s.chan.queue| + |Looping(s)| + 2 * |Busy(s)| }

  /** While shutdown waits, either all workers have exited or one of them can step; and every step a
      worker takes uses up some of the work left. So the joins return. */
  lemma ShutdownMakesProgress(s: State)
    requires Inv(s) && s.phase == Joining
    ensures Enabled(s, AllJoined) || (exists t :: Enabled(s, Work(t, None))) || (exists t :: Enabled(s, Finish(t)))
  {
    if !Enabled(s, AllJoined) {
      var t :| t in s.workers && !s.workers[t].Exited?;
      if s.workers[t].Running? {
        assert Enabled(s, Finish(t));
      } else {
        assert t !in C.SleepingReceivers(s.chan.threads) && C.SleepingSenders(s.chan.threads) == {};
        assert Enabled(s, Work(t, None));
      }
    }
  }

  lemma WorkerCounts(s: State, t: C.Tid, st: Worker)
    requires t in s.workers && (s.workers[t].InLoop? <==> !st.InLoop?)
    ensures var s' := s.(workers := s.workers[t := st]);
      && |Looping(s')| == |Looping(s)| + (if st.InLoop? then 1 else 0) - (if s.workers[t].InLoop? then 1 else 0)
      && |Busy(s')| == |Busy(s)| + (if st.Running? then 1 else 0) - (if s.workers[t].Running? then 1 else 0)
  {
    var s' := s.(workers := s.workers[t := st]);
    assert Looping(s') == if st.InLoop? then Looping(s) + {t} else Looping(s) - {t};
    assert Busy(s') == if st.Running? then Busy(s) + {t} else Busy(s) - {t};
  }

  lemma WorkerStepsUseUpWork(s: State, e: Event)
    requires Inv(s) && s.phase == Joining && Enabled(s, e)
    ensures (e.Work? || e.Finish?) ==> Left(Apply(s, e)) < Left(s)
    ensures e.Submit? || e.Spurious? ==> Left(Apply(s, e)) == Left(s)
  {
    if e.Work? || e.Finish? {
      var s' := Apply(s, e);
      WorkerCounts(s, e.t, s'.workers[e.t]);
      assert Looping(s') == Looping(s.(workers := s'.workers)) && Busy(s') == Busy(s.(workers := s'.workers));
    }
  }
}
