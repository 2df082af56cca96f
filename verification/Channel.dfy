// The channel's own form: a ring buffer under a lock. Each method is the body of one lock-protected
// section, from acquiring the lock to releasing it or going to sleep, and refines one machine step.
module Channel {
  import opened ChannelMachine
  import opened Wrappers

  datatype Outcome = Blocked | Ended | Sent | Got(value: V)

  class NrChannel {
    const cap: nat
    const buffer: array<V>
    var head: nat
    var tail: nat
    var count: nat
    var closed: bool
    var threads: map<Tid, Status>
    ghost var accepted: seq<V>
    ghost var received: seq<V>

    ghost predicate Valid()
      reads this
    {
      && buffer.Length == cap && count <= cap
      && if cap == 0 then head == tail == 0 else head < cap && tail == Slot(head, count, cap)
    }

    ghost function Contents(): (s: seq<V>)
      reads this, buffer
      requires Valid()
      ensures |s| == count
    {
      Ring(buffer[..], head, count)
    }

    ghost function Abs(): State
      reads this, buffer
      requires Valid()
    {
      State.State(cap, Contents(), closed, threads, accepted, received)
    }

    constructor (capacity: nat, clients: set<Tid>)
      ensures Valid() && cap == capacity && Initial(Abs()) && Abs().threads.Keys == clients
    {
      cap := capacity;
      buffer := new V[capacity];
      head, tail, count := 0, 0, 0;
      closed := false;
      threads := map t | t in clients :: Out;
      accepted, received := [], [];
    }

    /** One pass of nr_channel_send through the lock by thread t. */
    method SendSection(t: Tid, v: V, w: Option<Tid>) returns (r: Outcome)
      requires Valid() && Enabled(Abs(), Send(t, v, w))
      modifies this, buffer
      ensures Valid() && Abs() == Apply(old(Abs()), Send(t, v, w))
      ensures r == if old(closed) then Ended else if old(count) == cap then Blocked else Sent
      ensures Contents() == if r == Sent then old(Contents()) + [v] else old(Contents())
    {
      if count == cap && !closed {
        threads := threads[t := SleepSend(v)];
        return Blocked;
      }
      if closed {
        threads := threads[t := Out];
        return Ended;
      }
      ghost var before := Contents();
      buffer[tail] := v;
      NextSlot(tail, cap);
      tail := (tail + 1) % cap;
      count := count + 1;
      assert Contents() == before + [v];
      accepted := accepted + [v];
      threads := Wake(threads[t := Out], w);
      r := Sent;
    }

    /** One pass of nr_channel_recv through the lock by thread t. */
    method RecvSection(t: Tid, w: Option<Tid>) returns (r: Outcome)
      requires Valid() && Enabled(Abs(), Recv(t, w))
      modifies this
      ensures Valid() && Abs() == Apply(old(Abs()), Recv(t, w))
      ensures r == if old(count) > 0 then Got(old(Contents())[0]) else if old(closed) then Ended else Blocked
      ensures Contents() == if r.Got? then old(Contents())[1..] else old(Contents())
    {
      if count == 0 && !closed {
        threads := threads[t := SleepRecv];
        return Blocked;
      }
      if count == 0 && closed {
        threads := threads[t := Out];
        return Ended;
      }
      ghost var before := Contents();
      r := Got(buffer[head]);
      NextSlot(head, cap);
      head := (head + 1) % cap;
      count := count - 1;
      assert Contents() == before[1..];
      received := received + [r.value];
      threads := Wake(threads[t := Out], w);
    }

    method CloseSection()
      requires Valid()
      modifies this
      ensures Valid() && Abs() == Apply(old(Abs()), Close)
    {
      closed := true;
      threads := WakeAll(threads);
      assert Contents() == old(Contents());
    }
  }

  /** The i-th slot after h in a ring of n. */
  function Slot(h: nat, i: nat, n: nat): nat {
    if h + i < n then h + i else if h + i < 2 * n then h + i - n else 0
  }

  /** The n elements from h on in a ring. */
  function Ring(s: seq<V>, h: nat, n: nat): (r: seq<V>)
    requires n <= |s| && (s != [] ==> h < |s|)
    ensures |r| == n
  {
    seq(n, i requires 0 <= i < n => s[Slot(h, i, |s|)])
  }

  lemma NextSlot(h: nat, n: nat)
    requires h < n
    ensures (h + 1) % n == Slot(h, 1, n)
  {
    if h + 1 == n { assert (h + 1) % n == 0; }
  }
}
