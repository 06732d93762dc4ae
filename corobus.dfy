/**
 * The coroutine channel bus of 1/corobus.c: a table of slots, each empty or
 * holding one bounded FIFO channel, addressed by small integer handles.
 *
 * A channel's message queue is kept as a sequence (the class
 * DataVectors.DataVector shows that the source's buffer appends and pops
 * exactly like one). Wait lists of suspended coroutines are sequences of
 * task ids, oldest first. The coro_wakeup calls an operation makes are
 * returned to the caller, in order, as `woken`.
 */
module CoroBus {
  import opened Wrappers
  import opened Lists
  import opened DataVectors

  /** Identity of a coroutine (`struct coro *`). */
  type TaskId = nat

  /** The failure codes set by the non-blocking operations. */
  datatype BusError = NoChannel | WouldBlock

  /** 0 or a count with no error, or -1 with the error the source leaves in its error global. */
  datatype Result<T> = Ok(value: T) | Fail(error: BusError)

  /** `struct coro_bus_channel`. */
  datatype Channel = Channel(limit: nat, queue: seq<Msg>, sendWaiters: seq<TaskId>, recvWaiters: seq<TaskId>)
  {
    /** No more messages than the limit, and no coroutine linked twice in a wait list. */
    ghost predicate Valid() {
      |queue| <= limit && Distinct(sendWaiters) && Distinct(recvWaiters)
    }

    /** `data.size >= size_limit`: a sender would block. */
    predicate Full() {
      |queue| >= limit
    }

    /** Room left for messages. */
    function Space(): (r: nat)
      requires |queue| <= limit
      ensures r == 0 <==> Full()
      ensures |queue| + r == limit
    {
      limit - |queue|
    }
  }

  /**
   * wakeup_queue_wakeup_first: the coroutine handed to coro_wakeup, the oldest
   * waiter if there is one. The list itself is not changed: a woken
   * coroutine unlinks itself when it resumes (Bus.Resume).
   */
  function WakeupFirst(waiters: seq<TaskId>): (r: seq<TaskId>)
    ensures |r| <= 1 && (r == [] <==> waiters == [])
    ensures r != [] ==> r[0] == waiters[0] && r[0] in waiters
  {
    if waiters == [] then [] else [waiters[0]]
  }

  /** The same wakeup made `n` times in a row. */
  function Repeat(s: seq<TaskId>, n: nat): (r: seq<TaskId>)
    ensures |r| == n * |s|
  {
    if n == 0 then [] else Repeat(s, n - 1) + s
  }

  /**
   * Repeat is `s` over and over: it starts and ends with `s`, and dropping its
   * first |s| entries leaves what dropping its last |s| does.
   */
  lemma {:induction false} RepeatPeriodic(s: seq<TaskId>, n: nat)
    requires n > 0
    ensures var r := Repeat(s, n); r[..|s|] == s && r[|r| - |s|..] == s
    ensures var r := Repeat(s, n); r[|s|..] == r[..|r| - |s|]
  {
    if n > 1 {
      RepeatPeriodic(s, n - 1);
    }
  }

  /**
   * The loop of coro_bus_try_send_v: the first `n` values go to the tail of
   * the queue one by one, each waking the oldest receiver.
   */
  method SendEach(c: Channel, data: seq<Msg>, n: nat) returns (c': Channel, woken: seq<TaskId>)
    requires n <= |data|
    ensures c' == c.(queue := c.queue + data[..n])
    ensures woken == Repeat(WakeupFirst(c.recvWaiters), n)
  {
    c' := c;
    woken := [];
    var i := 0;
    while i < n
      invariant 0 <= i <= n
      invariant c' == c.(queue := c.queue + data[..i])
      invariant woken == Repeat(WakeupFirst(c.recvWaiters), i)
    {
      assert data[..i + 1] == data[..i] + [data[i]];
      c' := c'.(queue := c'.queue + [data[i]]);
      woken := woken + WakeupFirst(c'.recvWaiters);
      i := i + 1;
    }
  }

  /** Every channel in the table is valid. */
  ghost predicate AllValid(chs: seq<Option<Channel>>) {
    forall i :: 0 <= i < |chs| && chs[i].Some? ==> chs[i].value.Valid()
  }

  ghost predicate HasLive(chs: seq<Option<Channel>>) {
    exists i :: 0 <= i < |chs| && chs[i].Some?
  }

  /**
   * coro_bus_try_broadcast's test: no open channel is full. A valid table
   * that passes it stays valid whatever value is then broadcast.
   */
  predicate BroadcastReady(chs: seq<Option<Channel>>): (r: bool)
    ensures r && AllValid(chs) ==> forall v: Msg :: AllValid(Broadcast(chs, v))
  {
    forall i :: 0 <= i < |chs| && chs[i].Some? ==> !chs[i].value.Full()
  }

  /** The table after `v` is appended to every open channel. */
  function Broadcast(chs: seq<Option<Channel>>, v: Msg): (r: seq<Option<Channel>>)
    ensures |r| == |chs|
    ensures forall i :: 0 <= i < |chs| ==> (r[i].Some? <==> chs[i].Some?)
  {
    seq(|chs|, i requires 0 <= i < |chs| =>
      if chs[i].Some? then Some(chs[i].value.(queue := chs[i].value.queue + [v])) else None)
  }

  /** The receivers a broadcast wakes: the oldest one of each open channel, in slot order. */
  function RecvHeads(chs: seq<Option<Channel>>): seq<TaskId>
  {
    if chs == [] then []
    else
      var last := chs[|chs| - 1];
      RecvHeads(chs[..|chs| - 1]) + (if last.Some? then WakeupFirst(last.value.recvWaiters) else [])
  }

  /**
   * A broadcast that passes the readiness test keeps every channel within
   * its limit, and appends `v` to each open channel and nothing else.
   */
  lemma BroadcastKeepsCapacity(chs: seq<Option<Channel>>, v: Msg)
    requires AllValid(chs) && BroadcastReady(chs)
    ensures AllValid(Broadcast(chs, v))
    ensures forall i :: 0 <= i < |chs| && chs[i].Some? ==>
              |Broadcast(chs, v)[i].value.queue| == |chs[i].value.queue| + 1 <= chs[i].value.limit
  {
  }

  /**
   * The readiness test of the blocking coro_bus_broadcast as written
   * (line 352). A full channel also counts as ready while a receiver is
   * parked on it.
   */
  function BroadcastReadyAsWritten(chs: seq<Option<Channel>>): (r: bool)
    ensures BroadcastReady(chs) ==> r
  {
    forall i :: 0 <= i < |chs| && chs[i].Some? ==> !(chs[i].value.Full() && chs[i].value.recvWaiters == [])
  }

  /**
   * A channel with limit 1 that holds one message and has one parked
   * receiver passes that test. Committing the broadcast then leaves two
   * messages in it.
   */
  lemma BroadcastAsWrittenOverfills()
    ensures var chs := [Some(Channel(1, [7], [], [3]))];
            AllValid(chs) && BroadcastReadyAsWritten(chs) && !AllValid(Broadcast(chs, 9))
  {
    var chs := [Some(Channel(1, [7], [], [3]))];
    assert |Broadcast(chs, 9)[0].value.queue| == 2;
  }

  /**
   * The room computed by coro_bus_try_send_v as written (line 496): an
   * `unsigned` difference of two `size_t` values, that is, the room
   * reduced modulo 2^32.
   */
  function SpaceAsWritten(c: Channel): (r: nat)
    requires |c.queue| <= c.limit
    ensures r < 0x1_0000_0000
    ensures c.Space() < 0x1_0000_0000 ==> r == c.Space()
  {
    (c.limit - |c.queue|) % 0x1_0000_0000
  }

  /**
   * An empty channel with limit 2^32 has room. The truncated room is 0, so
   * try_send_v reports WouldBlock on it.
   */
  lemma SpaceAsWrittenHidesRoom()
    ensures var c := Channel(0x1_0000_0000, [], [], []);
            !c.Full() && SpaceAsWritten(c) == 0
  {
  }

  /**
   * The admission test of coro_bus_try_recv and coro_bus_recv as written
   * (lines 304 and 283). Slot `h` is read whenever the table is non-empty,
   * and `h` is never compared with the table's bounds. None: the read
   * falls outside the table. Some(b): b says whether the call is refused
   * with NoChannel.
   */
  function TryRecvGuardAsWritten(chs: seq<Option<Channel>>, h: int): (r: Option<bool>)
    ensures r.None? <==> |chs| > 0 && !(0 <= h < |chs|)
    ensures r == Some(false) ==> 0 <= h < |chs| && chs[h].Some?
  {
    if |chs| == 0 then Some(true)
    else if 0 <= h < |chs| then Some(chs[h].None?)
    else None
  }

  /** With one open channel, handles 1 and -1 both get past the test to a read outside the table. */
  lemma TryRecvGuardReadsOutside()
    ensures TryRecvGuardAsWritten([Some(Channel(1, [], [], []))], 1).None?
    ensures TryRecvGuardAsWritten([Some(Channel(1, [], [], []))], -1).None?
  {
  }

  class Bus {
    /** `channels[0..channel_count)`: one slot per handle. */
    var channels: seq<Option<Channel>>

    ghost predicate Valid()
      reads this
    {
      AllValid(channels)
    }

    /** The handle names an open channel. */
    predicate Live(h: int)
      reads this
    {
      0 <= h < |channels| && channels[h].Some?
    }

    /** coro_bus_new: an empty table. */
    constructor ()
      ensures Valid() && channels == []
    {
      channels := [];
    }

    /** The scan of coro_bus_channel_open: the lowest empty slot, if any. */
    method LowestFreeSlot() returns (r: Option<nat>)
      ensures r.Some? ==> r.value < |channels| && channels[r.value].None?
      ensures r.Some? ==> forall j :: 0 <= j < r.value ==> channels[j].Some?
      ensures r.None? ==> forall j :: 0 <= j < |channels| ==> channels[j].Some?
    {
      var i := 0;
      while i < |channels|
        invariant 0 <= i <= |channels|
        invariant forall j :: 0 <= j < i ==> channels[j].Some?
      {
        if channels[i].None? {
          return Some(i);
        }
        i := i + 1;
      }
      return None;
    }

    /**
     * coro_bus_channel_open: a new empty channel with the given limit goes
     * into the lowest empty slot, or into a new slot at the end when every
     * slot is taken; its index is the handle.
     */
    method Open(limit: nat) returns (h: nat)
      requires Valid()
      modifies this
      ensures Valid()
      ensures h <= old(|channels|)
      ensures forall j :: 0 <= j < h ==> old(channels[j]).Some?
      ensures h < old(|channels|) ==>
                old(channels[h]).None? && channels == old(channels)[h := Some(Channel(limit, [], [], []))]
      ensures h == old(|channels|) ==> channels == old(channels) + [Some(Channel(limit, [], [], []))]
    {
      var free := LowestFreeSlot();
      var chan := Channel(limit, [], [], []);
      if free.Some? {
        h := free.value;
        channels := channels[h := Some(chan)];
      } else {
        h := |channels|;
        channels := channels + [Some(chan)];
      }
    }

    /**
     * coro_bus_channel_close: every receiver and then every sender parked on
     * the channel is unlinked and woken, oldest first, and the slot is
     * emptied. An invalid handle changes nothing.
     */
    method Close(h: int) returns (woken: seq<TaskId>)
      requires Valid()
      modifies this
      ensures Valid()
      ensures !old(Live(h)) ==> channels == old(channels) && woken == []
      ensures old(Live(h)) ==> channels == old(channels)[h := None]
      ensures old(Live(h)) ==>
                woken == old(channels[h].value.recvWaiters) + old(channels[h].value.sendWaiters)
    {
      woken := [];
      if !(0 <= h < |channels|) || channels[h].None? {
        return;
      }
      var chan := channels[h].value;
      var recv := chan.recvWaiters;
      while recv != []
        invariant woken + recv == chan.recvWaiters
        decreases |recv|
      {
        assert woken + [recv[0]] + recv[1..] == woken + recv;
        woken := woken + [recv[0]];
        recv := recv[1..];
      }
      var send := chan.sendWaiters;
      while send != []
        invariant woken + send == chan.recvWaiters + chan.sendWaiters
        decreases |send|
      {
        assert woken + [send[0]] + send[1..] == woken + send;
        woken := woken + [send[0]];
        send := send[1..];
      }
      channels := channels[h := None];
    }

    /**
     * The first half of wakeup_queue_suspend_this: the running coroutine
     * links itself at the tail of the channel's send or receive wait list.
     * The source suspends only on an open channel, and a running coroutine
     * is not already parked there.
     */
    method Park(h: int, task: TaskId, onSend: bool)
      requires Valid() && Live(h)
      requires onSend ==> task !in channels[h].value.sendWaiters
      requires !onSend ==> task !in channels[h].value.recvWaiters
      modifies this
      ensures Valid()
      ensures var c := old(channels[h].value);
              channels == old(channels)[h := Some(
                if onSend then c.(sendWaiters := c.sendWaiters + [task])
                else c.(recvWaiters := c.recvWaiters + [task]))]
    {
      var c := channels[h].value;
      if onSend {
        c := c.(sendWaiters := c.sendWaiters + [task]);
      } else {
        c := c.(recvWaiters := c.recvWaiters + [task]);
      }
      channels := channels[h := Some(c)];
    }

    /**
     * The second half of wakeup_queue_suspend_this: on resuming, the
     * coroutine unlinks its own entry. After a close the entry is already
     * gone and nothing changes.
     */
    method Resume(h: int, task: TaskId, onSend: bool)
      requires Valid()
      modifies this
      ensures Valid()
      ensures !old(Live(h)) ==> channels == old(channels)
      ensures old(Live(h)) ==>
                var c := old(channels[h].value);
                channels == old(channels)[h := Some(
                  if onSend then c.(sendWaiters := Unlink(c.sendWaiters, task))
                  else c.(recvWaiters := Unlink(c.recvWaiters, task)))]
    {
      if 0 <= h < |channels| && channels[h].Some? {
        var c := channels[h].value;
        UnlinkMembers(c.sendWaiters, task);
        UnlinkMembers(c.recvWaiters, task);
        if onSend {
          c := c.(sendWaiters := Unlink(c.sendWaiters, task));
        } else {
          c := c.(recvWaiters := Unlink(c.recvWaiters, task));
        }
        channels := channels[h := Some(c)];
      }
    }

    /**
     * coro_bus_try_send: an invalid handle gives NoChannel, a full channel
     * WouldBlock, both with nothing changed; otherwise the value joins the
     * tail of the queue and the oldest receiver is woken.
     */
    method TrySend(h: int, v: Msg) returns (r: Result<()>, woken: seq<TaskId>)
      requires Valid()
      modifies this
      ensures Valid()
      ensures !old(Live(h)) ==> r == Fail(NoChannel) && channels == old(channels) && woken == []
      ensures old(Live(h)) && old(channels[h].value.Full()) ==>
                r == Fail(WouldBlock) && channels == old(channels) && woken == []
      ensures old(Live(h)) && !old(channels[h].value.Full()) ==>
                var c := old(channels[h].value);
                r == Ok(()) && woken == WakeupFirst(c.recvWaiters) &&
                channels == old(channels)[h := Some(c.(queue := c.queue + [v]))]
    {
      woken := [];
      if !(0 <= h < |channels|) || channels[h].None? {
        return Fail(NoChannel), woken;
      }
      var c := channels[h].value;
      if |c.queue| >= c.limit {
        return Fail(WouldBlock), woken;
      }
      c := c.(queue := c.queue + [v]);
      channels := channels[h := Some(c)];
      woken := WakeupFirst(c.recvWaiters);
      r := Ok(());
    }

    /**
     * One pass of the blocking coro_bus_send. It differs from TrySend in
     * two ways. After appending, it wakes the oldest sender as well as the
     * oldest receiver, so that waiting senders wake one another while room
     * lasts. WouldBlock here means the caller parks on the send wait list
     * and tries again after it is woken.
     */
    method SendAttempt(h: int, v: Msg) returns (r: Result<()>, woken: seq<TaskId>)
      requires Valid()
      modifies this
      ensures Valid()
      ensures !old(Live(h)) ==> r == Fail(NoChannel) && channels == old(channels) && woken == []
      ensures old(Live(h)) && old(channels[h].value.Full()) ==>
                r == Fail(WouldBlock) && channels == old(channels) && woken == []
      ensures old(Live(h)) && !old(channels[h].value.Full()) ==>
                var c := old(channels[h].value);
                r == Ok(()) && woken == WakeupFirst(c.recvWaiters) + WakeupFirst(c.sendWaiters) &&
                channels == old(channels)[h := Some(c.(queue := c.queue + [v]))]
    {
      woken := [];
      if !(0 <= h < |channels|) || channels[h].None? {
        return Fail(NoChannel), woken;
      }
      var c := channels[h].value;
      if |c.queue| >= c.limit {
        return Fail(WouldBlock), woken;
      }
      c := c.(queue := c.queue + [v]);
      channels := channels[h := Some(c)];
      woken := WakeupFirst(c.recvWaiters) + WakeupFirst(c.sendWaiters);
      r := Ok(());
    }

    /**
     * coro_bus_try_recv (and the pass of coro_bus_recv that finds data): an
     * invalid handle gives NoChannel, an empty queue WouldBlock, both with
     * nothing changed; otherwise the head of the queue is returned, the
     * queue keeps its tail and the oldest sender is woken.
     */
    method TryRecv(h: int) returns (r: Result<Msg>, woken: seq<TaskId>)
      requires Valid()
      modifies this
      ensures Valid()
      ensures !old(Live(h)) ==> r == Fail(NoChannel) && channels == old(channels) && woken == []
      ensures old(Live(h)) && old(channels[h].value.queue) == [] ==>
                r == Fail(WouldBlock) && channels == old(channels) && woken == []
      ensures old(Live(h)) && old(channels[h].value.queue) != [] ==>
                var c := old(channels[h].value);
                r == Ok(c.queue[0]) && woken == WakeupFirst(c.sendWaiters) &&
                channels == old(channels)[h := Some(c.(queue := c.queue[1..]))]
    {
      woken := [];
      if !(0 <= h < |channels|) || channels[h].None? {
        return Fail(NoChannel), woken;
      }
      var c := channels[h].value;
      if |c.queue| == 0 {
        return Fail(WouldBlock), woken;
      }
      var x := c.queue[0];
      c := c.(queue := c.queue[1..]);
      channels := channels[h := Some(c)];
      woken := WakeupFirst(c.sendWaiters);
      r := Ok(x);
    }

    /** The scan of coro_bus_try_broadcast for an open channel. */
    method AnyLive() returns (b: bool)
      ensures b <==> HasLive(channels)
    {
      var i := 0;
      while i < |channels|
        invariant 0 <= i <= |channels|
        invariant forall j :: 0 <= j < i ==> channels[j].None?
      {
        if channels[i].Some? {
          return true;
        }
        i := i + 1;
      }
      return false;
    }

    /** The scan of coro_bus_try_broadcast for a full open channel. */
    method AnyFull() returns (b: bool)
      ensures b <==> !BroadcastReady(channels)
    {
      var i := 0;
      while i < |channels|
        invariant 0 <= i <= |channels|
        invariant BroadcastReady(channels[..i])
      {
        if channels[i].Some? && |channels[i].value.queue| >= channels[i].value.limit {
          return true;
        }
        assert channels[..i + 1] == channels[..i] + [channels[i]];
        i := i + 1;
      }
      assert channels[..i] == channels;
      return false;
    }

    /**
     * coro_bus_try_broadcast, all or nothing: with no open channel it gives
     * NoChannel, and with any open channel full it gives WouldBlock, both
     * with nothing changed; otherwise `v` joins the tail of every open
     * channel and the oldest receiver of each is woken, in slot order.
     */
    method TryBroadcast(v: Msg) returns (r: Result<()>, woken: seq<TaskId>)
      requires Valid()
      modifies this
      ensures Valid()
      ensures !HasLive(old(channels)) ==> r == Fail(NoChannel) && channels == old(channels) && woken == []
      ensures HasLive(old(channels)) && !BroadcastReady(old(channels)) ==>
                r == Fail(WouldBlock) && channels == old(channels) && woken == []
      ensures HasLive(old(channels)) && BroadcastReady(old(channels)) ==>
                r == Ok(()) && channels == Broadcast(old(channels), v) && woken == RecvHeads(old(channels))
    {
      woken := [];
      if |channels| == 0 {
        return Fail(NoChannel), woken;
      }
      var anyLive := AnyLive();
      if !anyLive {
        return Fail(NoChannel), woken;
      }
      var anyFull := AnyFull();
      if anyFull {
        return Fail(WouldBlock), woken;
      }
      ghost var before := channels;
      BroadcastKeepsCapacity(before, v);
      var i := 0;
      while i < |channels|
        invariant 0 <= i <= |channels| == |before|
        invariant forall j :: 0 <= j < i ==> channels[j] == Broadcast(before, v)[j]
        invariant forall j :: i <= j < |channels| ==> channels[j] == before[j]
        invariant woken == RecvHeads(before[..i])
      {
        if channels[i].Some? {
          var c := channels[i].value;
          channels := channels[i := Some(c.(queue := c.queue + [v]))];
          woken := woken + WakeupFirst(c.recvWaiters);
        }
        assert before[..i + 1][..i] == before[..i];
        i := i + 1;
      }
      assert channels == Broadcast(before, v);
      assert before[..i] == before;
      r := Ok(());
    }

    /**
     * coro_bus_try_send_v: an invalid handle gives NoChannel and a full
     * channel WouldBlock, both with nothing changed; otherwise as many of
     * the values as there is room for join the tail in order, their number
     * is returned, the oldest receiver is woken once per value and the
     * oldest sender once at the end.
     */
    method TrySendV(h: int, data: seq<Msg>) returns (r: Result<nat>, woken: seq<TaskId>)
      requires Valid()
      modifies this
      ensures Valid()
      ensures !old(Live(h)) ==> r == Fail(NoChannel) && channels == old(channels) && woken == []
      ensures old(Live(h)) && old(channels[h].value.Full()) ==>
                r == Fail(WouldBlock) && channels == old(channels) && woken == []
      ensures old(Live(h)) && !old(channels[h].value.Full()) ==>
                var c := old(channels[h].value);
                var n := Min(|data|, c.limit - |c.queue|);
                r == Ok(n) &&
                channels == old(channels)[h := Some(c.(queue := c.queue + data[..n]))] &&
                woken == Repeat(WakeupFirst(c.recvWaiters), n) + WakeupFirst(c.sendWaiters)
    {
      woken := [];
      if !(0 <= h < |channels|) || channels[h].None? {
        return Fail(NoChannel), woken;
      }
      var c := channels[h].value;
      var space := c.Space();
      if space == 0 {
        return Fail(WouldBlock), woken;
      }
      var toSend := if |data| < space then |data| else space;
      c, woken := SendEach(c, data, toSend);
      woken := woken + WakeupFirst(c.sendWaiters);
      channels := channels[h := Some(c)];
      r := Ok(toSend);
    }

    /**
     * coro_bus_try_recv_v: an invalid handle gives NoChannel and an empty
     * queue WouldBlock, both with nothing changed; otherwise the oldest
     * min(capacity, size) values come out in order, the queue keeps the
     * rest and the oldest sender is woken.
     */
    method TryRecvV(h: int, capacity: nat) returns (r: Result<seq<Msg>>, woken: seq<TaskId>)
      requires Valid()
      modifies this
      ensures Valid()
      ensures !old(Live(h)) ==> r == Fail(NoChannel) && channels == old(channels) && woken == []
      ensures old(Live(h)) && old(channels[h].value.queue) == [] ==>
                r == Fail(WouldBlock) && channels == old(channels) && woken == []
      ensures old(Live(h)) && old(channels[h].value.queue) != [] ==>
                var c := old(channels[h].value);
                var n := Min(capacity, |c.queue|);
                r == Ok(c.queue[..n]) && woken == WakeupFirst(c.sendWaiters) &&
                channels == old(channels)[h := Some(c.(queue := c.queue[n..]))]
    {
      woken := [];
      if !(0 <= h < |channels|) || channels[h].None? {
        return Fail(NoChannel), woken;
      }
      var c := channels[h].value;
      if |c.queue| == 0 {
        return Fail(WouldBlock), woken;
      }
      var recvCount := if capacity < |c.queue| then capacity else |c.queue|;
      ghost var c0 := c;
      var out: seq<Msg> := [];
      var i := 0;
      while i < recvCount
        invariant 0 <= i <= recvCount
        invariant out == c0.queue[..i]
        invariant c == c0.(queue := c0.queue[i..])
      {
        assert c0.queue[..i + 1] == c0.queue[..i] + [c0.queue[i]];
        out := out + [c.queue[0]];
        c := c.(queue := c.queue[1..]);
        i := i + 1;
      }
      channels := channels[h := Some(c)];
      woken := WakeupFirst(c.sendWaiters);
      r := Ok(out);
    }

    /**
     * The pass of the blocking coro_bus_recv_v that finds data: TryRecvV,
     * then, while messages remain, the oldest receiver is woken as well.
     * WouldBlock here means the caller parks on the receive wait list.
     */
    method RecvVAttempt(h: int, capacity: nat) returns (r: Result<seq<Msg>>, woken: seq<TaskId>)
      requires Valid()
      modifies this
      ensures Valid()
      ensures !old(Live(h)) ==> r == Fail(NoChannel) && channels == old(channels) && woken == []
      ensures old(Live(h)) && old(channels[h].value.queue) == [] ==>
                r == Fail(WouldBlock) && channels == old(channels) && woken == []
      ensures old(Live(h)) && old(channels[h].value.queue) != [] ==>
                var c := old(channels[h].value);
                var n := Min(capacity, |c.queue|);
                r == Ok(c.queue[..n]) &&
                channels == old(channels)[h := Some(c.(queue := c.queue[n..]))] &&
                woken == WakeupFirst(c.sendWaiters) + (if n < |c.queue| then WakeupFirst(c.recvWaiters) else [])
    {
      r, woken := TryRecvV(h, capacity);
      if r.Ok? && |channels[h].value.queue| > 0 {
        woken := woken + WakeupFirst(channels[h].value.recvWaiters);
      }
    }
  }
}
