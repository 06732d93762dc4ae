/**
 * Client code driving the bus through the situations the channel API promises.
 * Each proof uses only the contracts of the operations it calls.
 */
module BusScenarios {
  import opened Wrappers
  import opened CoroBus

  /**
   * Limit 2: two sends succeed at once and a third would block. After one
   * receive it succeeds, and the values come out in the order sent.
   */
  method CapacityTwo() {
    var bus := new Bus();
    var h := bus.Open(2);
    var r, w := bus.SendAttempt(h, 10);
    assert r == Ok(());
    r, w := bus.SendAttempt(h, 20);
    assert r == Ok(());
    r, w := bus.TrySend(h, 30);
    assert r == Fail(WouldBlock);
    var m, w2 := bus.TryRecv(h);
    assert m == Ok(10);
    r, w := bus.TrySend(h, 30);
    assert r == Ok(());
    m, w2 := bus.TryRecv(h);
    assert m == Ok(20);
    m, w2 := bus.TryRecv(h);
    assert m == Ok(30);
    m, w2 := bus.TryRecv(h);
    assert m == Fail(WouldBlock);
  }

  /**
   * Receivers a and b park in that order. One send wakes a only, and b
   * stays parked.
   */
  method ReceiversWokenInOrder(a: TaskId, b: TaskId)
    requires a != b
  {
    var bus := new Bus();
    var h := bus.Open(4);
    bus.Park(h, a, false);
    bus.Park(h, b, false);
    var r, woken := bus.TrySend(h, 5);
    assert woken == [a];
    bus.Resume(h, a, false);
    var m, w := bus.TryRecv(h);
    assert m == Ok(5);
    assert bus.channels[h].value.recvWaiters == [b];
  }

  /** A batch of five into an empty channel of limit 3 transfers exactly three. */
  method BatchPartial() {
    var bus := new Bus();
    var h := bus.Open(3);
    var r, w := bus.TrySendV(h, [1, 2, 3, 4, 5]);
    assert r == Ok(3);
    assert bus.channels[h].value.queue == [1, 2, 3];
    var got, w2 := bus.TryRecvV(h, 10);
    assert [1, 2, 3][..3] == [1, 2, 3];
    assert got == Ok([1, 2, 3]);
  }

  /**
   * Channel A (limit 2, empty) and channel B (limit 1, full). A broadcast
   * would block and writes to neither.
   */
  method BroadcastNoPartialWrite() {
    var bus := new Bus();
    var a := bus.Open(2);
    var b := bus.Open(1);
    assert a == 0 && b == 1;
    var r, w := bus.TrySend(b, 1);
    ghost var before := bus.channels;
    r, w := bus.TryBroadcast(7);
    assert !BroadcastReady(before) by {
      assert before[1].value.Full();
    }
    assert r == Fail(WouldBlock) && bus.channels == before;
  }

  /**
   * Closing a channel wakes its parked receiver and then its parked sender.
   * The slot's next channel starts with empty wait lists, so neither
   * coroutine can be woken through it.
   */
  method CloseWakesEveryone(s: TaskId, t: TaskId) {
    var bus := new Bus();
    var h := bus.Open(1);
    assert h == 0;
    bus.Park(h, s, true);
    bus.Park(h, t, false);
    var woken := bus.Close(h);
    assert woken == [t, s];
    assert bus.channels == [None] && bus.channels[0].None?;
    var h2 := bus.Open(5);
    assert h2 == h;
    assert bus.channels[h2] == Some(Channel(5, [], [], []));
  }
}
