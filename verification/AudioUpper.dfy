/** The upper half as the driver keeps it: fields updated in place by client calls and callbacks. */
module AudioUpper {
  import opened AudioRing

  class UpperHalf {
    var head: nat
    var tail: nat
    const periods: nat
    var clients: seq<Client>
    var queue: seq<nat>

    ghost function Now(): Upper
      reads this
    {
      Upper(head, tail, periods, clients, queue)
    }

    constructor (n: nat)
      requires n > 0
      ensures Now() == Upper(0, 0, n, [], []) && Inv(Now())
    {
      head, tail, periods, clients, queue := 0, 0, n, [], [];
    }

    /** The inner loop of audio_try_enqueue: looks at every client and marks those that ran dry. */
    method Scan() returns (ready: bool, wait: bool)
      modifies this`clients
      ensures clients == MarkAll(old(clients), head, tail)
      ensures ready == IsReady(old(clients), head) && wait == IsWaiting(old(clients), head, tail)
    {
      ready, wait := false, false;
      var i := 0;
      while i < |clients|
        invariant i <= |clients| == |old(clients)|
        invariant forall j :: 0 <= j < i ==> clients[j] == Marked(old(clients)[j], head, tail)
        invariant forall j :: i <= j < |clients| ==> clients[j] == old(clients)[j]
        invariant ready == IsReady(old(clients)[..i], head) && wait == IsWaiting(old(clients)[..i], head, tail)
      {
        var c := clients[i];
        ScanOne(old(clients), i, head, tail);
        if c.state == Open || c.state == Paused {
        } else if c.head > head {
          ready := true;
        } else if c.head < head || c.head <= tail {
          clients := clients[i := c.(state := Xrun)];
        } else {
          wait := true;
        }
        i := i + 1;
      }
      assert old(clients)[..i] == old(clients);
    }

    /** Hands over buffers until the device has to wait or the driver refuses. */
    method TryEnqueue(accepts: Accepts) returns (ok: bool)
      requires periods > 0 && tail <= head
      modifies this`head, this`clients, this`queue
      ensures Now() == AudioRing.TryEnqueue(old(Now()), accepts)
      ensures ok <==> Stops(old(Now()), head)
    {
      ghost var u := Now();
      MoveStarts(u, accepts);
      while true
        invariant Moving(u, Now(), accepts)
        decreases Reach(u.clients) - head
      {
        var count := head - tail;
        ghost var v := Now();
        var ready, wait := Scan();
        MoveTurns(u, v, accepts);
        if !ready || (wait && count > THRESHOLD) {
          return true;
        }
        if !accepts(head) {
          return false;
        }
        queue := queue + [head % periods];
        head := head + 1;
      }
    }

    /** AUDIOIOC_ENQUEUEBUFFER of a client, with a shared buffer. */
    method EnqueueBuffer(i: nat, accepts: Accepts) returns (ok: bool)
      requires periods > 0 && tail <= head && i < |clients|
      modifies this`head, this`clients, this`queue
      ensures Now() == Enqueue(old(Now()), i, accepts)
    {
      clients := clients[i := clients[i].(head := clients[i].head + 1)];
      ok := TryEnqueue(accepts);
    }

    /** The driver's callback: it is done with its oldest buffer. */
    method DequeueBuffer(accepts: Accepts)
      requires Inv(Now()) && queue != []
      modifies this
      ensures Now() == Apply(old(Now()), DequeueOp(accepts)) && Inv(Now())
      ensures tail == old(tail) + 1 && old(queue)[1..] <= queue
    {
      DequeueKeeps(Now(), accepts);
      DequeueDoes(Now(), accepts);
      queue := queue[1..];
      tail := tail + 1;
      var _ := TryEnqueue(accepts);
    }

    /** AUDIOIOC_RESETSTATUS of a client. */
    method ResetStatus(i: nat, answers: nat -> Accepts)
      requires Inv(Now()) && i < |clients|
      modifies this`head, this`clients, this`queue
      ensures Now() == Reset(old(Now()), i, answers) && Inv(Now())
    {
      ResetKeeps(Now(), i, answers);
      var c := clients[i];
      var target := if head > tail + periods - 1 then head else tail + periods - 1;
      clients := clients[i := Client(head, if c.state == Xrun then Running else c.state)];
      while clients[i].head < target
        invariant i < |clients| && tail <= head && Fill(Now(), i, target, answers) == Reset(old(Now()), i, answers)
        decreases target - clients[i].head
      {
        var _ := EnqueueBuffer(i, answers(clients[i].head));
      }
    }

    method OpenClient()
      requires periods > 0
      modifies this
      ensures Now() == Apply(old(Now()), OpenOp) && (old(Inv(Now())) ==> Inv(Now()))
    {
      if clients == [] {
        head, tail, queue := 0, 0, [];
      }
      clients := [Client(0, Open)] + clients;
      if old(Inv(Now())) {
        OpenKeeps(old(Now()));
      }
    }

    method CloseClient(i: nat)
      requires periods > 0 && i < |clients|
      modifies this
      ensures Now() == Apply(old(Now()), CloseOp(i)) && (old(Inv(Now())) ==> Inv(Now()))
    {
      clients := clients[..i] + clients[i + 1..];
      if clients == [] {
        head, tail, queue := 0, 0, [];
      }
      if old(Inv(Now())) {
        CloseKeeps(old(Now()), i);
      }
    }
  }

  lemma {:induction false} ScanOne(cs: seq<Client>, i: nat, head: nat, tail: nat)
    requires i < |cs|
    ensures IsReady(cs[..i + 1], head) == (IsReady(cs[..i], head) || (cs[i].Active() && cs[i].head > head))
    ensures IsWaiting(cs[..i + 1], head, tail)
         == (IsWaiting(cs[..i], head, tail) || (cs[i].Active() && cs[i].head == head && head > tail))
  {
    var a, b := cs[..i], cs[..i + 1];
    assert b == a + [cs[i]];
    assert b[i] == cs[i] && forall j :: 0 <= j < i ==> b[j] == a[j];
  }

  /** Some marking of the clients has happened, at no later head. */
  ghost predicate Marks(cs: seq<Client>, ds: seq<Client>, head: nat, tail: nat) {
    && |cs| == |ds|
    && forall i :: 0 <= i < |ds| ==> cs[i] == ds[i] || (cs[i] == ds[i].(state := Xrun) && Marked(ds[i], head, tail) == cs[i] && ds[i].Active())
  }

  lemma {:induction false} MarksScan(cs: seq<Client>, ds: seq<Client>, head: nat, tail: nat)
    requires Marks(cs, ds, head, tail)
    ensures MarkAll(cs, head, tail) == MarkAll(ds, head, tail)
    ensures IsReady(cs, head) == IsReady(ds, head) && IsWaiting(cs, head, tail) == IsWaiting(ds, head, tail)
    ensures Marks(MarkAll(ds, head, tail), ds, head, tail) && Marks(MarkAll(ds, head, tail), ds, head + 1, tail)
  {
    assert forall i :: 0 <= i < |ds| ==> cs[i].Active() == ds[i].Active() && cs[i].head == ds[i].head;
    if IsReady(ds, head) {
      var i :| 0 <= i < |ds| && ds[i].Active() && ds[i].head > head;
      assert cs[i].Active() && cs[i].head > head;
    }
    if IsWaiting(ds, head, tail) {
      var i :| 0 <= i < |ds| && ds[i].Active() && ds[i].head == head;
      assert cs[i].Active() && cs[i].head == head;
    }
  }

  /** The resting position is the only one with its properties. */
  lemma {:induction false} RestIs(u: Upper, accepts: Accepts, r: nat)
    requires u.head <= r && (Stops(u, r) || !accepts(r))
    requires forall x :: u.head <= x < r ==> !Stops(u, x) && accepts(x)
    ensures r == Rest(u, accepts, u.head)
  {
    var q := Rest(u, accepts, u.head);
  }

  /** On the way from u, the device head is at v.head. */
  ghost predicate Moving(u: Upper, v: Upper, accepts: Accepts) {
    && u.periods > 0 && u.tail <= u.head <= v.head && v.tail == u.tail && v.periods == u.periods
    && (forall x :: u.head <= x < v.head ==> !Stops(u, x) && accepts(x))
    && v.queue == u.queue + Slots(u.head, v.head, u.periods)
    && Marks(v.clients, u.clients, v.head, u.tail)
  }

  lemma {:induction false} SeesStop(u: Upper, v: Upper, accepts: Accepts)
    requires Moving(u, v, accepts)
    ensures Stops(u, v.head) <==>
            !IsReady(v.clients, v.head) || (IsWaiting(v.clients, v.head, v.tail) && v.head - v.tail > THRESHOLD)
  {
    MarksScan(v.clients, u.clients, v.head, v.tail);
  }

  lemma {:induction false} MoveOne(u: Upper, v: Upper, accepts: Accepts)
    requires Moving(u, v, accepts) && !Stops(u, v.head) && accepts(v.head)
    ensures v.head < Reach(u.clients)
    ensures Moving(u, Upper(v.head + 1, v.tail, v.periods, MarkAll(v.clients, v.head, v.tail),
                            v.queue + [v.head % v.periods]), accepts)
  {
    MarksScan(v.clients, u.clients, v.head, v.tail);
    assert Slots(u.head, v.head + 1, u.periods) == Slots(u.head, v.head, u.periods) + [v.head % u.periods];
  }

  lemma {:induction false} MoveEnds(u: Upper, v: Upper, accepts: Accepts)
    requires Moving(u, v, accepts) && (Stops(u, v.head) || !accepts(v.head))
    ensures v.(clients := MarkAll(v.clients, v.head, v.tail)) == TryEnqueue(u, accepts)
  {
    MarksScan(v.clients, u.clients, v.head, v.tail);
    RestIs(u, accepts, v.head);
  }

  lemma {:induction false} MoveStarts(u: Upper, accepts: Accepts)
    requires u.periods > 0 && u.tail <= u.head
    ensures Moving(u, u, accepts)
  {
  }

  /** One turn of the loop: whether it stops, and where it is then or next. */
  lemma {:induction false} MoveTurns(u: Upper, v: Upper, accepts: Accepts)
    requires Moving(u, v, accepts)
    ensures v.periods > 0 && v.head >= v.tail
    ensures Stops(u, v.head) <==>
            !IsReady(v.clients, v.head) || (IsWaiting(v.clients, v.head, v.tail) && v.head - v.tail > THRESHOLD)
    ensures Stops(u, v.head) || !accepts(v.head) ==>
              v.(clients := MarkAll(v.clients, v.head, v.tail)) == TryEnqueue(u, accepts)
    ensures !Stops(u, v.head) && accepts(v.head) ==>
              && v.head < Reach(u.clients)
              && Moving(u, Upper(v.head + 1, v.tail, v.periods, MarkAll(v.clients, v.head, v.tail),
                                 v.queue + [v.head % v.periods]), accepts)
  {
    SeesStop(u, v, accepts);
    if Stops(u, v.head) || !accepts(v.head) {
      MoveEnds(u, v, accepts);
    } else {
      MoveOne(u, v, accepts);
    }
  }
}
