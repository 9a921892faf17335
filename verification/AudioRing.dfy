/**
 The upper half of the audio driver: several clients share one ring of buffers. Each client has a
 head, the device has a head and a tail; positions count up without bound and address the ring
 modulo the number of periods.
 */
module AudioRing {
  import opened Basics

  datatype ClientState = Open | Prepared | Paused | Xrun | Draining | Running

  datatype Client = Client(head: nat, state: ClientState) {
    predicate Active() {
      state != Open && state != Paused
    }
  }

  /** The shared state, and the buffers the driver holds, oldest first. */
  datatype Upper = Upper(head: nat, tail: nat, periods: nat, clients: seq<Client>, queue: seq<nat>)

  const THRESHOLD: nat := 2

  /** Which of the positions offered to the driver in one call it accepts. */
  type Accepts = nat -> bool

  // ----- handing buffers to the driver -----

  /** A client that is behind the device, or has nothing in flight, has run dry. */
  function Marked(c: Client, head: nat, tail: nat): Client {
    if c.Active() && c.head <= head && (c.head < head || c.head <= tail) then c.(state := Xrun) else c
  }

  function MarkAll(cs: seq<Client>, head: nat, tail: nat): (r: seq<Client>)
    ensures |r| == |cs|
  {
    seq(|cs|, i requires 0 <= i < |cs| => Marked(cs[i], head, tail))
  }

  /** Some active client has filled the buffer at the position. */
  ghost predicate IsReady(cs: seq<Client>, h: nat) {
    exists i :: 0 <= i < |cs| && cs[i].Active() && cs[i].head > h
  }

  /** Some active client would be overtaken at the position. */
  ghost predicate IsWaiting(cs: seq<Client>, h: nat, tail: nat) {
    exists i :: 0 <= i < |cs| && cs[i].Active() && cs[i].head == h && h > tail
  }

  /** The device must not move past the position yet. */
  ghost predicate Stops(u: Upper, h: nat) {
    !IsReady(u.clients, h) || (IsWaiting(u.clients, h, u.tail) && h - u.tail > THRESHOLD)
  }

  /** The largest head of an active client, or 0. */
  function Reach(cs: seq<Client>): (m: nat)
    ensures forall i :: 0 <= i < |cs| && cs[i].Active() ==> cs[i].head <= m
    ensures m == 0 || exists i :: 0 <= i < |cs| && cs[i].Active() && cs[i].head == m
  {
    if cs == [] then 0
    else
      var front, c := cs[..|cs| - 1], cs[|cs| - 1];
      assert forall i :: 0 <= i < |front| ==> front[i] == cs[i];
      var m := Reach(front);
      if c.Active() && c.head > m then c.head else m
  }

  /** Marking changes neither heads nor which clients are active. */
  lemma {:induction false} MarkKeeps(cs: seq<Client>, head: nat, tail: nat, h: nat)
    ensures IsReady(MarkAll(cs, head, tail), h) <==> IsReady(cs, h)
    ensures IsWaiting(MarkAll(cs, head, tail), h, tail) <==> IsWaiting(cs, h, tail)
  {
    var r := MarkAll(cs, head, tail);
    assert forall i :: 0 <= i < |cs| ==> r[i].Active() == cs[i].Active() && r[i].head == cs[i].head;
    if IsReady(cs, h) {
      var i :| 0 <= i < |cs| && cs[i].Active() && cs[i].head > h;
      assert r[i].Active() && r[i].head > h;
    }
    if IsWaiting(cs, h, tail) {
      var i :| 0 <= i < |cs| && cs[i].Active() && cs[i].head == h;
      assert r[i].Active() && r[i].head == h;
    }
  }

  /** Where the device head comes to rest: the first position at which it must stop or the driver
      refuses. */
  ghost function Rest(u: Upper, accepts: Accepts, h: nat): (r: nat)
    ensures h <= r && (Stops(u, r) || !accepts(r))
    ensures forall x :: h <= x < r ==> !Stops(u, x) && accepts(x)
    decreases Reach(u.clients) - h
  {
    if Stops(u, h) || !accepts(h) then h
    else
      assert h < Reach(u.clients);
      Rest(u, accepts, h + 1)
  }

  /** The ring slots of the positions lo to hi - 1. */
  function Slots(lo: nat, hi: nat, periods: nat): (s: seq<nat>)
    requires lo <= hi && periods > 0
    ensures |s| == hi - lo && forall i :: 0 <= i < |s| ==> s[i] == (lo + i) % periods
  {
    seq(hi - lo, i requires 0 <= i < hi - lo => (lo + i) % periods)
  }

  /** The device head moves to where it comes to rest, the driver is handed the buffers on the way,
      and the clients are marked against the new head. */
  ghost function TryEnqueue(u: Upper, accepts: Accepts): Upper
    requires u.periods > 0
  {
    var r := Rest(u, accepts, u.head);
    u.(head := r, clients := MarkAll(u.clients, r, u.tail), queue := u.queue + Slots(u.head, r, u.periods))
  }

  /** The device moves past an active client only while at most THRESHOLD buffers are in flight, and never
      past what some active client has filled. Afterwards exactly the active clients that are behind it, or
      level with it with nothing in flight, are in XRUN; nothing else of a client changes. */
  lemma {:induction false} TryEnqueueFair(u: Upper, accepts: Accepts, i: nat)
    requires u.periods > 0 && u.tail <= u.head && i < |u.clients|
    ensures var v, c := TryEnqueue(u, accepts), u.clients[i];
            var active := c.state != Open && c.state != Paused;
            && u.head <= v.head && (v.head > u.head ==> v.head <= Reach(u.clients))
            && (active && u.head <= c.head < v.head ==> c.head <= u.tail + 2)
            && v.clients[i] == if active && (c.head < v.head || c.head == v.head <= u.tail)
                               then Client(c.head, Xrun) else c
  {
    var r := Rest(u, accepts, u.head);
    var h := u.clients[i].head;
    if u.clients[i].Active() && u.head <= h < r {
      assert !Stops(u, h);
      assert h > u.tail ==> IsWaiting(u.clients, h, u.tail);
    }
    if r > u.head {
      assert !Stops(u, r - 1) && IsReady(u.clients, r - 1);
    }
  }

  /** An active client, one that fills buffers, is ahead of the position, or level with it. */
  ghost predicate SomeAhead(u: Upper, h: nat) {
    exists i :: 0 <= i < |u.clients| && u.clients[i].state != Open && u.clients[i].state != Paused && u.clients[i].head > h
  }

  ghost predicate SomeLevel(u: Upper, h: nat) {
    exists i :: 0 <= i < |u.clients| && u.clients[i].state != Open && u.clients[i].state != Paused && u.clients[i].head == h
  }

  /** The device goes on as long as some active client is ahead and the driver accepts, and past a client that
      is level only while at most two buffers are in flight; it stops at the first position where it may
      not. */
  lemma {:induction false} TryEnqueueRests(u: Upper, accepts: Accepts)
    requires u.periods > 0 && u.tail <= u.head
    ensures var v := TryEnqueue(u, accepts);
            && u.head <= v.head
            && (forall h :: u.head <= h < v.head ==>
                  accepts(h) && SomeAhead(u, h) && (SomeLevel(u, h) ==> h <= u.tail + 2))
            && (!accepts(v.head) || !SomeAhead(u, v.head) || (SomeLevel(u, v.head) && v.head > u.tail + 2))
  {
    var r := Rest(u, accepts, u.head);
    forall h | u.head <= h <= r
      ensures Stops(u, h) <==> !SomeAhead(u, h) || (SomeLevel(u, h) && h > u.tail + 2)
    {
      StopsIs(u, h);
    }
  }

  lemma {:induction false} StopsIs(u: Upper, h: nat)
    requires u.tail <= h
    ensures Stops(u, h) <==> !SomeAhead(u, h) || (SomeLevel(u, h) && h > u.tail + 2)
  {
    if i :| 0 <= i < |u.clients| && u.clients[i].Active() && u.clients[i].head > h {
      assert SomeAhead(u, h);
    }
    if i :| 0 <= i < |u.clients| && u.clients[i].Active() && u.clients[i].head == h {
      assert SomeLevel(u, h);
    }
    if SomeAhead(u, h) {
      assert IsReady(u.clients, h);
    }
  }

  // ----- runs -----

  datatype Op =
    | OpenOp
    | CloseOp(i: nat)
    | StateOp(i: nat, state: ClientState)
    | EnqueueOp(i: nat, accepts: Accepts)
    | ResetOp(i: nat, answers: nat -> Accepts)
    | DequeueOp(accepts: Accepts)

  /** What poll reports: there is a free period for the client to fill. */
  predicate Room(u: Upper, c: Client) {
    c.head != u.tail + u.periods
  }

  /** A client may do anything but enqueue without room; the driver returns what it holds. */
  ghost predicate Legal(u: Upper, op: Op) {
    match op
    case OpenOp => true
    case CloseOp(i) => i < |u.clients|
    case StateOp(i, _) => i < |u.clients|
    case EnqueueOp(i, _) => i < |u.clients| && Room(u, u.clients[i])
    case ResetOp(i, _) => i < |u.clients|
    case DequeueOp(_) => u.queue != []
  }

  /** One buffer of a client. */
  ghost function Enqueue(u: Upper, i: nat, accepts: Accepts): (v: Upper)
    requires u.periods > 0 && i < |u.clients|
    ensures |v.clients| == |u.clients| && v.clients[i].head == u.clients[i].head + 1
  {
    TryEnqueue(Moved(u, i), accepts)
  }

  /** Buffers of a client until its head is at the target. */
  ghost function Fill(u: Upper, i: nat, target: nat, answers: nat -> Accepts): Upper
    requires u.periods > 0 && i < |u.clients|
    decreases target - u.clients[i].head
  {
    if u.clients[i].head < target then Fill(Enqueue(u, i, answers(u.clients[i].head)), i, target, answers) else u
  }

  /** AUDIOIOC_RESETSTATUS: the client starts over at the device head and fills all but one period. */
  ghost function Reset(u: Upper, i: nat, answers: nat -> Accepts): Upper
    requires u.periods > 0 && i < |u.clients|
  {
    var c := u.clients[i];
    var d := Client(u.head, if c.state == Xrun then Running else c.state);
    var full := u.tail + u.periods - 1;
    Fill(u.(clients := u.clients[i := d]), i, if u.head > full then u.head else full, answers)
  }

  ghost function Apply(u: Upper, op: Op): (v: Upper)
    requires u.periods > 0 && Legal(u, op)
    ensures v.periods > 0
  {
    match op
    case OpenOp =>
      var w := if u.clients == [] then u.(head := 0, tail := 0, queue := []) else u;
      w.(clients := [Client(0, Open)] + u.clients)
    case CloseOp(i) =>
      var rest := u.clients[..i] + u.clients[i + 1..];
      if rest == [] then Upper(0, 0, u.periods, [], []) else u.(clients := rest)
    case StateOp(i, state) => u.(clients := u.clients[i := u.clients[i].(state := state)])
    case EnqueueOp(i, accepts) => Enqueue(u, i, accepts)
    case ResetOp(i, answers) => FillPeriods(u, i, answers); Reset(u, i, answers)
    case DequeueOp(accepts) => TryEnqueue(u.(tail := u.tail + 1, queue := u.queue[1..]), accepts)
  }

  lemma {:induction false} FillPeriods(u: Upper, i: nat, answers: nat -> Accepts)
    requires u.periods > 0 && i < |u.clients|
    ensures Reset(u, i, answers).periods == u.periods
  {
    var c := u.clients[i];
    var full := u.tail + u.periods - 1;
    FillKeepsPeriods(u.(clients := u.clients[i := Client(u.head, if c.state == Xrun then Running else c.state)]), i,
                     if u.head > full then u.head else full, answers);
  }

  lemma {:induction false} FillKeepsPeriods(u: Upper, i: nat, target: nat, answers: nat -> Accepts)
    requires u.periods > 0 && i < |u.clients|
    ensures Fill(u, i, target, answers).periods == u.periods
    decreases target - u.clients[i].head
  {
    if u.clients[i].head < target {
      FillKeepsPeriods(Enqueue(u, i, answers(u.clients[i].head)), i, target, answers);
    }
  }

  /** Nothing is ahead of the ring, and the driver holds exactly the slots between tail and head. */
  ghost predicate Inv(u: Upper) {
    && u.periods > 0 && u.tail <= u.head <= u.tail + u.periods
    && (forall i :: 0 <= i < |u.clients| ==> u.clients[i].head <= u.tail + u.periods)
    && u.queue == Slots(u.tail, u.head, u.periods)
  }

  lemma {:induction false} TryEnqueueKeeps(u: Upper, accepts: Accepts)
    requires Inv(u)
    ensures Inv(TryEnqueue(u, accepts))
  {
    var r := Rest(u, accepts, u.head);
    if r > u.head {
      assert !Stops(u, r - 1) && IsReady(u.clients, r - 1);
      assert r <= u.tail + u.periods;
    }
    SlotsOn(u.tail, u.head, r, u.periods);
  }

  lemma {:induction false} SlotsOn(a: nat, b: nat, c: nat, periods: nat)
    requires a <= b <= c && periods > 0
    ensures Slots(a, c, periods) == Slots(a, b, periods) + Slots(b, c, periods)
  {
    var s, t := Slots(a, c, periods), Slots(a, b, periods) + Slots(b, c, periods);
    forall i | 0 <= i < |s| ensures s[i] == t[i] {
      if i >= b - a {
        assert b + (i - (b - a)) == a + i;
      }
    }
  }

  lemma {:induction false} FillKeeps(u: Upper, i: nat, target: nat, answers: nat -> Accepts)
    requires Inv(u) && i < |u.clients| && target <= u.tail + u.periods
    ensures var v := Fill(u, i, target, answers);
            Inv(v) && v.tail == u.tail && v.periods == u.periods && |v.clients| == |u.clients|
            && v.clients[i].head == if u.clients[i].head < target then target else u.clients[i].head
    decreases target - u.clients[i].head
  {
    if u.clients[i].head < target {
      var h := u.clients[i].head;
      TryEnqueueKeeps(u.(clients := u.clients[i := u.clients[i].(head := h + 1)]), answers(h));
      FillKeeps(Enqueue(u, i, answers(h)), i, target, answers);
    }
  }

  lemma {:induction false} EnqueueKeeps(u: Upper, i: nat, accepts: Accepts)
    requires Inv(u) && i < |u.clients| && Room(u, u.clients[i])
    ensures Inv(Enqueue(u, i, accepts))
  {
    TryEnqueueKeeps(u.(clients := u.clients[i := u.clients[i].(head := u.clients[i].head + 1)]), accepts);
  }

  /** After a reset the client has all but one period filled, or is at the device head. */
  lemma {:induction false} ResetKeeps(u: Upper, i: nat, answers: nat -> Accepts)
    requires Inv(u) && i < |u.clients|
    ensures var v := Reset(u, i, answers);
            && Inv(v) && v.tail == u.tail && v.periods == u.periods && |v.clients| == |u.clients|
            && v.clients[i].head == if u.head > u.tail + u.periods - 1 then u.head else u.tail + u.periods - 1
  {
    var c := u.clients[i];
    var full := u.tail + u.periods - 1;
    FillKeeps(u.(clients := u.clients[i := Client(u.head, if c.state == Xrun then Running else c.state)]), i,
              if u.head > full then u.head else full, answers);
  }

  lemma {:induction false} DequeueKeeps(u: Upper, accepts: Accepts)
    requires Inv(u) && u.queue != []
    ensures Inv(Apply(u, DequeueOp(accepts)))
  {
    assert Slots(u.tail, u.head, u.periods)[1..] == Slots(u.tail + 1, u.head, u.periods);
    TryEnqueueKeeps(u.(tail := u.tail + 1, queue := u.queue[1..]), accepts);
  }

  /** The driver's return of a buffer: it is the oldest, the tail moves on by one, and the others stay in
      flight, with whatever is handed over behind them. */
  lemma {:induction false} DequeueDoes(u: Upper, accepts: Accepts)
    requires Inv(u) && u.queue != []
    ensures var v := Apply(u, DequeueOp(accepts));
            && u.queue[0] == u.tail % u.periods && v.tail == u.tail + 1 && u.queue[1..] <= v.queue
            && u.head <= v.head && v.queue == Slots(u.tail + 1, v.head, u.periods) && |v.clients| == |u.clients|
  {
    DequeueKeeps(u, accepts);
  }

  /** The device never comes to a position that no active client has reached. */
  lemma {:induction false} RestWithin(u: Upper, accepts: Accepts, m: nat)
    requires u.head <= m && forall j :: 0 <= j < |u.clients| && u.clients[j].Active() ==> u.clients[j].head <= m
    ensures Rest(u, accepts, u.head) <= m
  {
    assert Stops(u, m);
  }

  /** The client is as far as any active one, and as the device. */
  ghost predicate Leading(u: Upper, i: nat)
    requires i < |u.clients|
  {
    && u.tail <= u.head <= u.clients[i].head
    && forall j :: 0 <= j < |u.clients| && u.clients[j].Active() ==> u.clients[j].head <= u.clients[i].head
  }

  lemma {:induction false} LeadingStays(u: Upper, i: nat, accepts: Accepts)
    requires u.periods > 0 && i < |u.clients| && Leading(u, i)
    ensures var v := Enqueue(u, i, accepts); Leading(v, i) && v.clients[i].state == u.clients[i].state
  {
    RestWithin(Moved(u, i), accepts, u.clients[i].head + 1);
  }

  /** While a client that leads fills up, its state stays; any other may run dry. */
  lemma {:induction false} FillState(u: Upper, i: nat, target: nat, answers: nat -> Accepts)
    requires u.periods > 0 && i < |u.clients|
    ensures var v := Fill(u, i, target, answers);
            && |v.clients| == |u.clients|
            && (v.clients[i].state == u.clients[i].state || (u.clients[i].Active() && v.clients[i].state == Xrun))
            && (Leading(u, i) ==> v.clients[i].state == u.clients[i].state)
    decreases target - u.clients[i].head
  {
    if u.clients[i].head < target {
      var accepts := answers(u.clients[i].head);
      if Leading(u, i) {
        LeadingStays(u, i, accepts);
      }
      FillState(Enqueue(u, i, accepts), i, target, answers);
    }
  }

  /** A reset sets a client that had run dry going again, and leaves any other state; it is dry again only
      if another active client is ahead of the device. It fills all but one period, or is at the device head. */
  lemma {:induction false} ResetDoes(u: Upper, i: nat, answers: nat -> Accepts)
    requires Inv(u) && i < |u.clients|
    ensures var v, c := Apply(u, ResetOp(i, answers)), u.clients[i];
            var state := if c.state == Xrun then Running else c.state;
            && |v.clients| == |u.clients| && (v.clients[i].state == state || v.clients[i].state == Xrun)
            && v.clients[i].head == (if u.head > u.tail + u.periods - 1 then u.head else u.tail + u.periods - 1)
            && ((forall j :: 0 <= j < |u.clients| && j != i && u.clients[j].Active() ==> u.clients[j].head <= u.head)
                ==> v.clients[i].state == state)
  {
    ResetKeeps(u, i, answers);
    var c := u.clients[i];
    var full := u.tail + u.periods - 1;
    var w := u.(clients := u.clients[i := Client(u.head, if c.state == Xrun then Running else c.state)]);
    FillState(w, i, if u.head > full then u.head else full, answers);
  }

  lemma {:induction false} OpenKeeps(u: Upper)
    requires Inv(u)
    ensures var v := Apply(u, OpenOp);
            && Inv(v) && v.periods == u.periods && v.clients == [Client(0, Open)] + u.clients
            && (u.clients != [] ==> v.(clients := u.clients) == u) && (u.clients == [] ==> v.head == 0 == v.tail)
  {
  }

  lemma {:induction false} CloseKeeps(u: Upper, i: nat)
    requires Inv(u) && i < |u.clients|
    ensures var v := Apply(u, CloseOp(i));
            && Inv(v) && v.periods == u.periods && v.clients == u.clients[..i] + u.clients[i + 1..]
            && (v.clients != [] ==> v.(clients := u.clients) == u)
  {
  }

  lemma {:induction false} StateKeeps(u: Upper, i: nat, state: ClientState)
    requires Inv(u) && i < |u.clients|
    ensures var v := Apply(u, StateOp(i, state));
            Inv(v) && v.(clients := u.clients) == u && v.clients == u.clients[i := Client(u.clients[i].head, state)]
  {
  }

  /** Every legal step keeps the invariant. */
  lemma {:induction false} ApplyKeeps(u: Upper, op: Op)
    requires Inv(u) && Legal(u, op)
    ensures Inv(Apply(u, op)) && Apply(u, op).periods == u.periods
  {
    match op
    case OpenOp => OpenKeeps(u);
    case CloseOp(i) => CloseKeeps(u, i);
    case StateOp(i, state) => StateKeeps(u, i, state);
    case EnqueueOp(i, accepts) => EnqueueKeeps(u, i, accepts);
    case ResetOp(i, answers) => ResetKeeps(u, i, answers);
    case DequeueOp(accepts) => DequeueKeeps(u, accepts);
  }

  /** A run: a sequence of steps, each legal where it is taken. */
  ghost predicate LegalRun(u: Upper, ops: seq<Op>)
    requires u.periods > 0
    decreases |ops|
  {
    ops == [] || (Legal(u, ops[0]) && LegalRun(Apply(u, ops[0]), ops[1..]))
  }

  ghost function After(u: Upper, ops: seq<Op>): Upper
    requires u.periods > 0 && LegalRun(u, ops)
    decreases |ops|
  {
    if ops == [] then u else After(Apply(u, ops[0]), ops[1..])
  }

  /** In every legal run the device stays within the ring, the driver holds exactly the slots
      between tail and head, and no buffer is in its hands twice. */
  lemma {:induction false} RingSafe(u: Upper, ops: seq<Op>)
    requires Inv(u) && LegalRun(u, ops)
    ensures var v := After(u, ops);
            && Inv(v) && v.tail <= v.head <= v.tail + v.periods
            && v.queue == Slots(v.tail, v.head, v.periods)
            && forall i, j :: 0 <= i < j < |v.queue| ==> v.queue[i] != v.queue[j]
    decreases |ops|
  {
    if ops == [] {
      InFlightOnce(u);
    } else {
      ApplyKeeps(u, ops[0]);
      RingSafe(Apply(u, ops[0]), ops[1..]);
    }
  }

  // ----- counting -----

  /** Some client has the device open, all the time. */
  ghost predicate StaysOpen(u: Upper, ops: seq<Op>)
    requires u.periods > 0 && LegalRun(u, ops)
    decreases |ops|
  {
    u.clients != [] && (ops != [] ==> StaysOpen(Apply(u, ops[0]), ops[1..]))
  }

  /** How many buffers the driver has returned. */
  function Returned(ops: seq<Op>): nat {
    if ops == [] then 0 else (if ops[0].DequeueOp? then 1 else 0) + Returned(ops[1..])
  }

  lemma {:induction false} TailMoves(u: Upper, op: Op)
    requires Inv(u) && Legal(u, op) && u.clients != [] && Apply(u, op).clients != []
    ensures Apply(u, op).tail == u.tail + if op.DequeueOp? then 1 else 0
  {
    match op
    case ResetOp(i, answers) => ResetKeeps(u, i, answers);
    case DequeueOp(accepts) => DequeueDoes(u, accepts);
    case _ =>
  }

  /** While the device is open, the tail counts the buffers that have come back. */
  lemma {:induction false} TailCounts(u: Upper, ops: seq<Op>)
    requires Inv(u) && LegalRun(u, ops) && StaysOpen(u, ops)
    ensures After(u, ops).tail == u.tail + Returned(ops)
    decreases |ops|
  {
    if ops != [] {
      ApplyKeeps(u, ops[0]);
      TailMoves(u, ops[0]);
      TailCounts(Apply(u, ops[0]), ops[1..]);
    }
  }

  /** From the first client's opening on: the tail is the number of buffers that have come back, and the
      head that of those handed over. */
  lemma {:induction false} OpenedCounts(u: Upper, ops: seq<Op>)
    requires Inv(u) && u.clients == [] && LegalRun(Apply(u, OpenOp), ops) && StaysOpen(Apply(u, OpenOp), ops)
    ensures var v := After(Apply(u, OpenOp), ops);
            v.tail == Returned(ops) && v.head == Returned(ops) + |v.queue|
  {
    OpenKeeps(u);
    TailCounts(Apply(u, OpenOp), ops);
    RingSafe(Apply(u, OpenOp), ops);
  }

  /** How many buffers client i has filled. */
  function Filled(ops: seq<Op>, i: nat): nat {
    if ops == [] then 0 else (if ops[0].EnqueueOp? && ops[0].i == i then 1 else 0) + Filled(ops[1..], i)
  }

  /** No client comes, goes or starts over. */
  ghost predicate Steady(ops: seq<Op>) {
    forall k :: 0 <= k < |ops| ==> ops[k].StateOp? || ops[k].EnqueueOp? || ops[k].DequeueOp?
  }

  /** Then the head of each client counts the buffers it has filled. */
  lemma {:induction false} HeadCounts(u: Upper, ops: seq<Op>, i: nat)
    requires Inv(u) && LegalRun(u, ops) && Steady(ops) && i < |u.clients|
    ensures var v := After(u, ops); |v.clients| == |u.clients| && v.clients[i].head == u.clients[i].head + Filled(ops, i)
    decreases |ops|
  {
    if ops != [] {
      ApplyKeeps(u, ops[0]);
      HeadCounts(Apply(u, ops[0]), ops[1..], i);
    }
  }

  lemma {:induction false} InFlightOnce(u: Upper)
    requires Inv(u)
    ensures forall i, j :: 0 <= i < j < |u.queue| ==> u.queue[i] != u.queue[j]
  {
    forall i, j | 0 <= i < j < |u.queue| ensures u.queue[i] != u.queue[j] {
      ModApart(u.tail + i, u.tail + j, u.periods);
    }
  }

  /** Another active client keeps the device from moving past the position. */
  ghost predicate HeldUp(u: Upper, i: nat, x: nat) {
    x > u.tail + THRESHOLD && exists j :: 0 <= j < |u.clients| && j != i && u.clients[j].Active() && u.clients[j].head == x
  }

  /** Client i enqueues without room, is active, and neither another client nor the driver stops the device
      before it comes round the whole ring. */
  ghost predicate Overruns(u: Upper, i: nat, accepts: Accepts)
    requires i < |u.clients|
  {
    && !Room(u, u.clients[i]) && u.clients[i].Active()
    && forall x :: u.head <= x <= u.tail + u.periods ==> accepts(x) && !HeldUp(u, i, x)
  }

  ghost predicate Twice(queue: seq<nat>) {
    exists a, b :: 0 <= a < b < |queue| && queue[a] == queue[b]
  }

  /** The state after the client's own head has moved. */
  ghost function Moved(u: Upper, i: nat): Upper
    requires i < |u.clients|
  {
    u.(clients := u.clients[i := u.clients[i].(head := u.clients[i].head + 1)])
  }

  /** Up to the end of the ring the device stops exactly where another client holds it up, if client i is
      active and without room. */
  lemma {:induction false} StopsAhead(u: Upper, i: nat, x: nat)
    requires Inv(u) && i < |u.clients| && !Room(u, u.clients[i]) && u.clients[i].Active()
    requires u.tail <= x <= u.tail + u.periods
    ensures Stops(Moved(u, i), x) <==> HeldUp(u, i, x)
  {
    var w := Moved(u, i);
    assert w.clients[i].Active() && w.clients[i].head > x;
    if HeldUp(u, i, x) {
      var j :| 0 <= j < |u.clients| && j != i && u.clients[j].Active() && u.clients[j].head == x;
      assert w.clients[j].Active() && w.clients[j].head == x;
    } else if IsWaiting(w.clients, x, w.tail) {
      var j :| 0 <= j < |w.clients| && w.clients[j].Active() && w.clients[j].head == x;
      assert u.clients[j].Active() && u.clients[j].head == x;
    }
  }

  /** With a client that has room or is not active, nobody is ready at the end of the ring. */
  lemma {:induction false} StopsAtEnd(u: Upper, i: nat)
    requires Inv(u) && i < |u.clients| && (Room(u, u.clients[i]) || !u.clients[i].Active())
    ensures Stops(Moved(u, i), u.tail + u.periods)
  {
  }

  /** An enqueue hands a buffer over that the driver already holds if and only if the client overruns. */
  lemma {:induction false} OverrunExact(u: Upper, i: nat, accepts: Accepts)
    requires Inv(u) && i < |u.clients|
    ensures Twice(Enqueue(u, i, accepts).queue) <==> Overruns(u, i, accepts)
  {
    var w, full := Moved(u, i), u.tail + u.periods;
    var r := Rest(w, accepts, u.head);
    var queue := Enqueue(u, i, accepts).queue;
    assert queue == Slots(u.tail, r, u.periods);
    TwiceExact(u.tail, r, u.periods);
    if Overruns(u, i, accepts) {
      forall x | u.head <= x <= full ensures !Stops(w, x) && accepts(x) {
        StopsAhead(u, i, x);
      }
      assert r > full;
    } else if Room(u, u.clients[i]) || !u.clients[i].Active() {
      StopsAtEnd(u, i);
      assert r <= full;
    } else {
      var x :| u.head <= x <= full && !(accepts(x) && !HeldUp(u, i, x));
      StopsAhead(u, i, x);
      assert r <= x;
    }
  }

  /** A slot occurs twice exactly when there are more positions than slots. */
  lemma {:induction false} TwiceExact(lo: nat, hi: nat, periods: nat)
    requires lo <= hi && periods > 0
    ensures Twice(Slots(lo, hi, periods)) <==> hi > lo + periods
  {
    var s := Slots(lo, hi, periods);
    if hi > lo + periods {
      var d, x := lo / periods, lo % periods;
      assert lo + periods == (d + 1) * periods + x;
      ModOf(lo + periods, d + 1, x, periods);
      assert s[0] == s[periods];
    } else {
      forall a, b | 0 <= a < b < |s| ensures s[a] != s[b] {
        ModApart(lo + a, lo + b, periods);
      }
    }
  }
}
