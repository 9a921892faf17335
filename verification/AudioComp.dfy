/**
 A composite audio device: an operation is passed on to every lower device. Start, resume and reserve
 stop at the first error and undo what was done; stop, pause, shutdown and release go on regardless.
 */
module AudioComp {

  const ENOTTY := 25
  const OK := 0

  /** What a lower device does on a call: it may lack the operation. */
  datatype Reply = Absent | Gives(code: int)

  /** A lower device, for one operation and the one that undoes it. */
  datatype Device = Device(act: Reply, undo: Reply)

  datatype Call = Act(i: nat) | Undo(i: nat)

  /** The device took part: it neither lacks the operation nor declines it. */
  predicate Acts(r: Reply) { r.Gives? && r.code >= 0 }

  predicate Errs(r: Reply) { r.Gives? && r.code < 0 && r.code != -ENOTTY }

  // ----- what is called -----

  /** The first n devices are called, those without the operation left out. */
  function ActLog(ds: seq<Device>, n: nat): seq<Call>
    requires n <= |ds|
  {
    if n == 0 then [] else ActLog(ds, n - 1) + if ds[n - 1].act.Gives? then [Act(n - 1)] else []
  }

  /** The first n devices are undone from the last to the first, those without the operation left out. */
  function UndoLog(ds: seq<Device>, n: nat): seq<Call>
    requires n <= |ds|
  {
    if n == 0 then [] else (if ds[n - 1].undo.Gives? then [Undo(n - 1)] else []) + UndoLog(ds, n - 1)
  }

  /** The result of the last of the first n devices that took part. */
  function LastCode(ds: seq<Device>, n: nat, ret: int): int
    requires n <= |ds|
  {
    if n == 0 then ret
    else if Acts(ds[n - 1].act) then ds[n - 1].act.code
    else LastCode(ds, n - 1, ret)
  }

  /** The first device that gives an error, or |ds|. */
  function FirstFailure(ds: seq<Device>, from: nat): (n: nat)
    requires from <= |ds|
    ensures from <= n <= |ds| && (n < |ds| ==> Errs(ds[n].act))
    ensures forall j :: from <= j < n ==> !Errs(ds[j].act)
    decreases |ds| - from
  {
    if from == |ds| || Errs(ds[from].act) then from else FirstFailure(ds, from + 1)
  }

  /** The devices that have the operation are called, each once, from the first to the last; and undone from
      the last to the first. */
  lemma {:induction false} LogsExact(ds: seq<Device>, n: nat)
    requires n <= |ds|
    ensures var log := ActLog(ds, n);
            && (forall k :: 0 <= k < |log| ==> log[k].Act?) && (forall a, b :: 0 <= a < b < |log| ==> log[a].i < log[b].i)
            && (forall i: nat :: Act(i) in log <==> i < n && ds[i].act.Gives?)
    ensures var log := UndoLog(ds, n);
            && (forall k :: 0 <= k < |log| ==> log[k].Undo?) && (forall a, b :: 0 <= a < b < |log| ==> log[a].i > log[b].i)
            && (forall i: nat :: Undo(i) in log <==> i < n && ds[i].undo.Gives?)
  {
    if n > 0 {
      LogsExact(ds, n - 1);
      ActLogged(ds, n);
      UndoLogged(ds, n);
    }
  }

  lemma {:induction false} ActLogged(ds: seq<Device>, n: nat)
    requires 0 < n <= |ds|
    requires var log := ActLog(ds, n - 1);
             && (forall k :: 0 <= k < |log| ==> log[k].Act?) && (forall a, b :: 0 <= a < b < |log| ==> log[a].i < log[b].i)
             && (forall i: nat :: Act(i) in log <==> i < n - 1 && ds[i].act.Gives?)
    ensures var log := ActLog(ds, n);
            && (forall k :: 0 <= k < |log| ==> log[k].Act?) && (forall a, b :: 0 <= a < b < |log| ==> log[a].i < log[b].i)
            && (forall i: nat :: Act(i) in log <==> i < n && ds[i].act.Gives?)
  {
    var log := ActLog(ds, n - 1);
    forall k | 0 <= k < |log| ensures log[k].i < n - 1 {
      assert log[k] in log && log[k] == Act(log[k].i);
    }
  }

  lemma {:induction false} UndoLogged(ds: seq<Device>, n: nat)
    requires 0 < n <= |ds|
    requires var log := UndoLog(ds, n - 1);
             && (forall k :: 0 <= k < |log| ==> log[k].Undo?) && (forall a, b :: 0 <= a < b < |log| ==> log[a].i > log[b].i)
             && (forall i: nat :: Undo(i) in log <==> i < n - 1 && ds[i].undo.Gives?)
    ensures var log := UndoLog(ds, n);
            && (forall k :: 0 <= k < |log| ==> log[k].Undo?) && (forall a, b :: 0 <= a < b < |log| ==> log[a].i > log[b].i)
            && (forall i: nat :: Undo(i) in log <==> i < n && ds[i].undo.Gives?)
  {
    var log := UndoLog(ds, n - 1);
    forall k | 0 <= k < |log| ensures log[k].i < n - 1 {
      assert log[k] in log && log[k] == Undo(log[k].i);
    }
  }

  /** Without an error the result is that of the last device that took part. */
  lemma {:induction false} LastCodeExact(ds: seq<Device>, n: nat, ret: int, j: nat)
    requires j < n <= |ds| && Acts(ds[j].act) && forall k :: j < k < n ==> !Acts(ds[k].act)
    ensures LastCode(ds, n, ret) == ds[j].act.code
    decreases n
  {
    if j < n - 1 {
      LastCodeExact(ds, n - 1, ret, j);
    }
  }

  /** If none did, it is the first value. */
  lemma {:induction false} LastCodeNone(ds: seq<Device>, n: nat, ret: int)
    requires n <= |ds| && forall k :: 0 <= k < n ==> !Acts(ds[k].act)
    ensures LastCode(ds, n, ret) == ret
  {
    if n > 0 {
      LastCodeNone(ds, n - 1, ret);
    }
  }

  /** audio_comp_start, audio_comp_resume (init is -ENOTTY) and audio_comp_reserve (init is OK). */
  method Start(ds: seq<Device>, init: int) returns (ret: int, log: seq<Call>)
    ensures var n := FirstFailure(ds, 0);
            if n == |ds| then ret == LastCode(ds, n, init) && log == ActLog(ds, n)
            else ret == ds[n].act.code && log == ActLog(ds, n + 1) + UndoLog(ds, n)
  {
    ret, log := init, [];
    ghost var n := FirstFailure(ds, 0);
    var i := 0;
    while i < |ds|
      invariant 0 <= i <= n
      invariant ret == LastCode(ds, i, init) && log == ActLog(ds, i)
    {
      if ds[i].act.Gives? {
        var tmp := ds[i].act.code;
        log := log + [Act(i)];
        if tmp != -ENOTTY {
          ret := tmp;
          if ret < 0 {
            ghost var before := log;
            while i > 0
              invariant 0 <= i <= n
              invariant log + UndoLog(ds, i) == before + UndoLog(ds, n)
            {
              i := i - 1;
              if ds[i].undo.Gives? {
                ghost var was := log;
                log := log + [Undo(i)];
                assert was + ([Undo(i)] + UndoLog(ds, i)) == log + UndoLog(ds, i);
              }
            }
            assert log + [] == log;
            return;
          }
        }
      }
      i := i + 1;
    }
  }

  // ----- all or nothing -----

  /** Which devices are on after a call: an operation that succeeds turns its device on, and the operation
      that undoes it turns it off if it succeeds. */
  function Called(ds: seq<Device>, c: Call, on: seq<bool>): (r: seq<bool>)
    requires |on| == |ds| && c.i < |ds|
    ensures |r| == |ds|
  {
    on[c.i := if c.Act? then on[c.i] || Acts(ds[c.i].act) else on[c.i] && !Acts(ds[c.i].undo)]
  }

  function Replay(ds: seq<Device>, log: seq<Call>, on: seq<bool>): (r: seq<bool>)
    requires |on| == |ds| && forall c <- log :: c.i < |ds|
    ensures |r| == |ds|
    decreases |log|
  {
    if log == [] then on
    else
      var c := log[0];
      assert c in log;
      Replay(ds, log[1..], Called(ds, c, on))
  }

  lemma {:induction false} ReplayCat(ds: seq<Device>, a: seq<Call>, b: seq<Call>, on: seq<bool>)
    requires |on| == |ds| && (forall c <- a :: c.i < |ds|) && forall c <- b :: c.i < |ds|
    ensures Replay(ds, a + b, on) == Replay(ds, b, Replay(ds, a, on))
    decreases |a|
  {
    if a == [] {
      assert a + b == b;
    } else {
      var c := a[0];
      assert c in a;
      assert (a + b)[1..] == a[1..] + b;
      ReplayCat(ds, a[1..], b, Called(ds, c, on));
    }
  }

  lemma {:induction false} ReplayOne(ds: seq<Device>, c: Call, on: seq<bool>)
    requires |on| == |ds| && c.i < |ds|
    ensures Replay(ds, [c], on) == Called(ds, c, on)
  {
    assert [c][1..] == [];
  }

  lemma {:induction false} LogsFit(ds: seq<Device>, n: nat)
    requires n <= |ds|
    ensures forall c <- ActLog(ds, n) :: c.i < n
    ensures forall c <- UndoLog(ds, n) :: c.i < n
  {
    if n > 0 {
      LogsFit(ds, n - 1);
    }
  }

  /** Calling the first n devices turns on those that take part. */
  lemma {:induction false} ActTurnsOn(ds: seq<Device>, n: nat, on: seq<bool>)
    requires n <= |ds| == |on|
    ensures (forall c <- ActLog(ds, n) :: c.i < |ds|) && |Replay(ds, ActLog(ds, n), on)| == |ds|
    ensures forall i :: 0 <= i < |ds| ==> Replay(ds, ActLog(ds, n), on)[i] == (on[i] || (i < n && Acts(ds[i].act)))
  {
    LogsFit(ds, n);
    if n > 0 {
      ActTurnsOn(ds, n - 1, on);
      LogsFit(ds, n - 1);
      var log := ActLog(ds, n - 1);
      if ds[n - 1].act.Gives? {
        ReplayCat(ds, log, [Act(n - 1)], on);
        ReplayOne(ds, Act(n - 1), Replay(ds, log, on));
      } else {
        assert ActLog(ds, n) == log;
      }
    }
  }

  /** Undoing the first n devices turns off those whose operation succeeds, whether or not they took part. */
  lemma {:induction false} UndoTurnsOff(ds: seq<Device>, n: nat, on: seq<bool>)
    requires n <= |ds| == |on|
    ensures (forall c <- UndoLog(ds, n) :: c.i < |ds|) && |Replay(ds, UndoLog(ds, n), on)| == |ds|
    ensures forall i :: 0 <= i < |ds| ==> Replay(ds, UndoLog(ds, n), on)[i] == (on[i] && !(i < n && Acts(ds[i].undo)))
    decreases n
  {
    LogsFit(ds, n);
    if n > 0 {
      var log := UndoLog(ds, n);
      if ds[n - 1].undo.Gives? {
        assert log[1..] == UndoLog(ds, n - 1);
        UndoTurnsOff(ds, n - 1, Called(ds, Undo(n - 1), on));
      } else {
        assert log == UndoLog(ds, n - 1);
        UndoTurnsOff(ds, n - 1, on);
      }
    }
  }

  /** A device is, after the error of a later one, as before the call: one that was off has not taken part
      or its undoing succeeds, and the undoing of one that was on does not. */
  ghost predicate Restored(d: Device, on: bool) {
    var undone := d.undo.Gives? && d.undo.code >= 0;
    if on then !undone else d.act.Gives? && d.act.code >= 0 ==> undone
  }

  /** After an error of device n every device is as before the call if and only if each one before n is
      restored. */
  lemma {:induction false} AllOrNothing(ds: seq<Device>, n: nat, on: seq<bool>)
    requires n < |ds| == |on| && Errs(ds[n].act)
    ensures var log := ActLog(ds, n + 1) + UndoLog(ds, n);
            && (forall c <- log :: c.i < |ds|)
            && (Replay(ds, log, on) == on <==> forall i :: 0 <= i < n ==> Restored(ds[i], on[i]))
  {
    var log := ActLog(ds, n + 1) + UndoLog(ds, n);
    ActTurnsOn(ds, n + 1, on);
    var mid := Replay(ds, ActLog(ds, n + 1), on);
    UndoTurnsOff(ds, n, mid);
    ReplayCat(ds, ActLog(ds, n + 1), UndoLog(ds, n), on);
    var end := Replay(ds, log, on);
    forall i | 0 <= i < |ds| ensures end[i] == on[i] <==> (i < n ==> Restored(ds[i], on[i])) {
    }
    if forall i :: 0 <= i < n ==> Restored(ds[i], on[i]) {
      assert end == on;
    } else {
      var i :| 0 <= i < n && !Restored(ds[i], on[i]);
      assert end[i] != on[i];
    }
  }

  // ----- best effort -----

  /** The first device from a place on that fails, and the first that takes part; |ds| if there is none. */
  function FirstErr(ds: seq<Device>, from: nat): (r: nat)
    requires from <= |ds|
    ensures from <= r <= |ds| && (r < |ds| ==> Errs(ds[r].undo))
    ensures forall j :: from <= j < r ==> !Errs(ds[j].undo)
    decreases |ds| - from
  {
    if from == |ds| || Errs(ds[from].undo) then from else FirstErr(ds, from + 1)
  }

  function FirstAct(ds: seq<Device>, from: nat): (r: nat)
    requires from <= |ds|
    ensures from <= r <= |ds| && (r < |ds| ==> Acts(ds[r].undo))
    ensures forall j :: from <= j < r ==> !Acts(ds[j].undo)
    decreases |ds| - from
  {
    if from == |ds| || Acts(ds[from].undo) then from else FirstAct(ds, from + 1)
  }

  /** What is reported: the first failure, else the first result, else the value it began with. */
  function Report(ds: seq<Device>, from: nat, init: int): int
    requires from <= |ds|
  {
    var e, a := FirstErr(ds, from), FirstAct(ds, from);
    if e < |ds| then ds[e].undo.code else if a < |ds| then ds[a].undo.code else init
  }

  /** What is reported: the failure of the lowest device that failed; else the result of the lowest that took
      part; else the first value. */
  lemma {:induction false} ReportExact(ds: seq<Device>, init: int)
    ensures forall i :: 0 <= i < |ds| && Errs(ds[i].undo) && (forall k :: 0 <= k < i ==> !Errs(ds[k].undo)) ==>
              Report(ds, 0, init) == ds[i].undo.code
    ensures (forall k :: 0 <= k < |ds| ==> !Errs(ds[k].undo)) ==>
              && (forall i :: 0 <= i < |ds| && Acts(ds[i].undo) && (forall k :: 0 <= k < i ==> !Acts(ds[k].undo)) ==>
                    Report(ds, 0, init) == ds[i].undo.code)
              && ((forall k :: 0 <= k < |ds| ==> !Acts(ds[k].undo)) ==> Report(ds, 0, init) == init)
  {
    var e, a := FirstErr(ds, 0), FirstAct(ds, 0);
    forall i | 0 <= i < |ds| && Errs(ds[i].undo) && (forall k :: 0 <= k < i ==> !Errs(ds[k].undo)) ensures i == e {
    }
    forall i | 0 <= i < |ds| && Acts(ds[i].undo) && (forall k :: 0 <= k < i ==> !Acts(ds[k].undo)) ensures i == a {
    }
  }

  /** An error is reported exactly when some device failed. */
  lemma {:induction false} ReportsErrors(ds: seq<Device>, init: int)
    requires init == OK || init == -ENOTTY
    ensures var ret := Report(ds, 0, init);
            ret < 0 && ret != -ENOTTY <==> exists i :: 0 <= i < |ds| && Errs(ds[i].undo)
  {
    if FirstErr(ds, 0) < |ds| {
      assert Errs(ds[FirstErr(ds, 0)].undo);
    }
  }

  /** audio_comp_stop, audio_comp_pause and audio_comp_shutdown: every device is called, from the last to
      the first, whatever the others give. */
  method Stop(ds: seq<Device>) returns (ret: int, log: seq<Call>)
    ensures log == UndoLog(ds, |ds|) && ret == Report(ds, 0, -ENOTTY)
  {
    ret, log := -ENOTTY, [];
    var i := |ds|;
    while i > 0
      invariant 0 <= i <= |ds|
      invariant log + UndoLog(ds, i) == UndoLog(ds, |ds|) && ret == Report(ds, i, -ENOTTY)
    {
      i := i - 1;
      if ds[i].undo.Gives? {
        var tmp := ds[i].undo.code;
        ghost var was := log;
        log := log + [Undo(i)];
        assert was + ([Undo(i)] + UndoLog(ds, i)) == log + UndoLog(ds, i);
        if tmp != -ENOTTY && (tmp < 0 || ret == -ENOTTY || ret >= 0) {
          ret := tmp;
        }
      }
    }
    assert log + [] == log;
  }

  /** audio_comp_release. */
  method Release(ds: seq<Device>) returns (ret: int, log: seq<Call>)
    ensures log == UndoLog(ds, |ds|) && ret == Report(ds, 0, OK)
  {
    ret, log := OK, [];
    var i := |ds|;
    while i > 0
      invariant 0 <= i <= |ds|
      invariant log + UndoLog(ds, i) == UndoLog(ds, |ds|) && ret == Report(ds, i, OK)
    {
      i := i - 1;
      if ds[i].undo.Gives? {
        var tmp := ds[i].undo.code;
        ghost var was := log;
        log := log + [Undo(i)];
        assert was + ([Undo(i)] + UndoLog(ds, i)) == log + UndoLog(ds, i);
        if tmp != -ENOTTY && (tmp < 0 || ret >= 0) {
          ret := tmp;
        }
      }
    }
    assert log + [] == log;
  }
}
