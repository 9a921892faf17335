/**
 What fast forward keeps of a whole stream, for every way of cutting it into buffers and every
 change of rate between buffers.
 */
module PcmStream {
  import opened Basics
  import opened PcmSubsample

  /** A buffer and the rate in force when it arrives. */
  datatype Segment = Segment(rate: nat, data: seq<Byte>)

  ghost predicate Rated(segs: seq<Segment>) {
    forall i :: 0 <= i < |segs| ==> segs[i].rate >= 1
  }

  /** The stream, and the rate in force at each of its bytes. */
  function Stream(segs: seq<Segment>): seq<Byte> {
    if segs == [] then [] else segs[0].data + Stream(segs[1..])
  }

  function Rates(segs: seq<Segment>): (rs: seq<nat>)
    ensures |rs| == |Stream(segs)|
  {
    if segs == [] then [] else Same(segs[0].rate, |segs[0].data|) + Rates(segs[1..])
  }

  /** What the decoder passes on, buffer by buffer. */
  ghost function Played(a: nat, segs: seq<Segment>, ph: Phase): seq<Byte>
    requires Rated(segs)
  {
    if segs == [] then []
    else
      var ks := Same(SkipSize(a, segs[0].rate), |segs[0].data|);
      Kept(a, ks, ph, segs[0].data) + Played(a, segs[1..], PhaseAfter(a, ks, ph))
  }

  /** Buffer after buffer through one decoder, each at its own rate: what is passed on. */
  method Play(d: Decoder, segs: seq<Segment>) returns (out: seq<Byte>)
    requires d.Valid() && forall i :: 0 <= i < |segs| ==> 1 <= segs[i].rate < 256
    requires d.subsample != NONE || Phase(d.npartial, d.skip) == Phase(0, 0)
    modifies d
    ensures d.Valid() && out == Played(old(d.align), segs, old(Phase(d.npartial, d.skip)))
  {
    ghost var goal := Played(d.align, segs, Phase(d.npartial, d.skip));
    out := [];
    var i := 0;
    assert segs[0..] == segs;
    while i < |segs|
      invariant 0 <= i <= |segs| && d.Valid() && d.align == old(d.align)
      invariant d.subsample != NONE || Phase(d.npartial, d.skip) == Phase(0, 0)
      invariant out + Played(d.align, segs[i..], Phase(d.npartial, d.skip)) == goal
    {
      ghost var rest, ph := segs[i..], Phase(d.npartial, d.skip);
      d.Configure(segs[i].rate);
      assert Phase(d.npartial, d.skip) == ph;
      var apb := new ApBuffer.Filled(segs[i].data);
      d.Subsample(apb);
      var data := apb.Take();
      PlayedNext(d.align, rest, ph, out);
      assert rest[1..] == segs[i + 1..];
      out := out + data;
      i := i + 1;
    }
    assert segs[i..] == [] && out + [] == out;
  }

  lemma {:induction false} PlayedNext(a: nat, segs: seq<Segment>, ph: Phase, out: seq<Byte>)
    requires Rated(segs) && segs != []
    ensures var ks := Same(SkipSize(a, segs[0].rate), |segs[0].data|);
            out + Played(a, segs, ph)
            == out + Kept(a, ks, ph, segs[0].data) + Played(a, segs[1..], PhaseAfter(a, ks, ph))
  {
    var ks := Same(SkipSize(a, segs[0].rate), |segs[0].data|);
    Assoc(out, Kept(a, ks, ph, segs[0].data), Played(a, segs[1..], PhaseAfter(a, ks, ph)));
  }

  ghost function SkipSizes(a: nat, rs: seq<nat>): (ks: seq<nat>)
    requires forall i :: 0 <= i < |rs| ==> rs[i] >= 1
    ensures |ks| == |rs|
  {
    seq(|rs|, i requires 0 <= i < |rs| => SkipSize(a, rs[i]))
  }

  lemma {:induction false} RatesRated(segs: seq<Segment>)
    requires Rated(segs)
    ensures forall i :: 0 <= i < |Rates(segs)| ==> Rates(segs)[i] >= 1
  {
    if segs != [] {
      RatesRated(segs[1..]);
    }
  }

  /** The buffers do not matter: only the stream and the rate at each byte do. */
  lemma {:induction false} PlayedIsKept(a: nat, segs: seq<Segment>, ph: Phase)
    requires Rated(segs)
    ensures forall i :: 0 <= i < |Rates(segs)| ==> Rates(segs)[i] >= 1
    ensures Played(a, segs, ph) == Kept(a, SkipSizes(a, Rates(segs)), ph, Stream(segs))
  {
    RatesRated(segs);
    if segs != [] {
      var n := |segs[0].data|;
      var ks := Same(SkipSize(a, segs[0].rate), n);
      RatesRated(segs[1..]);
      PlayedIsKept(a, segs[1..], PhaseAfter(a, ks, ph));
      KeptCut(a, ks, SkipSizes(a, Rates(segs[1..])), ph, segs[0].data, Stream(segs[1..]));
      SkipSizesCat(a, segs[0].rate, n, Rates(segs[1..]));
    }
  }

  lemma {:induction false} SkipSizesCat(a: nat, rate: nat, n: nat, rs: seq<nat>)
    requires rate >= 1 && forall i :: 0 <= i < |rs| ==> rs[i] >= 1
    ensures forall i :: 0 <= i < n + |rs| ==> (Same(rate, n) + rs)[i] >= 1
    ensures SkipSizes(a, Same(rate, n) + rs) == Same(SkipSize(a, rate), n) + SkipSizes(a, rs)
  {
  }

  // ----- whole frames, one after the other -----

  /** The frames kept from the one at byte q on: that one, then the one as many frames further as the
      rate in force when it was completed. The last may be cut off by the end of the stream. */
  ghost function Frames(a: nat, rs: seq<nat>, s: seq<Byte>, q: nat): seq<Byte>
    requires a > 0 && |rs| == |s| && forall i :: 0 <= i < |rs| ==> rs[i] >= 1
    decreases |s| - q
  {
    if q >= |s| then []
    else if q + a > |s| then s[q..]
    else
      MulGap(0, rs[q + a - 1], a);
      s[q..q + a] + Frames(a, rs, s, q + a * rs[q + a - 1])
  }

  lemma {:induction false} RateSkips(a: nat, r: nat)
    requires r >= 1
    ensures a * r == a + a * (r - 1)
  {
  }

  /** The bytes kept from a point where a frame begins: the frame, or what there is of it. */
  lemma {:induction false} KeepFrame(a: nat, ks: seq<nat>, s: seq<Byte>, q: nat, n: nat)
    requires a > 0 && |ks| == |s| && q < |s| && n == Min(q + a, |s|)
    ensures Kept(a, ks[q..], Phase(0, 0), s[q..])
         == s[q..n] + Kept(a, ks[n..], if n < q + a then Phase(n - q, 0) else Phase(0, ks[n - 1]), s[n..])
  {
    CopyRun(a, ks[q..n], 0, s[q..n]);
    assert s[q..] == s[q..n] + s[n..] && ks[q..] == ks[q..n] + ks[n..];
    KeptCut(a, ks[q..n], ks[n..], Phase(0, 0), s[q..n], s[n..]);
    assert ks[q..n][n - q - 1] == ks[n - 1];
  }

  /** The bytes kept from a point where k bytes are to be skipped. */
  lemma {:induction false} SkipGap(a: nat, ks: seq<nat>, s: seq<Byte>, n: nat, k: nat)
    requires |ks| == |s| && n <= |s|
    ensures Kept(a, ks[n..], Phase(0, k), s[n..])
         == if n + k <= |s| then Kept(a, ks[n + k..], Phase(0, 0), s[n + k..]) else []
  {
    var m := Min(n + k, |s|);
    SkipRun(a, ks[n..m], k, s[n..m]);
    assert s[n..] == s[n..m] + s[m..] && ks[n..] == ks[n..m] + ks[m..];
    KeptCut(a, ks[n..m], ks[m..], Phase(0, k), s[n..m], s[m..]);
  }

  /** The same frames by the bytes skipped after each. */
  ghost function FramesBy(a: nat, ks: seq<nat>, s: seq<Byte>, q: nat): seq<Byte>
    requires a > 0 && |ks| == |s|
    decreases |s| - q
  {
    if q >= |s| then []
    else if q + a > |s| then s[q..]
    else s[q..q + a] + FramesBy(a, ks, s, q + a + ks[q + a - 1])
  }

  /** From one kept frame to the next. */
  lemma {:induction false} KeepThenSkip(a: nat, ks: seq<nat>, s: seq<Byte>, q: nat, n: nat, m: nat)
    requires a > 0 && |ks| == |s| && n == q + a <= |s| && m == n + ks[n - 1]
    ensures Kept(a, ks[q..], Phase(0, 0), s[q..])
         == s[q..n] + if m <= |s| then Kept(a, ks[m..], Phase(0, 0), s[m..]) else []
  {
    KeepFrame(a, ks, s, q, n);
    SkipGap(a, ks, s, n, ks[n - 1]);
  }

  /** The bytes kept from the first byte of a kept frame on. */
  lemma {:induction false} KeptFrom(a: nat, ks: seq<nat>, s: seq<Byte>, q: nat)
    requires a > 0 && |ks| == |s| && q <= |s|
    ensures Kept(a, ks[q..], Phase(0, 0), s[q..]) == FramesBy(a, ks, s, q)
    decreases |s| - q
  {
    if q + a <= |s| {
      var m := q + a + ks[q + a - 1];
      KeepThenSkip(a, ks, s, q, q + a, m);
      if m <= |s| {
        KeptFrom(a, ks, s, m);
      }
    } else if q < |s| {
      KeepFrame(a, ks, s, q, |s|);
    }
  }

  /** The skip size has not wrapped around. */
  predicate FitsByte(a: nat, r: nat) {
    r >= 1 && a * (r - 1) <= 255
  }

  lemma {:induction false} SkipFits(a: nat, rate: nat)
    requires FitsByte(a, rate)
    ensures a + SkipSize(a, rate) == a * rate
  {
    RateSkips(a, rate);
  }

  /** With skips that fit their byte, the rate says how many frames further. */
  lemma {:induction false} FramesByRate(a: nat, rs: seq<nat>, s: seq<Byte>, q: nat)
    requires a > 0 && |rs| == |s| && forall i :: 0 <= i < |rs| ==> rs[i] >= 1 && FitsByte(a, rs[i])
    ensures FramesBy(a, SkipSizes(a, rs), s, q) == Frames(a, rs, s, q)
    decreases |s| - q
  {
    if q + a <= |s| {
      var m := q + a + SkipSizes(a, rs)[q + a - 1];
      SkipFits(a, rs[q + a - 1]);
      FramesByRate(a, rs, s, m);
      FramesNext(a, rs, s, q, m);
    }
  }

  lemma {:induction false} FramesNext(a: nat, rs: seq<nat>, s: seq<Byte>, q: nat, m: nat)
    requires a > 0 && |rs| == |s| && (forall i :: 0 <= i < |rs| ==> rs[i] >= 1)
    requires q + a <= |s| && m == q + a * rs[q + a - 1]
    ensures Frames(a, rs, s, q) == s[q..q + a] + Frames(a, rs, s, m)
  {
  }

  /** Under any changes of rate at buffer boundaries, for any buffers, what is passed on is whole
      input frames in order, each as many frames after the one before as the rate in force when
      that was completed. */
  lemma {:induction false} PlaysFrames(a: nat, segs: seq<Segment>)
    requires a > 0 && Rated(segs) && forall i :: 0 <= i < |segs| ==> FitsByte(a, segs[i].rate)
    ensures forall i :: 0 <= i < |Rates(segs)| ==> Rates(segs)[i] >= 1
    ensures Played(a, segs, Phase(0, 0)) == Frames(a, Rates(segs), Stream(segs), 0)
  {
    PlayedIsKept(a, segs, Phase(0, 0));
    RatesBounded(a, segs);
    KeptFrom(a, SkipSizes(a, Rates(segs)), Stream(segs), 0);
    assert Stream(segs)[0..] == Stream(segs) && SkipSizes(a, Rates(segs))[0..] == SkipSizes(a, Rates(segs));
    FramesByRate(a, Rates(segs), Stream(segs), 0);
  }

  lemma {:induction false} RatesBounded(a: nat, segs: seq<Segment>)
    requires Rated(segs) && forall i :: 0 <= i < |segs| ==> FitsByte(a, segs[i].rate)
    ensures forall i :: 0 <= i < |Rates(segs)| ==> Rates(segs)[i] >= 1 && FitsByte(a, Rates(segs)[i])
  {
    if segs != [] {
      RatesBounded(a, segs[1..]);
    }
  }

  // ----- a constant rate -----

  /** The bytes of s, which begins at byte p of the stream, whose position q has q % m < a. */
  function Picked(a: nat, m: nat, s: seq<Byte>, p: nat): seq<Byte>
    requires m > 0
  {
    if s == [] then []
    else (if p % m < a then [s[0]] else []) + Picked(a, m, s[1..], p + 1)
  }

  /** The phase at byte p of a stream played at a constant rate. */
  function PhaseAt(a: nat, k: nat, p: nat): (ph: Phase)
    requires a > 0
  {
    var x := p % (a + k);
    if x < a then Phase(x, 0) else Phase(0, a + k - x)
  }

  lemma {:induction false} KeptIsPicked(a: nat, k: nat, s: seq<Byte>, p: nat)
    requires a > 0
    ensures Kept(a, Same(k, |s|), PhaseAt(a, k, p), s) == Picked(a, a + k, s, p)
    decreases |s|
  {
    if s != [] {
      NextMod(p, a + k);
      assert Same(k, |s|)[1..] == Same(k, |s| - 1);
      assert Tick(a, k, PhaseAt(a, k, p)) == PhaseAt(a, k, p + 1);
      KeptIsPicked(a, k, s[1..], p + 1);
    }
  }

  /** The bytes at the positions p with (p / a) % rate == 0: every rate-th frame. */
  function EveryNth(a: nat, rate: nat, s: seq<Byte>, p: nat): seq<Byte>
    requires a > 0 && rate > 0
  {
    if s == [] then []
    else (if (p / a) % rate == 0 then [s[0]] else []) + EveryNth(a, rate, s[1..], p + 1)
  }

  lemma {:induction false} FrameMod(a: nat, rate: nat, p: nat)
    requires a > 0 && rate > 0
    ensures a * rate > 0 && (p % (a * rate) < a <==> (p / a) % rate == 0)
  {
    var d, x := p / a, p % a;
    var e, y := d / rate, d % rate;
    assert p == d * a + x && d == e * rate + y;
    MulGap(0, rate, a);
    assert d * a == e * (a * rate) + y * a by {
      assert (e * rate + y) * a == e * rate * a + y * a;
      assert e * rate * a == e * (a * rate);
    }
    if y < rate {
      MulGap(y, rate, a);
    }
    ModOf(p, e, y * a + x, a * rate);
    if y > 0 {
      MulGap(0, y, a);
    }
  }

  lemma {:induction false} PickedIsEveryNth(a: nat, rate: nat, s: seq<Byte>, p: nat)
    requires a > 0 && rate > 0
    ensures a * rate > 0 && Picked(a, a * rate, s, p) == EveryNth(a, rate, s, p)
    decreases |s|
  {
    FrameMod(a, rate, p);
    if s != [] {
      PickedIsEveryNth(a, rate, s[1..], p + 1);
    }
  }

  lemma {:induction false} ConstantRates(segs: seq<Segment>, rate: nat)
    requires AllAt(segs, rate)
    ensures Rates(segs) == Same(rate, |Stream(segs)|)
  {
    if segs != [] {
      ConstantRates(segs[1..], rate);
    }
  }

  /** At a constant rate, for every cutting of the stream into buffers, the decoder passes on the
      bytes at positions p with p % (a + k) < a, for the skip count k that it can hold. */
  lemma {:induction false} PlaysPicked(a: nat, rate: nat, segs: seq<Segment>)
    requires a > 0 && rate >= 1 && AllAt(segs, rate)
    ensures Played(a, segs, Phase(0, 0)) == Picked(a, a + SkipSize(a, rate), Stream(segs), 0)
  {
    PlayedIsKept(a, segs, Phase(0, 0));
    ConstantRates(segs, rate);
    assert SkipSizes(a, Rates(segs)) == Same(SkipSize(a, rate), |Stream(segs)|);
    KeptIsPicked(a, SkipSize(a, rate), Stream(segs), 0);
  }

  /** Every segment has the rate. */
  ghost predicate AllAt(segs: seq<Segment>, rate: nat) {
    forall i :: 0 <= i < |segs| ==> segs[i].rate == rate
  }

  /** Every rate-th frame of the stream is passed on. */
  ghost predicate PlaysEveryNth(a: nat, rate: nat, segs: seq<Segment>)
    requires a > 0 && rate >= 1 && AllAt(segs, rate)
  {
    Played(a, segs, Phase(0, 0)) == EveryNth(a, rate, Stream(segs), 0)
  }

  lemma {:induction false} FitsPlays(a: nat, rate: nat, segs: seq<Segment>)
    requires 0 < a && FitsByte(a, rate) && AllAt(segs, rate)
    ensures PlaysEveryNth(a, rate, segs)
  {
    SkipFits(a, rate);
    FitsBy(a, rate, segs, a + SkipSize(a, rate));
  }

  lemma {:induction false} FitsBy(a: nat, rate: nat, segs: seq<Segment>, m: nat)
    requires 0 < a && rate >= 1 && AllAt(segs, rate) && m == a + SkipSize(a, rate) && m == a * rate
    ensures PlaysEveryNth(a, rate, segs)
  {
    PlaysPicked(a, rate, segs);
    PickedIsEveryNth(a, rate, Stream(segs), 0);
  }

  /** A skip count that does not fit: one stream in one buffer shows it. */
  lemma {:induction false} WrapShows(a: nat, rate: nat) returns (segs: seq<Segment>)
    requires 0 < a < 256 && rate >= 1 && !FitsByte(a, rate)
    ensures AllAt(segs, rate) && !PlaysEveryNth(a, rate, segs)
  {
    RateSkips(a, rate);
    var k := SkipSize(a, rate);
    var s: seq<Byte> := seq(a + k + 1, i => 0);
    segs := [Segment(rate, s)];
    assert segs[1..] == [] && s + [] == s && Stream(segs) == s;
    PlaysPicked(a, rate, segs);
    PickedIsEveryNth(a, rate, s, 0);
    PickedCount(a, a + k, s, 0);
    PickedCount(a, a * rate, s, 0);
  }

  /** Every rate-th frame is passed on, of every stream cut in every way, if and only if the skip
      count fits its uint8_t. */
  lemma {:induction false} EveryNthExact(a: nat, rate: nat)
    requires 0 < a < 256 && rate >= 1
    ensures FitsByte(a, rate) <==> forall segs: seq<Segment> :: AllAt(segs, rate) ==> PlaysEveryNth(a, rate, segs)
  {
    if FitsByte(a, rate) {
      forall segs: seq<Segment> | AllAt(segs, rate) ensures PlaysEveryNth(a, rate, segs) {
        FitsPlays(a, rate, segs);
      }
    } else {
      var segs := WrapShows(a, rate);
    }
  }

  /** How many bytes of a stream of more than a bytes and at most one period are picked. */
  lemma {:induction false} PickedCount(a: nat, m: nat, s: seq<Byte>, p: nat)
    requires a > 0 && a <= m && p + |s| <= m + 1
    ensures |Picked(a, m, s, p)| == (if p < a then Min(|s|, a - p) else 0) + (if p + |s| > m && p <= m then 1 else 0)
    decreases |s|
  {
    if s != [] {
      if p < m {
        ModOf(p, 0, p, m);
      } else {
        ModOf(p, 1, 0, m);
      }
      PickedCount(a, m, s[1..], p + 1);
    }
  }
}
