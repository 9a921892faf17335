/**
 Fast forward in the PCM decoder: of every run of frames one is kept, in place in the audio
 buffer, however the byte stream is cut into buffers.
 */
module PcmSubsample {
  import opened Basics

  /** Where the decoder is in the stream: bytes already copied of a frame, or bytes still to skip. */
  datatype Phase = Phase(partial: nat, skip: nat)

  ghost predicate InPhase(a: nat, ph: Phase) {
    ph.partial < a && (ph.skip > 0 ==> ph.partial == 0)
  }

  const NONE: nat := 0

  /** Bytes to skip after a frame of a bytes at the given rate; the decoder keeps the count in a uint8_t. */
  function SkipSize(a: nat, rate: nat): (k: nat)
    requires rate >= 1
    ensures k < 256
  {
    (a * (rate - 1)) % 256
  }

  // ----- the decoder, one byte at a time -----

  /** The phase after one more byte, when a frame completed now is followed by k bytes to skip. */
  function Tick(a: nat, k: nat, ph: Phase): Phase {
    if ph.skip > 0 then ph.(skip := ph.skip - 1)
    else if ph.partial + 1 == a then Phase(0, k)
    else Phase(ph.partial + 1, 0)
  }

  /** The bytes kept of a stream; ks gives the skip size in force at each byte. */
  function Kept(a: nat, ks: seq<nat>, ph: Phase, s: seq<Byte>): seq<Byte>
    requires |ks| == |s|
  {
    if s == [] then []
    else (if ph.skip > 0 then [] else [s[0]]) + Kept(a, ks[1..], Tick(a, ks[0], ph), s[1..])
  }

  function PhaseAfter(a: nat, ks: seq<nat>, ph: Phase): Phase {
    if ks == [] then ph else PhaseAfter(a, ks[1..], Tick(a, ks[0], ph))
  }

  function Same(k: nat, n: nat): (ks: seq<nat>)
    ensures |ks| == n
  {
    seq(n, i => k)
  }

  /** Cutting the stream in two changes nothing. */
  lemma {:induction false} KeptCut(a: nat, ks: seq<nat>, ls: seq<nat>, ph: Phase, s: seq<Byte>, t: seq<Byte>)
    requires |ks| == |s| && |ls| == |t|
    ensures Kept(a, ks + ls, ph, s + t) == Kept(a, ks, ph, s) + Kept(a, ls, PhaseAfter(a, ks, ph), t)
    ensures PhaseAfter(a, ks + ls, ph) == PhaseAfter(a, ls, PhaseAfter(a, ks, ph))
    decreases |s|
  {
    if s == [] {
      assert s + t == t && ks + ls == ls;
    } else {
      assert (s + t)[1..] == s[1..] + t && (ks + ls)[1..] == ks[1..] + ls;
      KeptCut(a, ks[1..], ls, Tick(a, ks[0], ph), s[1..], t);
    }
  }

  lemma {:induction false} PhaseStays(a: nat, ks: seq<nat>, ph: Phase)
    requires InPhase(a, ph)
    ensures InPhase(a, PhaseAfter(a, ks, ph))
    decreases |ks|
  {
    if ks != [] {
      PhaseStays(a, ks[1..], Tick(a, ks[0], ph));
    }
  }

  /** Bytes skipped in one go. */
  lemma {:induction false} SkipRun(a: nat, ks: seq<nat>, n: nat, s: seq<Byte>)
    requires |ks| == |s| <= n
    ensures Kept(a, ks, Phase(0, n), s) == [] && PhaseAfter(a, ks, Phase(0, n)) == Phase(0, n - |s|)
    decreases |s|
  {
    if s != [] {
      SkipRun(a, ks[1..], n - 1, s[1..]);
    }
  }

  /** Bytes of one frame copied in one go. */
  lemma {:induction false} CopyRun(a: nat, ks: seq<nat>, p: nat, s: seq<Byte>)
    requires |ks| == |s| && p < a && p + |s| <= a
    ensures Kept(a, ks, Phase(p, 0), s) == s
    ensures PhaseAfter(a, ks, Phase(p, 0)) == if p + |s| < a then Phase(p + |s|, 0) else Phase(0, ks[|s| - 1])
    decreases |s|
  {
    if s != [] {
      assert [s[0]] + s[1..] == s;
      if |s| > 1 {
        CopyRun(a, ks[1..], p + 1, s[1..]);
        assert ks[1..][|s| - 2] == ks[|s| - 1];
      } else {
        assert Kept(a, ks[1..], Tick(a, ks[0], Phase(p, 0)), s[1..]) == [];
      }
    }
  }

  /** What is left to do after the first j bytes, at a constant rate. */
  lemma {:induction false} Advance(a: nat, k: nat, ph: Phase, s: seq<Byte>, j: nat)
    requires j <= |s|
    ensures Kept(a, Same(k, |s|), ph, s)
         == Kept(a, Same(k, j), ph, s[..j]) + Kept(a, Same(k, |s| - j), PhaseAfter(a, Same(k, j), ph), s[j..])
    ensures PhaseAfter(a, Same(k, |s|), ph) == PhaseAfter(a, Same(k, |s| - j), PhaseAfter(a, Same(k, j), ph))
  {
    assert s == s[..j] + s[j..] && Same(k, |s|) == Same(k, j) + Same(k, |s| - j);
    KeptCut(a, Same(k, j), Same(k, |s| - j), ph, s[..j], s[j..]);
  }

  /** The next j bytes are all skipped, or are all part of one frame. */
  lemma {:induction false} AdvanceRun(a: nat, k: nat, ph: Phase, s: seq<Byte>, j: nat)
    requires InPhase(a, ph) && j <= |s|
    requires if ph.skip > 0 then j <= ph.skip else ph.partial + j <= a
    ensures var out := if ph.skip > 0 then [] else s[..j];
            var ph' := if ph.skip > 0 then Phase(0, ph.skip - j)
                       else if ph.partial + j < a then Phase(ph.partial + j, 0) else Phase(0, k);
            && Kept(a, Same(k, |s|), ph, s) == out + Kept(a, Same(k, |s| - j), ph', s[j..])
            && PhaseAfter(a, Same(k, |s|), ph) == PhaseAfter(a, Same(k, |s| - j), ph')
  {
    Advance(a, k, ph, s, j);
    if ph.skip > 0 {
      SkipRun(a, Same(k, j), ph.skip, s[..j]);
    } else {
      CopyRun(a, Same(k, j), ph.partial, s[..j]);
    }
  }

  /** The kept bytes of the data are front, followed by those still to be kept of rest. */
  ghost predicate Left(a: nat, k: nat, ph0: Phase, data: seq<Byte>, front: seq<Byte>, ph: Phase, rest: seq<Byte>) {
    && Kept(a, Same(k, |data|), ph0, data) == front + Kept(a, Same(k, |rest|), ph, rest)
    && PhaseAfter(a, Same(k, |data|), ph0) == PhaseAfter(a, Same(k, |rest|), ph)
  }

  lemma {:induction false} LeftSkip(a: nat, k: nat, ph0: Phase, data: seq<Byte>, front: seq<Byte>, n: nat, rest: seq<Byte>, j: nat)
    requires Left(a, k, ph0, data, front, Phase(0, n), rest) && a > 0 && 0 < j <= n && j <= |rest|
    ensures Left(a, k, ph0, data, front, Phase(0, n - j), rest[j..])
  {
    AdvanceRun(a, k, Phase(0, n), rest, j);
  }

  lemma {:induction false} LeftCopy(a: nat, k: nat, ph0: Phase, data: seq<Byte>, front: seq<Byte>, p: nat, rest: seq<Byte>, j: nat)
    requires Left(a, k, ph0, data, front, Phase(p, 0), rest) && p < a && p + j <= a && j <= |rest|
    ensures Left(a, k, ph0, data, front + rest[..j], if p + j < a then Phase(p + j, 0) else Phase(0, k), rest[j..])
  {
    AdvanceRun(a, k, Phase(p, 0), rest, j);
    var ph := if p + j < a then Phase(p + j, 0) else Phase(0, k);
    var tail := Kept(a, Same(k, |rest| - j), ph, rest[j..]);
    assert front + (rest[..j] + tail) == (front + rest[..j]) + tail;
  }

  lemma {:induction false} LeftNone(a: nat, k: nat, ph0: Phase, data: seq<Byte>, front: seq<Byte>, ph: Phase, rest: seq<Byte>)
    requires Left(a, k, ph0, data, front, ph, rest) && rest == []
    ensures Kept(a, Same(k, |data|), ph0, data) == front && PhaseAfter(a, Same(k, |data|), ph0) == ph
  {
  }

  // ----- buffers, and the decoder working on them in place -----

  class ApBuffer {
    const samp: array<Byte>
    var curbyte: nat
    var nbytes: nat

    ghost predicate Valid()
      reads this
    {
      curbyte <= nbytes <= samp.Length
    }

    /** The bytes the buffer holds for the next stage. */
    ghost function Data(): seq<Byte>
      requires Valid()
      reads this, samp
    {
      samp[curbyte..nbytes]
    }

    constructor (size: nat)
      ensures Valid() && fresh(samp) && samp.Length == size && Data() == []
    {
      samp := new Byte[size](i => 0);
      curbyte, nbytes := 0, 0;
    }

    /** A buffer that holds the data. */
    constructor Filled(data: seq<Byte>)
      ensures Valid() && fresh(samp) && Data() == data
    {
      samp := new Byte[|data|](i requires 0 <= i < |data| => data[i]);
      curbyte, nbytes := 0, |data|;
    }

    /** What the next stage takes from the buffer. */
    method Take() returns (data: seq<Byte>)
      requires Valid()
      ensures data == Data()
    {
      data := samp[curbyte..nbytes];
    }
  }

  class Decoder {
    var align: nat
    var subsample: nat
    var skip: nat
    var npartial: nat

    ghost predicate Valid()
      reads this
    {
      0 < align < 256 && subsample < 256 && skip < 256 && InPhase(align, Phase(npartial, skip))
    }

    constructor (a: nat)
      requires 0 < a < 256
      ensures Valid() && align == a && subsample == NONE && Phase(npartial, skip) == Phase(0, 0)
    {
      align, subsample, skip, npartial := a, NONE, 0, 0;
    }

    /** Fast forward starts and ends with a fresh phase; a change of rate keeps the phase. */
    method Configure(rate: nat)
      requires Valid() && rate < 256
      modifies this
      ensures Valid() && align == old(align) && subsample == rate
      ensures Phase(npartial, skip)
           == if (old(subsample) == NONE) == (rate == NONE) then old(Phase(npartial, skip)) else Phase(0, 0)
    {
      if subsample == NONE {
        if rate != NONE {
          npartial, skip, subsample := 0, 0, rate;
        }
      } else if rate == NONE {
        npartial, skip, subsample := 0, 0, NONE;
      } else if subsample != rate {
        subsample := rate;
      }
    }

    /** Copies n bytes of the buffer down from src to dest. */
    method CopyDown(samp: array<Byte>, src: nat, dest: nat, n: nat)
      requires dest <= src && src + n <= samp.Length
      modifies samp
      ensures samp[..dest + n] == old(samp[..dest] + samp[src..src + n])
      ensures samp[src + n..] == old(samp[src + n..])
    {
      var i := 0;
      while i < n
        invariant i <= n
        invariant samp[..dest + i] == old(samp[..dest] + samp[src..src + i])
        invariant samp[src + i..] == old(samp[src + i..])
      {
        assert samp[src + i] == old(samp[src + i]) by { assert samp[src + i] == samp[src + i..][0]; }
        samp[dest + i] := samp[src + i];
        assert samp[..dest + i + 1] == samp[..dest + i] + [samp[dest + i]];
        i := i + 1;
        assert samp[src + i..] == old(samp[src + i..]);
      }
    }

    /** The bytes before src are done, with the kept ones in front of dest. */
    ghost predicate Done(samp: array<Byte>, src: nat, end: nat, dest: nat, k: nat, data: seq<Byte>, ph: Phase)
      reads this, samp
    {
      && Valid() && dest <= src <= end <= samp.Length
      && Left(align, k, ph, data, samp[..dest], Phase(npartial, skip), samp[src..end])
    }

    /** Copies n bytes down, unless they are in place already. */
    method MoveDown(samp: array<Byte>, src: nat, end: nat, dest: nat, n: nat)
      requires dest <= src && src + n <= end <= samp.Length
      modifies samp
      ensures samp[..dest + n] == old(samp[..dest]) + old(samp[src..end])[..n]
      ensures samp[src + n..end] == old(samp[src..end])[n..]
    {
      ghost var rest := samp[src..end];
      assert samp[src..src + n] == rest[..n] && samp[src + n..end] == rest[n..];
      if dest < src {
        CopyDown(samp, src, dest, n);
        assert samp[src + n..end] == samp[src + n..][..end - src - n];
        assert old(samp[src + n..end]) == old(samp[src + n..])[..end - src - n];
      }
    }

    /** Copies the next n bytes, which belong to one frame. */
    method CopyFrame(samp: array<Byte>, src: nat, end: nat, dest: nat, n: nat, k: nat,
                     ghost data: seq<Byte>, ghost ph: Phase)
      requires Done(samp, src, end, dest, k, data, ph) && src + n <= end && k < 256
      requires skip == 0 && npartial + n <= align
      modifies this`skip, this`npartial, samp
      ensures Done(samp, src + n, end, dest + n, k, data, ph)
      ensures Phase(npartial, skip) == if old(npartial) + n < align then Phase(old(npartial) + n, 0) else Phase(0, k)
    {
      ghost var front, rest := samp[..dest], samp[src..end];
      LeftCopy(align, k, ph, data, front, npartial, rest, n);
      MoveDown(samp, src, end, dest, n);
      if npartial + n < align {
        npartial := npartial + n;
      } else {
        npartial, skip := 0, k;
      }
    }

    /** Skips the next n bytes. */
    method SkipBytes(samp: array<Byte>, src: nat, end: nat, dest: nat, n: nat, k: nat,
                     ghost data: seq<Byte>, ghost ph: Phase)
      requires Done(samp, src, end, dest, k, data, ph) && src + n <= end && 0 < n <= skip
      modifies this`skip
      ensures Done(samp, src + n, end, dest, k, data, ph) && skip == old(skip) - n
    {
      LeftSkip(align, k, ph, data, samp[..dest], skip, samp[src..end], n);
      assert samp[src + n..end] == samp[src..end][n..];
      skip := skip - n;
    }

    /** One run of bytes to skip, or one frame or what there is of it. */
    method Round(samp: array<Byte>, start: nat, end: nat, first: nat, k: nat, ghost data: seq<Byte>, ghost ph: Phase)
        returns (src: nat, dest: nat)
      requires Done(samp, start, end, first, k, data, ph) && npartial == 0 && start < end && k < 256
      modifies this`skip, this`npartial, samp
      ensures start < src && Done(samp, src, end, dest, k, data, ph) && (npartial == 0 || src == end)
    {
      if skip > 0 {
        var copysize := if skip < end - start then skip else end - start;
        SkipBytes(samp, start, end, first, copysize, k, data, ph);
        src, dest := start + copysize, first;
      } else {
        var copysize := if end - start < align then end - start else align;
        CopyFrame(samp, start, end, first, copysize, k, data, ph);
        src, dest := start + copysize, first + copysize;
      }
    }

    /** Works through the rest of the buffer. */
    method Drain(samp: array<Byte>, start: nat, end: nat, first: nat, k: nat, ghost data: seq<Byte>, ghost ph: Phase)
        returns (dest: nat)
      requires Done(samp, start, end, first, k, data, ph) && npartial == 0 && k < 256
      modifies this`skip, this`npartial, samp
      ensures Done(samp, end, end, dest, k, data, ph)
    {
      var src := start;
      dest := first;
      while src < end
        invariant Done(samp, src, end, dest, k, data, ph) && (npartial == 0 || src == end)
      {
        src, dest := Round(samp, src, end, dest, k, data, ph);
      }
    }

    /** One audio buffer, in place, with k bytes to skip after each frame. */
    method SubsampleBy(apb: ApBuffer, k: nat)
      requires Valid() && apb.Valid() && k < 256
      modifies this`skip, this`npartial, apb, apb.samp
      ensures Valid() && apb.Valid()
      ensures apb.Data() == Kept(align, Same(k, |old(apb.Data())|), old(Phase(npartial, skip)), old(apb.Data()))
      ensures Phase(npartial, skip) == PhaseAfter(align, Same(k, |old(apb.Data())|), old(Phase(npartial, skip)))
    {
      ghost var data, ph := apb.Data(), Phase(npartial, skip);
      var samp, src, end := apb.samp, apb.curbyte, apb.nbytes;
      var dest: nat := 0;
      if npartial > 0 {
        var srcsize := end - src;
        if npartial + srcsize < align {
          AdvanceRun(align, k, ph, data, srcsize);
          npartial := npartial + srcsize;
          return;
        }
        var copysize := align - npartial;
        CopyFrame(samp, src, end, dest, copysize, k, data, ph);
        src, dest := src + copysize, copysize;
      }
      dest := Drain(samp, src, end, dest, k, data, ph);
      LeftNone(align, k, ph, data, samp[..dest], Phase(npartial, skip), samp[end..end]);
      apb.curbyte := 0;
      apb.nbytes := dest;
    }

    /** One audio buffer, in place: what it holds afterwards are the kept bytes of what it held. */
    method Subsample(apb: ApBuffer)
      requires Valid() && apb.Valid()
      modifies this`skip, this`npartial, apb, apb.samp
      ensures Valid() && apb.Valid()
      ensures subsample == NONE ==>
                apb.Data() == old(apb.Data()) && Phase(npartial, skip) == old(Phase(npartial, skip))
      ensures subsample != NONE ==>
                var ks := Same(SkipSize(align, subsample), |old(apb.Data())|);
                && apb.Data() == Kept(align, ks, old(Phase(npartial, skip)), old(apb.Data()))
                && Phase(npartial, skip) == PhaseAfter(align, ks, old(Phase(npartial, skip)))
    {
      if subsample != NONE {
        SubsampleBy(apb, SkipSize(align, subsample));
      }
    }
  }
}
