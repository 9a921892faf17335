/**
 The WAV header: the RIFF and format chunks at fixed places, then a chain of further chunks that
 is followed to the data chunk. Lengths and positions are 32-bit and wrap around.
 */
module WavHeader {
  import opened Basics

  const TOP: nat := 0x1_0000_0000

  const RIFF: nat := 0x46464952
  const WAVE: nat := 0x45564157
  const FMT: nat := 0x20746d66
  const DATA: nat := 0x61746164

  /** The format values the decoder keeps. */
  datatype Format = Format(nchannels: nat, samprate: nat, byterate: nat, align: nat, bpsamp: nat)

  datatype Result = Ok(format: Format, offset: nat) | Invalid

  // ----- reading -----

  function Le16(s: seq<Byte>, p: nat): (r: nat)
    requires p + 2 <= |s|
    ensures r < 0x10000
  {
    var low: nat, high: nat := s[p], s[p + 1];
    low + high * 0x100
  }

  function Le32(s: seq<Byte>, p: nat): (r: nat)
    requires p + 4 <= |s|
    ensures r < TOP
  {
    var a: nat, b: nat, c: nat, d: nat := s[p], s[p + 1], s[p + 2], s[p + 3];
    a + b * 0x100 + c * 0x1_0000 + d * 0x100_0000
  }

  /** How the search for the data chunk goes on: it is found, given up, looks outside the buffer, or
      is still on its way after the steps allowed. */
  datatype Scan = Found(offset: nat) | Missing | Outside | Running

  /** The search; ret is the position just past the chunk header it looks at. */
  function ScanFrom(s: seq<Byte>, ret: nat, steps: nat): Scan
    decreases steps
  {
    if ret < 8 || ret > |s| then Outside
    else if Le32(s, ret - 8) == DATA then Found(ret)
    else
      var next := Next(s, ret);
      if next >= |s| then Missing
      else if steps == 0 then Running
      else ScanFrom(s, next, steps - 1)
  }

  /** The position just past the next chunk header, in 32 bits. */
  function Next(s: seq<Byte>, ret: nat): (r: nat)
    requires 8 <= ret <= |s|
    ensures ret + Le32(s, ret - 4) + 8 < TOP ==> r == ret + Le32(s, ret - 4) + 8
  {
    (ret + Le32(s, ret - 4) + 8) % TOP
  }

  /** The header fields that pcm_validwav and the decoder's own limits accept. */
  predicate ValidHeader(s: seq<Byte>)
    requires |s| >= 44
  {
    && Le32(s, 0) == RIFF && Le32(s, 8) == WAVE && Le32(s, 12) == FMT
    && Le32(s, 16) == 16 && Le16(s, 20) == 1
    && Le16(s, 22) < 256 && Le16(s, 32) < 256 && Le16(s, 34) < 256
    && (Le16(s, 34) == 8 || Le16(s, 34) == 16) && (Le16(s, 22) == 1 || Le16(s, 22) == 2)
  }

  function FormatOf(s: seq<Byte>): Format
    requires |s| >= 44
  {
    Format(Le16(s, 22), Le32(s, 24), Le32(s, 28), Le16(s, 32), Le16(s, 34))
  }

  /** No chunk on the way has a length that wraps the position around. */
  predicate NoWrap(s: seq<Byte>, ret: nat)
    requires 8 <= ret <= |s|
    decreases |s| - ret
  {
    Le32(s, ret - 8) == DATA
    || (ret + Le32(s, ret - 4) + 8 < TOP
        && (Next(s, ret) >= |s| || NoWrap(s, Next(s, ret))))
  }

  // ----- where the search comes to -----

  /** The header the search goes on to from one inside the buffer, if it goes on. */
  function Move(s: seq<Byte>, ret: nat): Option<nat>
    requires 8 <= ret <= |s|
  {
    if Le32(s, ret - 8) == DATA || Next(s, ret) >= |s| then None else Some(Next(s, ret))
  }

  predicate Inside(s: seq<Byte>, ret: nat) {
    8 <= ret <= |s|
  }

  /** The position after k moves, if the search makes as many. */
  function Place(s: seq<Byte>, ret: nat, k: nat): Option<nat>
    decreases k
  {
    if k == 0 then Some(ret)
    else if !Inside(s, ret) || Move(s, ret).None? then None
    else Place(s, Move(s, ret).value, k - 1)
  }

  lemma {:induction false} PlaceAdd(s: seq<Byte>, ret: nat, j: nat, k: nat)
    ensures Place(s, ret, j + k) == if Place(s, ret, j).Some? then Place(s, Place(s, ret, j).value, k) else None
    decreases j
  {
    if j > 0 && Inside(s, ret) && Move(s, ret).Some? {
      PlaceAdd(s, Move(s, ret).value, j - 1, k);
    }
  }

  /** A move on needs all the moves before it, from positions inside the buffer. */
  lemma {:induction false} PlaceBefore(s: seq<Byte>, ret: nat, j: nat, k: nat)
    requires j < k && Place(s, ret, k).Some?
    ensures Place(s, ret, j).Some? && Inside(s, Place(s, ret, j).value)
    decreases j
  {
    if j > 0 {
      PlaceBefore(s, Move(s, ret).value, j - 1, k - 1);
    }
  }

  /** The result of the search, by its last position. */
  lemma {:induction false} ScanByPlace(s: seq<Byte>, ret: nat, steps: nat)
    ensures var r := ScanFrom(s, ret, steps);
            && (r == Running <==> Place(s, ret, steps + 1).Some?)
            && (r == Outside <==> exists k :: 0 <= k <= steps && Leaves(s, ret, k))
    decreases steps
  {
    var r := ScanFrom(s, ret, steps);
    if !Inside(s, ret) {
      assert Leaves(s, ret, 0);
    } else if Move(s, ret).None? {
      assert forall k :: Leaves(s, ret, k) ==> k == 0;
    } else {
      var next := Move(s, ret).value;
      if steps == 0 {
        assert Place(s, next, 0) == Some(next);
        assert !Leaves(s, ret, 0);
      } else {
        ScanByPlace(s, next, steps - 1);
        if r == Outside {
          var k :| 0 <= k <= steps - 1 && Leaves(s, next, k);
          assert Leaves(s, ret, k + 1);
        }
        forall k | 0 <= k <= steps && Leaves(s, ret, k) ensures r == Outside {
          assert k > 0 && Leaves(s, next, k - 1);
        }
      }
    }
  }

  /** The search comes to a position outside the buffer after k moves. */
  predicate Leaves(s: seq<Byte>, ret: nat, k: nat) {
    Place(s, ret, k).Some? && !Inside(s, Place(s, ret, k).value)
  }

  /** The search comes to the same header after i and after j moves. */
  predicate Repeats(s: seq<Byte>, ret: nat, i: nat, j: nat) {
    i < j && Place(s, ret, i).Some? && Place(s, ret, i) == Place(s, ret, j)
  }

  /** What comes back to its place goes on for ever. */
  lemma {:induction false} Cycles(s: seq<Byte>, p: nat, d: nat, k: nat)
    requires d > 0 && Place(s, p, d) == Some(p)
    ensures Place(s, p, k).Some?
    decreases k
  {
    if k < d {
      PlaceBefore(s, p, k, d);
    } else {
      PlaceAdd(s, p, d, k - d);
      Cycles(s, p, d, k - d);
    }
  }

  lemma {:induction false} RepeatsGoOn(s: seq<Byte>, ret: nat, i: nat, j: nat, k: nat)
    requires Repeats(s, ret, i, j)
    ensures Place(s, ret, k).Some?
  {
    var p := Place(s, ret, i).value;
    PlaceAdd(s, ret, i, j - i);
    if k <= i {
      if k < i {
        PlaceBefore(s, ret, k, i);
      }
    } else {
      Cycles(s, p, j - i, k - i);
      PlaceAdd(s, ret, i, k - i);
    }
  }

  /** More moves than there are positions bring one back. */
  lemma {:induction false} MustRepeat(s: seq<Byte>, ret: nat) returns (i: nat, j: nat)
    requires Place(s, ret, |s| + 1).Some?
    ensures j <= |s| && Repeats(s, ret, i, j)
  {
    var f := seq(|s| + 1, k requires 0 <= k < |s| + 1 => (PlaceBefore(s, ret, k, |s| + 1); Place(s, ret, k).value));
    forall k | 0 <= k < |f| ensures Place(s, ret, k) == Some(f[k]) && 8 <= f[k] <= |s| {
      PlaceBefore(s, ret, k, |s| + 1);
    }
    var g := seq(|f|, k requires 0 <= k < |f| => f[k] - 8);
    forall k | 0 <= k < |g| ensures 0 <= g[k] < |s| - 7 {
      assert g[k] == f[k] - 8;
    }
    assert 8 <= f[0] <= |s|;
    i, j := Pigeons(g, |s| - 7);
    PlaceBefore(s, ret, i, |s| + 1);
    PlaceBefore(s, ret, j, |s| + 1);
    assert g[i] == f[i] - 8 && g[j] == f[j] - 8;
  }

  ghost predicate RunsForever(s: seq<Byte>, ret: nat) {
    forall steps: nat :: ScanFrom(s, ret, steps) == Running
  }

  ghost predicate ReadsOutside(s: seq<Byte>, ret: nat) {
    exists steps: nat :: ScanFrom(s, ret, steps) == Outside
  }

  /** The search runs for ever if and only if it comes to one header twice, within as many moves as the
      buffer has bytes. */
  lemma {:induction false} RunsForeverExact(s: seq<Byte>, ret: nat)
    ensures RunsForever(s, ret) <==> exists i: nat, j: nat :: j <= |s| && Repeats(s, ret, i, j)
  {
    if i: nat, j: nat :| j <= |s| && Repeats(s, ret, i, j) {
      forall steps: nat ensures ScanFrom(s, ret, steps) == Running {
        RepeatsGoOn(s, ret, i, j, steps + 1);
        ScanByPlace(s, ret, steps);
      }
    } else if RunsForever(s, ret) {
      assert ScanFrom(s, ret, |s|) == Running;
      ScanByPlace(s, ret, |s|);
      var i, j := MustRepeat(s, ret);
    }
  }

  /** It reads outside the buffer if and only if it comes to a position outside, within as many moves. */
  lemma {:induction false} LeavesExact(s: seq<Byte>, ret: nat)
    ensures ReadsOutside(s, ret) <==> exists k: nat :: k <= |s| && Leaves(s, ret, k)
  {
    if k: nat :| k <= |s| && Leaves(s, ret, k) {
      ScanByPlace(s, ret, k);
      assert ScanFrom(s, ret, k) == Outside;
    } else if ReadsOutside(s, ret) {
      var steps: nat :| ScanFrom(s, ret, steps) == Outside;
      ScanByPlace(s, ret, steps);
      var k: nat :| k <= steps && Leaves(s, ret, k);
      PlaceTo(s, ret, |s| + 1, k);
      var i, j := MustRepeat(s, ret);
      RepeatsGoOn(s, ret, i, j, k + 1);
      PlaceBefore(s, ret, k, k + 1);
    }
  }

  lemma {:induction false} PlaceTo(s: seq<Byte>, ret: nat, j: nat, k: nat)
    requires j <= k && Place(s, ret, k).Some?
    ensures Place(s, ret, j).Some?
  {
    if j < k {
      PlaceBefore(s, ret, j, k);
    }
  }

  /** The search ends inside the buffer: it comes to no header twice and to none outside. */
  predicate Ends(s: seq<Byte>, ret: nat) {
    && (forall i: nat, j: nat | i < j <= |s| :: !Repeats(s, ret, i, j))
    && (forall k: nat | k <= |s| :: !Leaves(s, ret, k))
  }

  /** It finds the data chunk or gives up if and only if it ends so, and then within as many steps as the
      buffer has bytes. */
  lemma {:induction false} EndsExact(s: seq<Byte>, ret: nat)
    ensures (exists steps: nat :: ScanFrom(s, ret, steps).Found? || ScanFrom(s, ret, steps) == Missing) <==> Ends(s, ret)
    ensures Ends(s, ret) ==> ScanFrom(s, ret, |s|).Found? || ScanFrom(s, ret, |s|) == Missing
  {
    if Ends(s, ret) {
      ScanByPlace(s, ret, |s|);
      if ScanFrom(s, ret, |s|) == Running {
        var i, j := MustRepeat(s, ret);
        assert false;
      }
    } else if exists steps: nat :: ScanFrom(s, ret, steps).Found? || ScanFrom(s, ret, steps) == Missing {
      var steps: nat :| ScanFrom(s, ret, steps).Found? || ScanFrom(s, ret, steps) == Missing;
      NotEnds(s, ret, steps);
      assert false;
    }
  }

  lemma {:induction false} NotEnds(s: seq<Byte>, ret: nat, steps: nat)
    requires !Ends(s, ret)
    ensures ScanFrom(s, ret, steps) == Running || ScanFrom(s, ret, steps) == Outside
  {
    ScanByPlace(s, ret, steps);
    if i: nat, j: nat :| i < j <= |s| && Repeats(s, ret, i, j) {
      RepeatsGoOn(s, ret, i, j, steps + 1);
    } else {
      var k: nat :| k <= |s| && Leaves(s, ret, k);
      if k > steps {
        PlaceTo(s, ret, steps + 1, k);
      }
    }
  }

  /** Two chunks between which the search goes to and fro for ever, though none of them is of length
      2^32 - 8. */
  lemma {:induction false} ToAndFro(s: seq<Byte>, steps: nat)
    requires 52 < |s| < TOP && Le32(s, 36) != DATA && Le32(s, 40) == 0
    requires Le32(s, 44) != DATA && Le32(s, 48) == TOP - 16
    ensures Repeats(s, 44, 0, 2) && ScanFrom(s, 44, steps) == Running
  {
    assert Next(s, 44) == 52 && Next(s, 52) == 44;
    assert Place(s, 52, 1) == Some(44) by {
      assert Place(s, 44, 0) == Some(44);
    }
    assert Place(s, 44, 2) == Place(s, 52, 1);
    RepeatsGoOn(s, 44, 0, 2, steps + 1);
    ScanByPlace(s, 44, steps);
  }

  /** A chunk of length 2^32 - 8 on which the search stands still for ever. */
  lemma {:induction false} StandsStill(s: seq<Byte>, steps: nat)
    requires 44 < |s| < TOP && Le32(s, 36) != DATA && Le32(s, 40) == TOP - 8
    ensures Repeats(s, 44, 0, 1) && ScanFrom(s, 44, steps) == Running
  {
    assert Next(s, 44) == 44;
    assert Place(s, 44, 1) == Place(s, 44, 0);
    RepeatsGoOn(s, 44, 0, 1, steps + 1);
    ScanByPlace(s, 44, steps);
  }

  /** A chunk that takes the search in front of the buffer. */
  lemma {:induction false} ReadsBefore(s: seq<Byte>)
    requires 44 <= |s| < TOP && Le32(s, 36) != DATA && TOP - 52 <= Le32(s, 40) < TOP - 44
    ensures Leaves(s, 44, 1) && ScanFrom(s, 44, 1) == Outside
  {
    var next := Next(s, 44);
    assert next < 8;
    assert Place(s, 44, 1) == Place(s, next, 0);
  }

  /** A search without wrap-around ends. */
  lemma {:induction false} NoWrapEnds(s: seq<Byte>, ret: nat)
    requires 8 <= ret <= |s| && NoWrap(s, ret)
    ensures Ends(s, ret)
  {
    NoWrapScans(s, ret, |s|);
    EndsExact(s, ret);
  }

  lemma {:induction false} NoWrapScans(s: seq<Byte>, ret: nat, steps: nat)
    requires 8 <= ret <= |s| && NoWrap(s, ret) && steps >= |s| - ret
    ensures ScanFrom(s, ret, steps).Found? || ScanFrom(s, ret, steps) == Missing
    decreases steps
  {
    if Le32(s, ret - 8) != DATA && Next(s, ret) < |s| {
      NoWrapScans(s, Next(s, ret), steps - 1);
    }
  }

  /** pcm_parsewav, on every header on which its search ends inside the buffer. */
  method ParseWav(s: seq<Byte>) returns (r: Result)
    requires |s| >= 44 ==> Ends(s, 44)
    ensures r == Parse(s)
    ensures r.Ok? ==> |s| >= 44 && HeaderBytes(s) && AtData(s, r.offset)
  {
    if |s| < 44 {
      return Invalid;
    }
    ValidIsBytes(s);
    EndsExact(s, 44);
    var ret := 44;
    ghost var k := 0;
    while Le32(s, ret - 8) != DATA
      invariant k <= |s| && 8 <= ret <= |s|
      invariant ScanFrom(s, 44, |s|) == ScanFrom(s, ret, |s| - k)
      decreases |s| - k
    {
      var next := Next(s, ret);
      if next >= |s| {
        return Invalid;
      }
      ret, k := next, k + 1;
    }
    Le32Is(s, ret - 8, 0x64, 0x61, 0x74, 0x61);
    if !ValidHeader(s) {
      return Invalid;
    }
    r := Ok(FormatOf(s), ret);
  }

  function Parse(s: seq<Byte>): Result {
    if |s| < 44 then Invalid
    else
      var f := ScanFrom(s, 44, |s|);
      if f.Found? && ValidHeader(s) then Ok(FormatOf(s), f.offset) else Invalid
  }

  /** The bytes of a number are its only ones. */
  lemma {:induction false} Le16Is(s: seq<Byte>, p: nat, a: Byte, b: Byte)
    requires p + 2 <= |s|
    ensures Le16(s, p) == a + b * 0x100 <==> s[p..p + 2] == [a, b]
  {
    assert s[p..p + 2] == [s[p], s[p + 1]];
  }

  lemma {:induction false} Le32Is(s: seq<Byte>, p: nat, a: Byte, b: Byte, c: Byte, d: Byte)
    requires p + 4 <= |s|
    ensures Le32(s, p) == a + b * 0x100 + c * 0x1_0000 + d * 0x100_0000 <==> s[p..p + 4] == [a, b, c, d]
  {
    assert s[p..p + 4] == [s[p], s[p + 1], s[p + 2], s[p + 3]];
    if Le32(s, p) == a + b * 0x100 + c * 0x1_0000 + d * 0x100_0000 {
      Digits(s[p], s[p + 1], s[p + 2], s[p + 3], a, b, c, d);
    }
  }

  lemma {:induction false} Digits(a: nat, b: nat, c: nat, d: nat, e: nat, f: nat, g: nat, h: nat)
    requires a < 256 && b < 256 && c < 256 && d < 256 && e < 256 && f < 256 && g < 256 && h < 256
    requires a + b * 0x100 + c * 0x1_0000 + d * 0x100_0000 == e + f * 0x100 + g * 0x1_0000 + h * 0x100_0000
    ensures a == e && b == f && c == g && d == h
  {
    LowByte(a, b + c * 0x100 + d * 0x1_0000, e, f + g * 0x100 + h * 0x1_0000);
    LowByte(b, c + d * 0x100, f, g + h * 0x100);
    LowByte(c, d, g, h);
  }

  lemma {:induction false} LowByte(a: nat, x: nat, b: nat, y: nat)
    requires a < 256 && b < 256 && a + x * 0x100 == b + y * 0x100
    ensures a == b && x == y
  {
  }

  /** The bytes of a header that is accepted: RIFF, WAVE and "fmt ", 16 bytes of format, PCM, one channel or
      two, an alignment of one byte, and 8 or 16 bits. */
  ghost predicate HeaderBytes(s: seq<Byte>)
    requires |s| >= 44
  {
    && s[0..4] == [0x52, 0x49, 0x46, 0x46] && s[8..12] == [0x57, 0x41, 0x56, 0x45] && s[12..16] == [0x66, 0x6d, 0x74, 0x20]
    && s[16..20] == [16, 0, 0, 0] && s[20..22] == [1, 0]
    && (s[22] == 1 || s[22] == 2) && s[23] == 0 && s[33] == 0 && (s[34] == 8 || s[34] == 16) && s[35] == 0
  }

  lemma {:induction false} ValidIsBytes(s: seq<Byte>)
    requires |s| >= 44
    ensures ValidHeader(s) <==> HeaderBytes(s)
  {
    Le32Is(s, 0, 0x52, 0x49, 0x46, 0x46);
    Le32Is(s, 8, 0x57, 0x41, 0x56, 0x45);
    Le32Is(s, 12, 0x66, 0x6d, 0x74, 0x20);
    Le32Is(s, 16, 16, 0, 0, 0);
    Le16Is(s, 20, 1, 0);
  }

  /** A chunk header with the name "data" just before the position. */
  ghost predicate AtData(s: seq<Byte>, ret: nat) {
    8 <= ret <= |s| && s[ret - 8..ret - 4] == [0x64, 0x61, 0x74, 0x61]
  }

  /** The search finds a header with that name, the first it comes to. */
  lemma {:induction false} FindsData(s: seq<Byte>, ret: nat, steps: nat, offset: nat)
    ensures ScanFrom(s, ret, steps) == Found(offset)
       <==> exists k: nat :: k <= steps && Place(s, ret, k) == Some(offset) && AtData(s, offset)
    decreases steps
  {
    if 8 <= ret <= |s| {
      Le32Is(s, ret - 8, 0x64, 0x61, 0x74, 0x61);
    }
    if ScanFrom(s, ret, steps) == Found(offset) {
      var k := FoundAt(s, ret, steps, offset);
    }
    if k: nat :| k <= steps && Place(s, ret, k) == Some(offset) && AtData(s, offset) {
      DataFound(s, ret, steps, offset, k);
    }
  }

  lemma {:induction false} FoundAt(s: seq<Byte>, ret: nat, steps: nat, offset: nat) returns (k: nat)
    requires ScanFrom(s, ret, steps) == Found(offset)
    ensures k <= steps && Place(s, ret, k) == Some(offset) && AtData(s, offset)
    decreases steps
  {
    Le32Is(s, ret - 8, 0x64, 0x61, 0x74, 0x61);
    k := 0;
    if Le32(s, ret - 8) != DATA {
      k := FoundAt(s, Next(s, ret), steps - 1, offset);
      k := k + 1;
    }
  }

  lemma {:induction false} DataFound(s: seq<Byte>, ret: nat, steps: nat, offset: nat, k: nat)
    requires k <= steps && Place(s, ret, k) == Some(offset) && AtData(s, offset)
    ensures ScanFrom(s, ret, steps) == Found(offset)
    decreases k
  {
    if k == 0 {
      Le32Is(s, ret - 8, 0x64, 0x61, 0x74, 0x61);
    } else {
      DataFound(s, Move(s, ret).value, steps - 1, offset, k - 1);
    }
  }

  /** A header is accepted if and only if the search comes to a chunk named "data" and its bytes are these; the
      format is then read from them, and the position is just behind that chunk's header. */
  lemma {:induction false} ParseExact(s: seq<Byte>, offset: nat)
    ensures Parse(s).Ok? && Parse(s).offset == offset <==>
              |s| >= 44 && HeaderBytes(s) && exists k: nat :: k <= |s| && Place(s, 44, k) == Some(offset) && AtData(s, offset)
    ensures Parse(s).Ok? ==>
              && |s| >= 44 && Parse(s).format.nchannels == s[22] && Parse(s).format.align == s[32] && Parse(s).format.bpsamp == s[34]
              && Parse(s).format.samprate == Le32(s, 24) && Parse(s).format.byterate == Le32(s, 28)
  {
    if |s| >= 44 {
      ValidIsBytes(s);
      FindsData(s, 44, |s|, offset);
    }
  }

  // ----- writing -----

  function Put16(n: nat): (s: seq<Byte>)
    requires n < 0x10000
    ensures |s| == 2
  {
    [n % 0x100, n / 0x100]
  }

  function Put32(n: nat): (s: seq<Byte>)
    requires n < TOP
    ensures |s| == 4
  {
    Put16(n % 0x1_0000) + Put16(n / 0x1_0000)
  }

  /** A chunk other than the data chunk. */
  datatype Chunk = Chunk(id: nat, body: seq<Byte>)

  ghost predicate Skippable(c: Chunk) {
    c.id < TOP && c.id != DATA && |c.body| < TOP
  }

  ghost predicate AllSkippable(cs: seq<Chunk>) {
    forall i :: 0 <= i < |cs| ==> Skippable(cs[i])
  }

  ghost predicate AllEven(cs: seq<Chunk>) {
    forall i :: 0 <= i < |cs| ==> |cs[i].body| % 2 == 0
  }

  /** Chunks are padded to an even length. */
  function Pad(body: seq<Byte>): (s: seq<Byte>)
    ensures |s| == |body| % 2
  {
    if |body| % 2 == 0 then [] else [0]
  }

  function PutChunk(id: nat, body: seq<Byte>): (s: seq<Byte>)
    requires id < TOP && |body| < TOP
    ensures |s| == 8 + |body| + |Pad(body)|
  {
    Put32(id) + Put32(|body|) + body + Pad(body)
  }

  ghost function PutAll(cs: seq<Chunk>): seq<Byte>
    requires AllSkippable(cs)
  {
    if cs == [] then [] else PutChunk(cs[0].id, cs[0].body) + PutAll(cs[1..])
  }

  ghost predicate Supported(f: Format) {
    && (f.bpsamp == 8 || f.bpsamp == 16) && (f.nchannels == 1 || f.nchannels == 2)
    && f.align < 256 && f.samprate < TOP && f.byterate < TOP
  }

  /** The RIFF chunk header and the format chunk. */
  function PutHeader(f: Format, size: nat): (s: seq<Byte>)
    requires f.nchannels < 0x10000 && f.align < 0x10000 && f.bpsamp < 0x10000 && f.samprate < TOP && f.byterate < TOP
    requires size < TOP
    ensures |s| == 36
  {
    Put32(RIFF) + Put32(size) + Put32(WAVE) + Put32(FMT) + Put32(16) + Put16(1)
    + Put16(f.nchannels) + Put32(f.samprate) + Put32(f.byterate) + Put16(f.align) + Put16(f.bpsamp)
  }

  ghost function PutWav(f: Format, size: nat, cs: seq<Chunk>, payload: seq<Byte>): (s: seq<Byte>)
    requires Supported(f) && size < TOP && AllSkippable(cs) && |payload| < TOP
    ensures |s| == 36 + |PutAll(cs)| + 8 + |payload| + |Pad(payload)|
  {
    PutHeader(f, size) + (PutAll(cs) + PutChunk(DATA, payload))
  }

  // ----- what is written is read back -----

  lemma {:induction false} Le16At(s: seq<Byte>, p: nat, n: nat)
    requires n < 0x10000 && p + 2 <= |s| && s[p..p + 2] == Put16(n)
    ensures Le16(s, p) == n
  {
    assert s[p] == s[p..p + 2][0] && s[p + 1] == s[p..p + 2][1];
  }

  lemma {:induction false} Le32At(s: seq<Byte>, p: nat, n: nat)
    requires n < TOP && p + 4 <= |s| && s[p..p + 4] == Put32(n)
    ensures Le32(s, p) == n
  {
    assert s[p..p + 2] == s[p..p + 4][..2] && s[p + 2..p + 4] == s[p..p + 4][2..];
    Le16At(s, p, n % 0x1_0000);
    Le16At(s, p + 2, n / 0x1_0000);
  }

  /** The id and the length of a chunk that stands at p. */
  lemma {:induction false} ChunkAt(s: seq<Byte>, p: nat, id: nat, body: seq<Byte>, rest: seq<Byte>)
    requires id < TOP && |body| < TOP && p <= |s| && s[p..] == PutChunk(id, body) + rest
    ensures p + 8 <= |s| && Le32(s, p) == id && Le32(s, p + 4) == |body|
    ensures s[p + 8 + |body| + |Pad(body)|..] == rest
  {
    var t := s[p..];
    assert t[..4] == Put32(id) && t[4..8] == Put32(|body|);
    assert s[p..p + 4] == t[..4] && s[p + 4..p + 8] == t[4..8];
    Le32At(s, p, id);
    Le32At(s, p + 4, |body|);
    assert t[|PutChunk(id, body)|..] == rest;
  }

  /** One step of the search over a chunk that does not wrap it around. */
  lemma {:induction false} Passes(s: seq<Byte>, ret: nat, length: nat, steps: nat)
    requires 8 <= ret <= |s| && Le32(s, ret - 8) != DATA && Le32(s, ret - 4) == length
    requires ret + length + 8 < |s| ==> steps > 0 && NoWrap(s, ret + length + 8)
    requires ret + length + 8 < TOP
    ensures NoWrap(s, ret)
    ensures ScanFrom(s, ret, steps)
         == if ret + length + 8 < |s| then ScanFrom(s, ret + length + 8, steps - 1) else Missing
  {
  }

  /** The first chunk of several, and what follows it. */
  lemma {:induction false} FirstChunk(s: seq<Byte>, p: nat, cs: seq<Chunk>, tail: seq<Byte>)
    requires AllSkippable(cs) && cs != [] && |cs[0].body| % 2 == 0 && p <= |s| && s[p..] == PutAll(cs) + tail
    ensures p + 8 <= |s| && Le32(s, p) == cs[0].id && Le32(s, p + 4) == |cs[0].body|
    ensures p + 8 + |cs[0].body| <= |s| && s[p + 8 + |cs[0].body|..] == PutAll(cs[1..]) + tail
    ensures |PutAll(cs)| == 8 + |cs[0].body| + |PutAll(cs[1..])|
  {
    var c, rest := cs[0], cs[1..];
    Assoc(PutChunk(c.id, c.body), PutAll(rest), tail);
    ChunkAt(s, p, c.id, c.body, PutAll(rest) + tail);
  }

  /** The chunk headers of cs stand in s one after the other, from p to q. */
  ghost predicate Chain(s: seq<Byte>, p: nat, cs: seq<Chunk>, q: nat)
    decreases |cs|
  {
    if cs == [] then p == q
    else
      && p + 8 <= |s| && Le32(s, p) == cs[0].id && Le32(s, p + 4) == |cs[0].body|
      && Chain(s, p + 8 + |cs[0].body|, cs[1..], q)
  }

  lemma {:induction false} Chained(s: seq<Byte>, p: nat, cs: seq<Chunk>, tail: seq<Byte>)
    requires AllSkippable(cs) && AllEven(cs) && p <= |s| && s[p..] == PutAll(cs) + tail
    ensures Chain(s, p, cs, |s| - |tail|)
    decreases |cs|
  {
    if cs != [] {
      FirstChunk(s, p, cs, tail);
      Chained(s, p + 8 + |cs[0].body|, cs[1..], tail);
    }
  }

  lemma {:induction false} ChainOrder(s: seq<Byte>, p: nat, cs: seq<Chunk>, q: nat)
    requires Chain(s, p, cs, q)
    ensures p + 8 * |cs| <= q
    decreases |cs|
  {
    if cs != [] {
      ChainOrder(s, p + 8 + |cs[0].body|, cs[1..], q);
    }
  }

  /** The search passes a chain of chunks, and goes on at the header after it if a byte follows that. */
  lemma {:induction false} ScanPasses(s: seq<Byte>, ret: nat, cs: seq<Chunk>, q: nat, steps: nat)
    requires AllSkippable(cs) && 8 <= ret && |s| < TOP && steps >= |s| - ret
    requires Chain(s, ret - 8, cs, q) && q + 8 <= |s|
    ensures ret <= |s| && |cs| <= |s| - ret
    ensures q + 8 == |s| && cs != [] ==> NoWrap(s, ret) && ScanFrom(s, ret, steps) == Missing
    ensures q + 8 < |s| && NoWrap(s, q + 8)
        ==> NoWrap(s, ret) && ScanFrom(s, ret, steps) == ScanFrom(s, q + 8, steps - |cs|)
    decreases |cs|
  {
    ChainOrder(s, ret - 8, cs, q);
    if cs != [] {
      var next, rest := ret + |cs[0].body| + 8, cs[1..];
      assert Skippable(cs[0]);
      ChainOrder(s, next - 8, rest, q);
      if next < |s| {
        ScanPasses(s, next, rest, q, steps - 1);
      }
      if next == |s| || NoWrap(s, next) {
        Passes(s, ret, |cs[0].body|, steps);
      }
    }
  }

  /** The fixed part of the header. */
  lemma {:induction false} HeaderFields(s: seq<Byte>, f: Format, size: nat)
    requires Supported(f) && size < TOP && |s| >= 44 && s[..36] == PutHeader(f, size)
    ensures ValidHeader(s) && FormatOf(s) == f
  {
    HeaderParts(s[..36], Put32(RIFF), Put32(size), Put32(WAVE), Put32(FMT), Put32(16), Put16(1), Put16(f.nchannels),
                Put32(f.samprate), Put32(f.byterate), Put16(f.align), Put16(f.bpsamp));
    HeaderReads(s, f);
  }

  lemma {:induction false} HeaderParts(h: seq<Byte>, riff: seq<Byte>, size: seq<Byte>, wave: seq<Byte>, fmt: seq<Byte>,
                                       len: seq<Byte>, kind: seq<Byte>, channels: seq<Byte>, samprate: seq<Byte>,
                                       byterate: seq<Byte>, align: seq<Byte>, bits: seq<Byte>)
    requires |riff| == |size| == |wave| == |fmt| == |len| == |samprate| == |byterate| == 4
    requires |kind| == |channels| == |align| == |bits| == 2
    requires h == riff + size + wave + fmt + len + kind + channels + samprate + byterate + align + bits
    ensures h[0..4] == riff && h[8..12] == wave && h[12..16] == fmt && h[16..20] == len && h[20..22] == kind
    ensures h[22..24] == channels && h[24..28] == samprate && h[28..32] == byterate && h[32..34] == align && h[34..36] == bits
  {
    var a := riff + size + wave + fmt + len;
    var b := a + kind + channels + samprate;
    LastParts(h, b, byterate, align, bits);
    LastParts(h[..28], a, kind, channels, samprate);
    LastParts(h[..28][..20], riff + size, wave, fmt, len);
    assert h[..28][..20][..8] == riff + size;
    forall i, j, k | 0 <= i <= j <= k <= |h| ensures h[..k][i..j] == h[i..j] {
    }
    forall i, j | 0 <= i <= j <= 20 ensures h[..28][..20][i..j] == h[i..j] {
    }
    assert h[0..4] == (riff + size)[0..4] == riff;
  }

  lemma {:induction false} LastParts(h: seq<Byte>, a: seq<Byte>, b: seq<Byte>, c: seq<Byte>, d: seq<Byte>)
    requires h == a + b + c + d
    ensures h[..|a|] == a && h[|a|..|a| + |b|] == b
    ensures h[|a| + |b|..|a| + |b| + |c|] == c && h[|a| + |b| + |c|..|h|] == d
  {
  }

  lemma {:induction false} HeaderReads(s: seq<Byte>, f: Format)
    requires Supported(f) && |s| >= 44
    requires var h := s[..36];
             && h[0..4] == Put32(RIFF) && h[8..12] == Put32(WAVE) && h[12..16] == Put32(FMT) && h[16..20] == Put32(16)
             && h[20..22] == Put16(1) && h[22..24] == Put16(f.nchannels) && h[24..28] == Put32(f.samprate)
             && h[28..32] == Put32(f.byterate) && h[32..34] == Put16(f.align) && h[34..36] == Put16(f.bpsamp)
    ensures ValidHeader(s) && FormatOf(s) == f
  {
    forall p, q | 0 <= p <= q <= 36 ensures s[..36][p..q] == s[p..q] {
    }
    Le32At(s, 0, RIFF);
    Le32At(s, 8, WAVE);
    Le32At(s, 12, FMT);
    Le32At(s, 16, 16);
    Le16At(s, 20, 1);
    Le16At(s, 22, f.nchannels);
    Le32At(s, 24, f.samprate);
    Le32At(s, 28, f.byterate);
    Le16At(s, 32, f.align);
    Le16At(s, 34, f.bpsamp);
  }

  /** A header with chunks of even length is read back, with the position just past the data chunk's own header, if and
      only if the data chunk comes first or has a payload. */
  lemma {:induction false} RoundTrip(f: Format, size: nat, cs: seq<Chunk>, payload: seq<Byte>)
    requires Supported(f) && size < TOP && AllSkippable(cs) && AllEven(cs) && |payload| < TOP
    requires |PutWav(f, size, cs, payload)| < TOP
    ensures var s := PutWav(f, size, cs, payload);
            && |s| >= 44 && NoWrap(s, 44)
            && Parse(s) == if cs == [] || payload != [] then Ok(f, 44 + |PutAll(cs)|) else Invalid
  {
    WavHeaderIs(f, size, cs, payload);
    WavChain(f, size, cs, payload);
    WavData(f, size, cs, payload);
    Parses(PutWav(f, size, cs, payload), f, cs, 36 + |PutAll(cs)|);
  }

  lemma {:induction false} WavHeaderIs(f: Format, size: nat, cs: seq<Chunk>, payload: seq<Byte>)
    requires Supported(f) && size < TOP && AllSkippable(cs) && |payload| < TOP
    ensures var s := PutWav(f, size, cs, payload); ValidHeader(s) && FormatOf(s) == f
  {
    var s := PutWav(f, size, cs, payload);
    WavSplits(s, PutHeader(f, size), PutAll(cs), PutChunk(DATA, payload));
    HeaderFields(s, f, size);
  }

  lemma {:induction false} WavChain(f: Format, size: nat, cs: seq<Chunk>, payload: seq<Byte>)
    requires Supported(f) && size < TOP && AllSkippable(cs) && AllEven(cs) && |payload| < TOP
    ensures Chain(PutWav(f, size, cs, payload), 36, cs, 36 + |PutAll(cs)|)
  {
    var s, data := PutWav(f, size, cs, payload), PutChunk(DATA, payload);
    WavSplits(s, PutHeader(f, size), PutAll(cs), data);
    Chained(s, 36, cs, data);
  }

  lemma {:induction false} WavData(f: Format, size: nat, cs: seq<Chunk>, payload: seq<Byte>)
    requires Supported(f) && size < TOP && AllSkippable(cs) && |payload| < TOP
    ensures Le32(PutWav(f, size, cs, payload), 36 + |PutAll(cs)|) == DATA
  {
    var s, data := PutWav(f, size, cs, payload), PutChunk(DATA, payload);
    WavSplits(s, PutHeader(f, size), PutAll(cs), data);
    ChunkAt(s, 36 + |PutAll(cs)|, DATA, payload, []);
  }

  lemma {:induction false} WavSplits(s: seq<Byte>, header: seq<Byte>, chunks: seq<Byte>, data: seq<Byte>)
    requires s == header + (chunks + data) && |header| == 36
    ensures s[..36] == header && s[36..] == chunks + data
    ensures s[|s| - |data|..] == data + []
  {
  }

  lemma {:induction false} Parses(s: seq<Byte>, f: Format, cs: seq<Chunk>, q: nat)
    requires 44 <= |s| < TOP && ValidHeader(s) && FormatOf(s) == f
    requires AllSkippable(cs) && Chain(s, 36, cs, q) && q + 8 <= |s| && Le32(s, q) == DATA
    ensures NoWrap(s, 44)
    ensures Parse(s) == if cs == [] || q + 8 < |s| then Ok(f, q + 8) else Invalid
  {
    ScanPasses(s, 44, cs, q, |s|);
  }

  lemma {:induction false} PutAllSnoc(cs: seq<Chunk>, c: Chunk)
    requires AllSkippable(cs) && Skippable(c)
    ensures AllSkippable(cs + [c]) && PutAll(cs + [c]) == PutAll(cs) + PutChunk(c.id, c.body)
    decreases |cs|
  {
    var put := PutChunk(c.id, c.body);
    if cs == [] {
      assert cs + [c] == [c] && [c][1..] == [] && put + [] == put == [] + put;
    } else {
      PutAllSnoc(cs[1..], c);
      assert (cs + [c])[1..] == cs[1..] + [c];
      Assoc(PutChunk(cs[0].id, cs[0].body), PutAll(cs[1..]), put);
    }
  }

  /** The search does not skip the pad byte of a chunk of odd length: with such a chunk in front of
      the data chunk, whatever the chunks before it, no header is accepted. */
  lemma {:induction false} OddChunkRejected(f: Format, size: nat, cs: seq<Chunk>, c: Chunk, payload: seq<Byte>)
    requires Supported(f) && size < TOP && AllSkippable(cs) && AllEven(cs) && |payload| < TOP
    requires Skippable(c) && |c.body| % 2 == 1
    requires AllSkippable(cs + [c]) && |PutWav(f, size, cs + [c], payload)| + 0x100 * |payload| + 0x100 < TOP
    ensures Parse(PutWav(f, size, cs + [c], payload)) == Invalid
  {
    var s := PutWav(f, size, cs + [c], payload);
    var q := 36 + |PutAll(cs)|;
    OddLayout(f, size, cs, c, payload);
    OddHeaders(s, q, c, payload);
    OddParse(s, cs, q, |c.body|, |payload|);
  }

  /** The parts of a file whose last chunk before the data chunk is c. */
  lemma {:induction false} OddLayout(f: Format, size: nat, cs: seq<Chunk>, c: Chunk, payload: seq<Byte>)
    requires Supported(f) && size < TOP && AllSkippable(cs) && AllEven(cs) && |payload| < TOP
    requires Skippable(c) && AllSkippable(cs + [c])
    ensures var s, q := PutWav(f, size, cs + [c], payload), 36 + |PutAll(cs)|;
            && Chain(s, 36, cs, q) && q <= |s|
            && s[q..] == PutChunk(c.id, c.body) + PutChunk(DATA, payload)
  {
    PutAllSnoc(cs, c);
    OddChain(PutWav(f, size, cs + [c], payload), PutHeader(f, size), cs, PutChunk(c.id, c.body), PutChunk(DATA, payload));
  }

  lemma {:induction false} OddChain(s: seq<Byte>, header: seq<Byte>, cs: seq<Chunk>, odd: seq<Byte>, data: seq<Byte>)
    requires AllSkippable(cs) && AllEven(cs)
    requires s == header + ((PutAll(cs) + odd) + data) && |header| == 36
    ensures var q := 36 + |PutAll(cs)|; Chain(s, 36, cs, q) && q <= |s| && s[q..] == odd + data
  {
    OddSplits(s, header, PutAll(cs), odd, data);
    Chained(s, 36, cs, odd + data);
  }

  lemma {:induction false} OddSplits(s: seq<Byte>, header: seq<Byte>, chunks: seq<Byte>, odd: seq<Byte>, data: seq<Byte>)
    requires s == header + ((chunks + odd) + data) && |header| == 36
    ensures s[36..] == chunks + (odd + data) && s[36 + |chunks|..] == odd + data
    ensures 36 + |chunks| == |s| - |odd + data|
  {
  }

  lemma {:induction false} OddHeaders(s: seq<Byte>, q: nat, c: Chunk, payload: seq<Byte>)
    requires Skippable(c) && |c.body| % 2 == 1 && |payload| < 0x100_0000 && q <= |s|
    requires s[q..] == PutChunk(c.id, c.body) + PutChunk(DATA, payload)
    ensures OddAt(s, q, |c.body|, |payload|)
  {
    ChunkAt(s, q, c.id, c.body, PutChunk(DATA, payload));
    OddBytes(s, q + 8 + |c.body|, payload);
  }

  /** A chunk of m bytes at q, and behind it what the search reads of a data chunk of n bytes. */
  ghost predicate OddAt(s: seq<Byte>, q: nat, m: nat, n: nat) {
    var p := q + 8 + m;
    && p + 8 < |s| <= p + 10 + n
    && Le32(s, q) != DATA && Le32(s, q + 4) == m
    && Le32(s, p) != DATA && Le32(s, p + 4) == 0x61 + 0x100 * n
  }

  lemma {:induction false} OddParse(s: seq<Byte>, cs: seq<Chunk>, q: nat, m: nat, n: nat)
    requires |s| >= 44 && AllSkippable(cs) && Chain(s, 36, cs, q) && OddAt(s, q, m, n)
    requires |s| + 0x100 * n + 0x100 < TOP
    ensures Parse(s) == Invalid
  {
    ChainOrder(s, 36, cs, q);
    var p := q + 8 + m;
    Passes(s, p + 8, 0x61 + 0x100 * n, 0);
    Passes(s, q + 8, m, |s| - |cs|);
    Settled(s, p + 8, |s| - |cs| - 1);
    ScanPasses(s, 44, cs, q, |s|);
  }

  /** A search that gives up at once does so with any number of steps. */
  lemma {:induction false} Settled(s: seq<Byte>, ret: nat, steps: nat)
    requires ScanFrom(s, ret, 0) == Missing
    ensures ScanFrom(s, ret, steps) == Missing
  {
  }

  /** What the search takes for a header, one byte short of the data chunk. */
  lemma {:induction false} OddBytes(s: seq<Byte>, p: nat, payload: seq<Byte>)
    requires |payload| < 0x100_0000 && p < |s| && s[p] == 0 && s[p + 1..] == PutChunk(DATA, payload)
    ensures p + 9 <= |s| && Le32(s, p) != DATA
    ensures Le32(s, p + 4) == 0x61 + 0x100 * |payload|
  {
  }
}
