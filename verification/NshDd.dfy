/**
 The dd command: sectors are read from a file and written to another, with reads and writes that may
 each move fewer bytes than asked for.
 */
module NshDd {
  import opened Basics

  /** Where in the input the position is after some sectors from start on. */
  function Place(length: nat, start: nat, sectors: nat, size: nat): int {
    if start >= length then start else Min(length, start + sectors * size)
  }

  /** The bytes of the input from start on, in sectors. */
  function Slice(input: seq<Byte>, start: nat, sectors: nat, size: nat): seq<Byte> {
    var end := Place(|input|, start, sectors, size);
    if start >= |input| || end < start then [] else input[start..end]
  }

  /** The bytes read from one position to another. */
  function Between(input: seq<Byte>, from: nat, to: nat): seq<Byte>
    requires from <= to && (from < to ==> to <= |input|)
  {
    if from == to then [] else input[from..to]
  }

  lemma {:induction false} BetweenJoins(input: seq<Byte>, a: nat, b: nat, c: nat)
    requires a <= b <= c && (a < b ==> b <= |input|) && (b < c ==> c <= |input|)
    ensures Between(input, a, b) + Between(input, b, c) == Between(input, a, c)
  {
  }

  class Transfer {
    const input: seq<Byte>
    const size: nat
    const buffer: array<Byte>
    var pos: nat
    var output: seq<Byte>
    var nbytes: nat
    var eof: bool

    constructor (input: seq<Byte>, size: nat, start: nat)
      ensures this.input == input && this.size == size && buffer.Length == size && fresh(buffer)
      ensures pos == start && output == [] && !eof
    {
      this.input, this.size, pos := input, size, start;
      buffer := new Byte[size](_ => 0);
      output, nbytes, eof := [], 0, false;
    }

    /** read: an error, the end of the file, or any number of bytes up to those asked for. */
    method Read(at: nat, n: nat) returns (k: int)
      requires buffer.Length == size && at + n <= size
      modifies buffer, this`pos
      ensures -1 <= k <= n && (k == 0 ==> n == 0 || pos >= |input|)
      ensures pos == old(pos) + if k > 0 then k else 0
      ensures k > 0 ==> pos <= |input| && buffer[at..at + k] == input[old(pos)..pos]
      ensures buffer[..at] == old(buffer[..at])
    {
      var left := if pos < |input| then Min(n, |input| - pos) else 0;
      k :| -1 <= k <= left && (k == 0 ==> left == 0);
      if k > 0 {
        forall j | 0 <= j < k {
          buffer[at + j] := input[pos + j];
        }
        pos := pos + k;
      }
    }

    /** write: an error, or at least one byte of those given. */
    method Write(at: nat, n: nat) returns (k: int)
      requires 0 < n && at + n <= buffer.Length
      modifies this`output
      ensures k < 0 || 0 < k <= n
      ensures output == old(output) + if k > 0 then buffer[at..at + k] else []
    {
      k :| -1 <= k <= n && k != 0;
      if k > 0 {
        output := output + buffer[at..at + k];
      }
    }

    /** dd_read: a whole sector, or what is left of the input. */
    method ReadSector() returns (ok: bool)
      requires buffer.Length == size
      modifies buffer, this`pos, this`nbytes, this`eof
      ensures nbytes <= size && old(pos) <= pos
      ensures ok ==> pos == Place(|input|, old(pos), 1, size) && buffer[..nbytes] == Slice(input, old(pos), 1, size)
      ensures ok ==> eof == (old(eof) || nbytes == 0)
    {
      nbytes := 0;
      var k := 1;
      while true
        invariant eof == old(eof)
        invariant nbytes <= size && pos == old(pos) + nbytes && (nbytes > 0 ==> pos <= |input|)
        invariant buffer[..nbytes] == Between(input, old(pos), pos)
        decreases size - nbytes
      {
        ghost var p, had := pos, buffer[..nbytes];
        k := Read(nbytes, size - nbytes);
        if k < 0 {
          return false;
        }
        BetweenJoins(input, old(pos), p, pos);
        assert buffer[..nbytes + k] == had + buffer[nbytes..nbytes + k];
        nbytes := nbytes + k;
        if nbytes >= size || k == 0 {
          break;
        }
      }
      eof := eof || nbytes == 0;
      ok := true;
    }

    /** dd_write: the whole buffer, or after an error a part of it. */
    method WriteSector() returns (ok: bool)
      requires 0 < nbytes <= buffer.Length
      modifies this`output
      ensures old(output) <= output <= old(output) + buffer[..nbytes]
      ensures ok ==> output == old(output) + buffer[..nbytes]
    {
      var written := 0;
      while written < nbytes
        invariant 0 <= written <= nbytes && output == old(output) + buffer[..written]
      {
        var k := Write(written, nbytes - written);
        if k < 0 {
          return false;
        }
        assert buffer[..written + k] == buffer[..written] + buffer[written..written + k];
        written := written + k;
      }
      ok := true;
    }

    /** The loop of cmd_dd: count sectors from the position on, up to the end of the input. */
    method Copy(count: nat) returns (ok: bool, sectors: nat)
      requires buffer.Length == size && output == [] && !eof
      modifies buffer, this`pos, this`output, this`nbytes, this`eof
      ensures sectors <= count && output <= Slice(input, old(pos), count, size)
      ensures ok ==> output == Slice(input, old(pos), count, size)
      ensures ok ==> Covers(|output|, sectors, size)
    {
      ghost var start := pos;
      sectors := 0;
      while !eof && sectors < count
        invariant sectors <= count && Covers(|output|, sectors, size)
        invariant start <= pos == Place(|input|, start, sectors, size)
        invariant output == Slice(input, start, sectors, size)
        invariant eof ==> output == Slice(input, start, count, size)
        decreases count - sectors, !eof
      {
        ghost var p, had := pos, output;
        ok := ReadSector();
        if !ok {
          SliceGrows(input, start, sectors, count, size);
          return;
        }
        NextSector(input, start, sectors, size, p);
        if eof {
          NothingLeft(input, start, sectors, count, size);
        } else {
          ok := WriteSector();
          if !ok {
            SliceGrows(input, start, sectors + 1, count, size);
            return;
          }
          sectors := sectors + 1;
        }
      }
      ok := true;
    }
  }

  /** So many sectors of a size are as few as hold so many bytes. */
  predicate Covers(bytes: nat, sectors: nat, size: nat) {
    bytes <= sectors * size && (sectors > 0 ==> (sectors - 1) * size < bytes)
  }

  lemma {:induction false} SliceGrows(input: seq<Byte>, start: nat, m: nat, n: nat, size: nat)
    requires m <= n
    ensures Slice(input, start, m, size) <= Slice(input, start, n, size)
  {
    MulLess(m, n, size);
  }

  lemma {:induction false} MulLess(m: nat, n: nat, size: nat)
    requires m <= n
    ensures m * size <= n * size
  {
  }

  /** One sector more. */
  lemma {:induction false} NextSector(input: seq<Byte>, start: nat, sectors: nat, size: nat, p: nat)
    requires p == Place(|input|, start, sectors, size)
    ensures Place(|input|, p, 1, size) == Place(|input|, start, sectors + 1, size)
    ensures Slice(input, start, sectors, size) + Slice(input, p, 1, size) == Slice(input, start, sectors + 1, size)
  {
  }

  /** Where a sector more brings nothing, no number of them does. */
  lemma {:induction false} NothingLeft(input: seq<Byte>, start: nat, sectors: nat, count: nat, size: nat)
    requires sectors <= count
    requires Slice(input, Place(|input|, start, sectors, size), 1, size) == []
    ensures Slice(input, start, sectors, size) == Slice(input, start, count, size)
  {
    MulLess(sectors, count, size);
  }
}
