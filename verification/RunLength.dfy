/**
 The bitmap converter's run-length encoder: each pixel of a row becomes the index of the nearest
 palette colour, and runs of equal indices become entries with a count of at most 255.
 */
module RunLength {
  import opened Basics

  datatype Color = Color(r: int, g: int, b: int)

  datatype Entry = Entry(count: nat, color: nat)

  // ----- the nearest palette colour -----

  function Square(x: int): (r: int) {
    x * x
  }

  function Distance(c: Color, d: Color): int {
    Square(c.r - d.r) + Square(c.g - d.g) + Square(c.b - d.b)
  }

  lemma {:induction false} SquareZero(x: int)
    ensures Square(x) >= 0 && (Square(x) == 0 <==> x == 0)
  {
  }

  /** The distance is the sum of the squares of how far the parts are from each other. */
  lemma {:induction false} DistanceIs(c: Color, x: int, y: int, z: int)
    ensures Distance(c, Color(c.r + x, c.g + y, c.b + z)) == x * x + y * y + z * z
  {
    SquareEven(x);
    SquareEven(y);
    SquareEven(z);
  }

  lemma {:induction false} SquareEven(x: int)
    ensures Square(-x) == x * x
  {
  }

  /** An equal colour is the only one at no distance. */
  lemma {:induction false} DistanceZero(c: Color, d: Color)
    ensures Distance(c, d) >= 0 && (Distance(c, d) == 0 <==> c == d)
  {
    SquareZero(c.r - d.r);
    SquareZero(c.g - d.g);
    SquareZero(c.b - d.b);
  }

  /** k is the first of the palette colours nearest to c. */
  predicate Nearest(c: Color, palette: seq<Color>, k: nat) {
    && k < |palette|
    && (forall j :: 0 <= j < |palette| ==> Distance(c, palette[k]) <= Distance(c, palette[j]))
    && (forall j :: 0 <= j < k ==> Distance(c, palette[k]) < Distance(c, palette[j]))
  }

  method Quantize(color: Color, palette: seq<Color>) returns (k: nat)
    requires palette != []
    ensures Nearest(color, palette, k)
  {
    k := 0;
    while k < |palette|
      invariant k <= |palette|
      invariant forall j :: 0 <= j < k ==> palette[j] != color
    {
      if palette[k] == color {
        forall j | 0 <= j < |palette| ensures Distance(color, palette[j]) >= 0
          && (Distance(color, palette[j]) == 0 <==> color == palette[j]) {
          DistanceZero(color, palette[j]);
        }
        return;
      }
      k := k + 1;
    }
    k := 0;
    var i := 1;
    while i < |palette|
      invariant k < i <= |palette|
      invariant forall j :: 0 <= j < i ==> Distance(color, palette[k]) <= Distance(color, palette[j])
      invariant forall j :: 0 <= j < k ==> Distance(color, palette[k]) < Distance(color, palette[j])
    {
      if Distance(color, palette[i]) < Distance(color, palette[k]) {
        k := i;
      }
      i := i + 1;
    }
  }

  // ----- runs -----

  /** The entries for a run of count pixels of a colour, followed by rest. */
  function Pending(count: nat, color: nat, rest: seq<nat>): (r: seq<Entry>)
    ensures r != []
    decreases |rest|
  {
    if rest == [] then [Entry(count, color)]
    else if rest[0] == color && count < 255 then Pending(count + 1, color, rest[1..])
    else [Entry(count, color)] + Pending(1, rest[0], rest[1..])
  }

  function Encode(row: seq<nat>): seq<Entry> {
    if row == [] then [] else Pending(1, row[0], row[1..])
  }

  function Copies(n: nat, color: nat): (r: seq<nat>)
    ensures |r| == n
  {
    if n == 0 then [] else [color] + Copies(n - 1, color)
  }

  /** The row that entries stand for. */
  function Expand(es: seq<Entry>): seq<nat> {
    if es == [] then [] else Copies(es[0].count, es[0].color) + Expand(es[1..])
  }

  /** Entries whose counts fit a byte. */
  predicate Short(es: seq<Entry>) {
    forall i :: 0 <= i < |es| ==> es[i].count <= 255
  }

  /** encode_row: colours are compared by their palette index. */
  method EncodeRow(row: seq<Color>, palette: seq<Color>) returns (entries: seq<Entry>, ghost indices: seq<nat>)
    requires palette != []
    ensures |indices| == |row| && forall i :: 0 <= i < |row| ==> Nearest(row[i], palette, indices[i])
    ensures entries == Encode(indices)
  {
    entries, indices := [], [];
    var started, color, repeats := false, 0, 0;
    for x := 0 to |row|
      invariant |indices| == x && forall i :: 0 <= i < x ==> Nearest(row[i], palette, indices[i])
      invariant started <==> x > 0
      invariant started ==> 1 <= repeats <= 255
      invariant if started then SoFar(indices, entries, repeats, color) else entries == []
    {
      var c := Quantize(row[x], palette);
      if started && c == color && repeats < 255 {
        SoFarSame(indices, entries, repeats, color);
        repeats := repeats + 1;
      } else {
        if started {
          SoFarNext(indices, entries, repeats, color, c);
          entries := entries + [Entry(repeats, color)];
        } else {
          SoFarFirst(c);
          assert indices + [c] == [c];
        }
        repeats := 1;
        color := c;
      }
      indices := indices + [c];
      started := true;
    }
    if started {
      assert indices + [] == indices;
      entries := entries + [Entry(repeats, color)];
    }
  }

  /** The entries and the pending run are what the pixels so far come to, whatever follows. */
  ghost predicate SoFar(indices: seq<nat>, entries: seq<Entry>, repeats: nat, color: nat) {
    forall tail :: Encode(indices + tail) == entries + Pending(repeats, color, tail)
  }

  lemma {:induction false} SoFarFirst(c: nat)
    ensures SoFar([c], [], 1, c)
  {
    forall tail: seq<nat> ensures Encode([c] + tail) == [] + Pending(1, c, tail) {
      assert ([c] + tail)[1..] == tail;
    }
  }

  lemma {:induction false} SoFarSame(indices: seq<nat>, entries: seq<Entry>, repeats: nat, color: nat)
    requires SoFar(indices, entries, repeats, color) && repeats < 255
    ensures SoFar(indices + [color], entries, repeats + 1, color)
  {
    forall tail: seq<nat>
      ensures Encode(indices + [color] + tail) == entries + Pending(repeats + 1, color, tail)
    {
      var more := [color] + tail;
      Assoc(indices, [color], tail);
      assert Encode(indices + more) == entries + Pending(repeats, color, more);
      assert more[1..] == tail;
    }
  }

  lemma {:induction false} SoFarNext(indices: seq<nat>, entries: seq<Entry>, repeats: nat, color: nat, c: nat)
    requires SoFar(indices, entries, repeats, color) && (c != color || repeats >= 255)
    ensures SoFar(indices + [c], entries + [Entry(repeats, color)], 1, c)
  {
    forall tail: seq<nat>
      ensures Encode(indices + [c] + tail) == entries + [Entry(repeats, color)] + Pending(1, c, tail)
    {
      var more := [c] + tail;
      Assoc(indices, [c], tail);
      assert Encode(indices + more) == entries + Pending(repeats, color, more);
      assert more[1..] == tail;
      Assoc(entries, [Entry(repeats, color)], Pending(1, c, tail));
    }
  }

  // ----- nothing is lost -----

  lemma {:induction false} CopiesMore(n: nat, color: nat, rest: seq<nat>)
    ensures Copies(n + 1, color) + rest == Copies(n, color) + ([color] + rest)
  {
    if n > 0 {
      CopiesMore(n - 1, color, rest);
      assert Copies(n + 1, color) + rest == [color] + (Copies(n, color) + rest);
      assert Copies(n, color) + ([color] + rest) == [color] + (Copies(n - 1, color) + ([color] + rest));
    }
  }

  lemma {:induction false} PendingExpands(count: nat, color: nat, rest: seq<nat>)
    requires 1 <= count <= 255
    ensures Expand(Pending(count, color, rest)) == Copies(count, color) + rest
    ensures forall e <- Pending(count, color, rest) :: 1 <= e.count <= 255
    decreases |rest|
  {
    if rest != [] {
      var more := rest[1..];
      assert rest == [rest[0]] + more;
      if rest[0] == color && count < 255 {
        PendingExpands(count + 1, color, more);
        CopiesMore(count, color, more);
      } else {
        PendingExpands(1, rest[0], more);
        assert Copies(1, rest[0]) == [rest[0]];
      }
    }
  }

  /** The entries of a row expand to the row, and every count is in 1..255. */
  lemma {:induction false} EncodeExpands(row: seq<nat>)
    ensures Expand(Encode(row)) == row
    ensures forall e <- Encode(row) :: 1 <= e.count <= 255
  {
    if row != [] {
      PendingExpands(1, row[0], row[1..]);
      assert Copies(1, row[0]) + row[1..] == row;
    }
  }

  // ----- nothing shorter will do -----

  function Size(count: nat, color: nat, rest: seq<nat>): nat {
    |Pending(count, color, rest)|
  }

  /** A longer run so far never saves an entry, and never costs more than one. */
  lemma {:induction false} SizesNear(a: nat, b: nat, color: nat, rest: seq<nat>)
    requires 1 <= a <= b <= 255
    ensures Size(a, color, rest) <= Size(b, color, rest) <= Size(a, color, rest) + 1
    decreases |rest|
  {
    if rest != [] && rest[0] == color && a < b {
      var more := rest[1..];
      if b < 255 {
        SizesNear(a + 1, b + 1, color, more);
      } else {
        SizesNear(1, a + 1, color, more);
      }
    } else if rest != [] && rest[0] == color {
      assert a == b;
    }
  }

  lemma {:induction false} RunJoins(count: nat, n: nat, color: nat, rest: seq<nat>)
    requires 1 <= count && count + n <= 255
    ensures Pending(count, color, Copies(n, color) + rest) == Pending(count + n, color, rest)
    decreases n
  {
    if n == 0 {
      assert Copies(0, color) + rest == rest;
    } else {
      assert (Copies(n, color) + rest)[1..] == Copies(n - 1, color) + rest;
      RunJoins(count + 1, n - 1, color, rest);
    }
  }

  /** An entry more in front costs at most one entry. */
  lemma {:induction false} FirstEntry(n: nat, color: nat, rest: seq<nat>)
    requires n <= 255
    ensures |Encode(Copies(n, color) + rest)| <= 1 + |Encode(rest)|
  {
    if n == 0 {
      assert Copies(0, color) + rest == rest;
    } else {
      assert (Copies(n, color) + rest)[1..] == Copies(n - 1, color) + rest;
      RunJoins(1, n - 1, color, rest);
      if rest != [] && rest[0] == color && n < 255 {
        SizesNear(1, n + 1, color, rest[1..]);
      }
    }
  }

  /** No list of entries with counts of at most 255 that stands for the row is shorter than the
      encoder's. */
  lemma {:induction false} EncodeShortest(row: seq<nat>, es: seq<Entry>)
    requires Short(es) && Expand(es) == row
    ensures |Encode(row)| <= |es|
    decreases |es|
  {
    if es != [] {
      EncodeShortest(Expand(es[1..]), es[1..]);
      FirstEntry(es[0].count, es[0].color, Expand(es[1..]));
    }
  }
}
