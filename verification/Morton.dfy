/** Morton codes of map tiles: the bits of two coordinates interleaved. */
module Morton {
  import opened Wrappers

  const GEO_MAX_ZOOM: nat := 31

  function Pow2(n: nat): (p: nat)
    ensures p > 0
  {
    if n == 0 then 1 else 2 * Pow2(n - 1)
  }

  // Shifts and single bits of unsigned numbers.
  function ShiftLeft(value: nat, n: nat): nat {
    value * Pow2(n)
  }

  function ShiftRight(value: nat, n: nat): nat {
    if n == 0 then value else ShiftRight(value / 2, n - 1)
  }

  function Bit(value: nat, n: nat): (bit: nat)
    ensures bit <= 1
  {
    ShiftRight(value, n) % 2
  }

  // Bitwise or.
  function Or(a: nat, b: nat): nat {
    if a == 0 && b == 0 then 0
    else 2 * Or(a / 2, b / 2) + (if a % 2 == 1 || b % 2 == 1 then 1 else 0)
  }

  /** Or-ing in bits above those that are set is adding them. */
  lemma {:induction false} OrAbove(a: nat, b: nat, n: nat)
    requires a < Pow2(n)
    ensures Or(a, ShiftLeft(b, n)) == a + ShiftLeft(b, n)
  {
    if n == 0 {
      OrAll(b);
    } else {
      var shifted := ShiftLeft(b, n);
      assert shifted == 2 * ShiftLeft(b, n - 1) by { assert b * (2 * Pow2(n - 1)) == 2 * (b * Pow2(n - 1)); }
      OrAbove(a / 2, b, n - 1);
    }
  }

  lemma {:induction false} OrAll(b: nat)
    ensures Or(0, b) == b
  {
    if b > 0 { OrAll(b / 2); }
  }

  // ----- interleaving -----

  /** The first `n` bits of both coordinates, from the lowest: x in the even and y in the odd places. */
  function Interleaved(x: nat, y: nat, n: nat): nat {
    if n == 0 then 0 else x % 2 + 2 * (y % 2) + 4 * Interleaved(x / 2, y / 2, n - 1)
  }

  // The n-th bit is the one below of the halved number.
  lemma HalfBit(x: nat, n: nat)
    requires n > 0
    ensures Bit(x / 2, n - 1) == Bit(x, n)
  {
  }

  /** One more bit of each coordinate goes above all bits interleaved so far. */
  lemma {:induction false} InterleaveNext(x: nat, y: nat, n: nat)
    ensures Interleaved(x, y, n + 1) ==
            Interleaved(x, y, n) + ShiftLeft(Bit(x, n), 2 * n) + ShiftLeft(Bit(y, n), 2 * n + 1)
    ensures Interleaved(x, y, n) < Pow2(2 * n)
  {
    if n > 0 {
      InterleaveNext(x / 2, y / 2, n - 1);
      HalfBit(x, n);
      HalfBit(y, n);
      FourTimes(Bit(x, n), 2 * n - 2);
      FourTimes(Bit(y, n), 2 * n - 1);
      assert Pow2(2 * n) == 4 * Pow2(2 * n - 2);
    } else {
      assert Interleaved(x / 2, y / 2, 0) == 0;
      assert Pow2(1) == 2 * Pow2(0);
    }
  }

  lemma FourTimes(b: nat, n: nat)
    ensures ShiftLeft(b, n + 2) == 4 * ShiftLeft(b, n)
  {
    assert Pow2(n + 2) == 4 * Pow2(n);
    assert b * (4 * Pow2(n)) == 4 * (b * Pow2(n));
  }

  method Interleave(x: nat, y: nat) returns (value: nat)
    ensures value == Interleaved(x, y, GEO_MAX_ZOOM) < Pow2(62)
  {
    value := 0;
    for bit := 0 to GEO_MAX_ZOOM
      invariant value == Interleaved(x, y, bit)
    {
      InterleaveNext(x, y, bit);
      OrAbove(value, Bit(x, bit), 2 * bit);
      value := Or(value, ShiftLeft(ShiftRight(x, bit) % 2, 2 * bit));
      OneBitMore(Interleaved(x, y, bit), Bit(x, bit), 2 * bit);
      OrAbove(value, Bit(y, bit), 2 * bit + 1);
      value := Or(value, ShiftLeft(ShiftRight(y, bit) % 2, 2 * bit + 1));
    }
    InterleaveNext(x, y, GEO_MAX_ZOOM);
  }

  lemma OneBitMore(value: nat, bit: nat, n: nat)
    requires value < Pow2(n) && bit <= 1
    ensures value + ShiftLeft(bit, n) < Pow2(n + 1)
  {
    if bit == 1 { assert ShiftLeft(1, n) == Pow2(n); } else { assert ShiftLeft(0, n) == 0; }
  }

  // ----- separating -----

  /** Every second of the first 2n bits, from the lowest. */
  function EvenBits(value: nat, n: nat): nat {
    if n == 0 then 0 else value % 2 + 2 * EvenBits(value / 4, n - 1)
  }

  function OddBits(value: nat, n: nat): nat {
    EvenBits(value / 2, n)
  }

  lemma {:induction false} EvenNext(value: nat, n: nat)
    ensures EvenBits(value, n + 1) == EvenBits(value, n) + ShiftLeft(Bit(value, 2 * n), n)
    ensures EvenBits(value, n) < Pow2(n)
  {
    if n > 0 {
      EvenNext(value / 4, n - 1);
      QuarterBit(value, 2 * n);
      var b := Bit(value, 2 * n);
      assert ShiftLeft(b, n) == 2 * ShiftLeft(b, n - 1) by { assert b * (2 * Pow2(n - 1)) == 2 * (b * Pow2(n - 1)); }
    } else {
      assert EvenBits(value / 4, 0) == 0;
    }
  }

  lemma QuarterBit(x: nat, n: nat)
    requires n >= 2
    ensures Bit(x / 4, n - 2) == Bit(x, n)
  {
    HalfBit(x, n);
    HalfBit(x / 2, n - 1);
    assert x / 2 / 2 == x / 4;
  }

  lemma OddBit(value: nat, n: nat)
    ensures Bit(value / 2, 2 * n) == Bit(value, 2 * n + 1)
  {
    HalfBit(value, 2 * n + 1);
  }

  method MortonXY(value: nat, zoom: nat) returns (r: Result<(nat, nat)>)
    ensures r == if zoom <= GEO_MAX_ZOOM then Ok((EvenBits(value, zoom), OddBits(value, zoom)))
                 else Err("geo tile zoom must be in 0..=31")
  {
    if zoom > GEO_MAX_ZOOM { return Err("geo tile zoom must be in 0..=31"); }
    var x, y := 0, 0;
    for bit := 0 to zoom
      invariant x == EvenBits(value, bit) && y == OddBits(value, bit)
    {
      EvenNext(value, bit);
      OrAbove(x, Bit(value, 2 * bit), bit);
      x := Or(x, ShiftLeft(ShiftRight(value, 2 * bit) % 2, bit));
      EvenNext(value / 2, bit);
      OddBit(value, bit);
      OrAbove(y, Bit(value, 2 * bit + 1), bit);
      y := Or(y, ShiftLeft(ShiftRight(value, 2 * bit + 1) % 2, bit));
    }
    r := Ok((x, y));
  }

  function MortonAtZoom(morton: nat, zoom: nat): Result<nat> {
    if zoom > GEO_MAX_ZOOM then Err("geo tile zoom must be in 0..=31")
    else Ok(if zoom == 0 then 0 else ShiftRight(morton, 2 * (GEO_MAX_ZOOM - zoom)))
  }

  // ----- the codes are faithful -----

  lemma TwoDigits(a: nat, b: nat, rest: nat)
    requires a <= 1 && b <= 1
    ensures var value := a + 2 * b + 4 * rest;
            value % 2 == a && value / 2 == b + 2 * rest && value / 4 == rest
  {
  }

  lemma OneDigit(a: nat, rest: nat)
    requires a <= 1
    ensures (a + 2 * rest) % 2 == a && (a + 2 * rest) / 2 == rest && (a + 2 * rest) / 4 == rest / 2
  {
  }

  /** Separating undoes interleaving. */
  lemma {:induction false} SeparateInverts(x: nat, y: nat, n: nat)
    requires x < Pow2(n) && y < Pow2(n)
    ensures EvenBits(Interleaved(x, y, n), n) == x && OddBits(Interleaved(x, y, n), n) == y
  {
    if n > 0 {
      var rest := Interleaved(x / 2, y / 2, n - 1);
      SeparateInverts(x / 2, y / 2, n - 1);
      TwoDigits(x % 2, y % 2, rest);
      OneDigit(y % 2, rest);
    }
  }

  lemma OddNext(value: nat, n: nat)
    requires n > 0
    ensures OddBits(value, n) == value / 2 % 2 + 2 * OddBits(value / 4, n - 1)
  {
    assert value / 2 / 4 == value / 4 / 2;
  }

  /** Interleaving undoes separating. */
  lemma {:induction false} InterleaveInverts(value: nat, n: nat)
    requires value < Pow2(2 * n)
    ensures Interleaved(EvenBits(value, n), OddBits(value, n), n) == value
  {
    if n > 0 {
      assert Pow2(2 * n) == 4 * Pow2(2 * n - 2);
      InterleaveInverts(value / 4, n - 1);
      OddNext(value, n);
      OneDigit(value % 2, EvenBits(value / 4, n - 1));
      OneDigit(value / 2 % 2, OddBits(value / 4, n - 1));
      Decomposed(value);
    }
  }

  lemma Decomposed(value: nat)
    ensures value == value % 2 + 2 * (value / 2 % 2) + 4 * (value / 4)
  {
  }

  /** Dropping the lowest k bits of both coordinates is dropping 2k bits of the code. */
  lemma {:induction false} ShiftInterleaved(x: nat, y: nat, n: nat, k: nat)
    requires k <= n
    ensures ShiftRight(Interleaved(x, y, n), 2 * k) == Interleaved(ShiftRight(x, k), ShiftRight(y, k), n - k)
  {
    if k > 0 {
      var value := Interleaved(x, y, n);
      TwoDigits(x % 2, y % 2, Interleaved(x / 2, y / 2, n - 1));
      ShiftTwo(value, 2 * k);
      ShiftInterleaved(x / 2, y / 2, n - 1, k - 1);
    }
  }

  lemma ShiftTwo(value: nat, n: nat)
    requires n >= 2
    ensures ShiftRight(value, n) == ShiftRight(value / 4, n - 2)
  {
    assert value / 2 / 2 == value / 4;
    assert ShiftRight(value, n) == ShiftRight(value / 2, n - 1) == ShiftRight(value / 2 / 2, n - 2);
  }

  /** The tile of a coordinate pair at any zoom is the pair shifted right. */
  lemma TileAtZoom(x: nat, y: nat, zoom: nat)
    requires x < Pow2(GEO_MAX_ZOOM) && y < Pow2(GEO_MAX_ZOOM) && zoom <= GEO_MAX_ZOOM
    ensures var k := GEO_MAX_ZOOM - zoom; var tile := MortonAtZoom(Interleaved(x, y, GEO_MAX_ZOOM), zoom);
            && tile.Ok?
            && EvenBits(tile.value, zoom) == ShiftRight(x, k) && OddBits(tile.value, zoom) == ShiftRight(y, k)
  {
    var k := GEO_MAX_ZOOM - zoom;
    ShiftInterleaved(x, y, GEO_MAX_ZOOM, k);
    ShiftedBelow(x, zoom, k);
    ShiftedBelow(y, zoom, k);
    SeparateInverts(ShiftRight(x, k), ShiftRight(y, k), zoom);
  }

  lemma {:induction false} ShiftedBelow(x: nat, a: nat, b: nat)
    requires x < Pow2(a + b)
    ensures ShiftRight(x, b) < Pow2(a)
  {
    if b > 0 { ShiftedBelow(x / 2, a, b - 1); }
  }

  lemma {:induction false} ShiftLast(value: nat, n: nat)
    ensures ShiftRight(value, n + 1) == ShiftRight(value, n) / 2
  {
    if n > 0 { ShiftLast(value / 2, n - 1); }
  }

  /** One zoom level less drops the last two bits: a tile is the quarter of each of its children. */
  lemma ParentTile(morton: nat, zoom: nat)
    requires zoom < GEO_MAX_ZOOM && morton < Pow2(62)
    ensures MortonAtZoom(morton, zoom + 1).Ok? && MortonAtZoom(morton, zoom).Ok?
    ensures MortonAtZoom(morton, zoom).value == MortonAtZoom(morton, zoom + 1).value / 4
  {
    var k := 2 * (GEO_MAX_ZOOM - zoom) - 2;
    ShiftLast(morton, k);
    ShiftLast(morton, k + 1);
    if zoom == 0 { ShiftedBelow(morton, 0, 62); }
  }
}
