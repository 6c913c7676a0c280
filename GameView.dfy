/** The part of the game view that is plain computation: the colour bucket of a
    tile value and the text colour of each bucket. The twelve buckets index the
    view's tables of tile colours, text colours and text sizes. */
module View {
  import opened Lines

  /** The number of buckets, and so the length of each table. */
  const Buckets: nat := 12

  /** 2 to the power k. */
  function Power(k: nat): (p: int)
    ensures p >= 1
  {
    if k == 0 then 1 else 2 * Power(k - 1)
  }

  /** The colour bucket of a tile value: 2, 4, 8, ..., 2048 get the buckets 0 to
      10 in that order; every other value gets the last bucket, 11. */
  function ColorIndex(value: int): (i: nat)
    ensures i < Buckets
    ensures i < 11 ==> value == Power(i + 1)
    ensures i == 11 ==> forall k | 1 <= k <= 11 :: value != Power(k)
  {
    PowersUpTo2048();
    if value == 2 then 0
    else if value == 4 then 1
    else if value == 8 then 2
    else if value == 16 then 3
    else if value == 32 then 4
    else if value == 64 then 5
    else if value == 128 then 6
    else if value == 256 then 7
    else if value == 512 then 8
    else if value == 1024 then 9
    else if value == 2048 then 10
    else 11
  }

  lemma PowersUpTo2048()
    ensures Power(1) == 2 && Power(2) == 4 && Power(3) == 8 && Power(4) == 16
    ensures Power(5) == 32 && Power(6) == 64 && Power(7) == 128 && Power(8) == 256
    ensures Power(9) == 512 && Power(10) == 1024 && Power(11) == 2048 && Power(12) == 4096
  {
    assert Power(0) == 1;
    assert Power(1) == 2 * Power(0);
    assert Power(2) == 2 * Power(1);
    assert Power(3) == 2 * Power(2);
    assert Power(4) == 2 * Power(3);
    assert Power(5) == 2 * Power(4);
    assert Power(6) == 2 * Power(5);
    assert Power(7) == 2 * Power(6);
    assert Power(8) == 2 * Power(7);
    assert Power(9) == 2 * Power(8);
    assert Power(10) == 2 * Power(9);
    assert Power(11) == 2 * Power(10);
  }

  /** The value 2^k lands in the bucket k - 1, for k from 1 to 11. */
  lemma PowerBucket(k: nat)
    requires 1 <= k <= 11
    ensures ColorIndex(Power(k)) == k - 1
  {
    PowersUpTo2048();
  }

  /** Powers grow with the exponent. */
  lemma {:induction false} PowerGrows(j: nat, k: nat)
    requires j < k
    ensures Power(j) < Power(k)
  {
    if j + 1 < k {
      PowerGrows(j, k - 1);
    }
  }

  /** Every tile value is a power of two with a positive exponent. */
  lemma {:induction false} TileValueIsPower(v: int) returns (k: nat)
    requires IsTileValue(v)
    ensures k >= 1 && v == Power(k)
  {
    if v == 2 {
      k := 1;
    } else {
      var j := TileValueIsPower(v / 2);
      k := j + 1;
    }
  }

  /** Tile values up to 2048 get pairwise different buckets among the first
      eleven; every larger tile value (4096 and up) gets the overflow bucket. */
  lemma TileBucket(v: int)
    requires IsTileValue(v)
    ensures (ColorIndex(v) < 11) == (v <= 2048)
  {
    var k := TileValueIsPower(v);
    PowersUpTo2048();
    if k <= 11 {
      PowerBucket(k);
    } else {
      PowerGrows(11, k);
    }
  }

  /** Two different values never share one of the first eleven buckets. */
  lemma BucketsDistinct(v: int, w: int)
    requires v != w && IsTileValue(v) && IsTileValue(w) && v <= 2048 && w <= 2048
    ensures ColorIndex(v) != ColorIndex(w)
  {
    TileBucket(v);
  }

  datatype Shade = Dark | Light

  /** The text colour of a bucket: dark for the first two, light for the rest. */
  function TextShade(bucket: nat): Shade
    requires bucket < Buckets
  {
    if bucket < 2 then Dark else Light
  }

  /** The text of a tile is dark exactly on the tiles 2 and 4. */
  lemma DarkText(value: int)
    ensures (TextShade(ColorIndex(value)) == Dark) == (value == 2 || value == 4)
  {
    PowersUpTo2048();
  }

  /** Fills the text colour table: the two dark entries, then a loop over the
      other ten. */
  method TextColors() returns (colors: array<Shade>)
    ensures fresh(colors) && colors.Length == Buckets
    ensures forall i | 0 <= i < Buckets :: colors[i] == TextShade(i)
  {
    colors := new Shade[Buckets];
    colors[0] := Dark;
    colors[1] := Dark;
    for i := 2 to Buckets
      invariant colors[0] == Dark && colors[1] == Dark
      invariant forall j | 2 <= j < i :: colors[j] == Light
    {
      colors[i] := Light;
    }
  }
}
