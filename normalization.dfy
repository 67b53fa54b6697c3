/**
 * The origin entitiesToJson shifts a selection to: baseX is the smallest x,
 * baseY the smallest y truncated to an Int, both 0 for an empty list.
 */
module Normalization {
  import opened Entities

  /** The smallest element of a non-empty list (the value minBy selects). */
  function MinOf(xs: seq<real>): (m: real)
    requires |xs| > 0
    ensures forall i :: 0 <= i < |xs| ==> m <= xs[i]
    ensures exists i :: 0 <= i < |xs| && xs[i] == m
  {
    if |xs| == 1 then xs[0]
    else
      var rest := MinOf(xs[1..]);
      assert forall i :: 1 <= i < |xs| ==> xs[1..][i - 1] == xs[i];
      if xs[0] <= rest then xs[0] else rest
  }

  function Xs(ds: seq<EntityData>): (r: seq<real>)
    ensures |r| == |ds| && forall i :: 0 <= i < |ds| ==> r[i] == ds[i].bounds.x
  {
    seq(|ds|, i requires 0 <= i < |ds| => ds[i].bounds.x)
  }

  function Ys(ds: seq<EntityData>): (r: seq<real>)
    ensures |r| == |ds| && forall i :: 0 <= i < |ds| ==> r[i] == ds[i].bounds.y
  {
    seq(|ds|, i requires 0 <= i < |ds| => ds[i].bounds.y)
  }

  /** Kotlin's Float.toInt(): rounds toward zero. */
  function Truncate(r: real): (t: int)
    ensures 0.0 <= r ==> 0 <= t && t as real <= r < t as real + 1.0
    ensures r < 0.0 ==> t <= 0 && t as real - 1.0 < r <= t as real
  {
    if r >= 0.0 then r.Floor else -((-r).Floor)
  }

  /** minBy { x }?.x ?: 0f: the smallest x, attained by some entity; 0 for an empty selection. */
  function BaseX(ds: seq<EntityData>): (b: real)
    ensures ds == [] ==> b == 0.0
    ensures forall i :: 0 <= i < |ds| ==> b <= ds[i].bounds.x
    ensures ds != [] ==> exists i :: 0 <= i < |ds| && ds[i].bounds.x == b
  {
    if ds == [] then 0.0 else MinOf(Xs(ds))
  }

  /** minBy { y }?.y?.toInt() ?: 0: the truncated y of a lowest entity; 0 for an empty selection. */
  function BaseY(ds: seq<EntityData>): (b: int)
    ensures ds == [] ==> b == 0
    ensures ds != [] ==> exists i :: 0 <= i < |ds| && b == Truncate(ds[i].bounds.y)
                                   && forall j :: 0 <= j < |ds| ==> ds[i].bounds.y <= ds[j].bounds.y
  {
    if ds == [] then 0 else Truncate(MinOf(Ys(ds)))
  }

  /** The bounds update entitiesToJson applies to one entity. */
  function ShiftBounds(b: Bounds, baseX: real, baseY: int): Bounds
  {
    b.(x := b.x - baseX, y := b.y - baseY as real)
  }

  /** Every entity with its bounds moved by (-baseX, -baseY), all else kept. */
  function ShiftAllBy(ds: seq<EntityData>, baseX: real, baseY: int): (r: seq<EntityData>)
    ensures |r| == |ds|
    ensures forall i :: 0 <= i < |ds| ==>
      && r[i].bounds.x == ds[i].bounds.x - baseX
      && r[i].bounds.y == ds[i].bounds.y - baseY as real
      && r[i].bounds.width == ds[i].bounds.width
      && r[i].bounds.height == ds[i].bounds.height
      && r[i].jsonType == ds[i].jsonType && r[i].isTexture == ds[i].isTexture
      && r[i].textureHash == ds[i].textureHash && r[i].fields == ds[i].fields
  {
    seq(|ds|, i requires 0 <= i < |ds| => ds[i].(bounds := ShiftBounds(ds[i].bounds, baseX, baseY)))
  }

  /** Every entity of the selection as it is while its node is written. */
  function Normalize(ds: seq<EntityData>): seq<EntityData>
  {
    ShiftAllBy(ds, BaseX(ds), BaseY(ds))
  }

  /** Shifted x positions are never negative, and the leftmost entity lands on 0. */
  lemma NormalizedX(ds: seq<EntityData>)
    requires |ds| > 0
    ensures forall i :: 0 <= i < |ds| ==> Normalize(ds)[i].bounds.x >= 0.0
    ensures exists i :: 0 <= i < |ds| && Normalize(ds)[i].bounds.x == 0.0
  {
    var k :| 0 <= k < |ds| && Xs(ds)[k] == MinOf(Xs(ds));
    assert Normalize(ds)[k].bounds.x == 0.0;
  }

  /** When the lowest track is a whole number, shifted tracks are never negative and the lowest lands on 0. */
  lemma NormalizedWholeY(ds: seq<EntityData>)
    requires |ds| > 0
    requires MinOf(Ys(ds)) == MinOf(Ys(ds)).Floor as real
    ensures forall i :: 0 <= i < |ds| ==> Normalize(ds)[i].bounds.y >= 0.0
    ensures exists i :: 0 <= i < |ds| && Normalize(ds)[i].bounds.y == 0.0
  {
    var m := MinOf(Ys(ds));
    var k :| 0 <= k < |ds| && Ys(ds)[k] == m;
    assert Truncate(m) as real == m by {
      if m < 0.0 {
        var n := m.Floor;
        assert -m == (-n) as real;
        assert (-m).Floor == -n;
      }
    }
    assert Normalize(ds)[k].bounds.y == 0.0;
  }

  /**
   * When no track is negative, shifted tracks are never negative and the
   * lowest one is below 1 (only its fractional part remains).
   */
  lemma NormalizedNonNegativeY(ds: seq<EntityData>)
    requires |ds| > 0
    requires forall i :: 0 <= i < |ds| ==> ds[i].bounds.y >= 0.0
    ensures forall i :: 0 <= i < |ds| ==> Normalize(ds)[i].bounds.y >= 0.0
    ensures exists i :: 0 <= i < |ds| && Normalize(ds)[i].bounds.y < 1.0
  {
    var k :| 0 <= k < |ds| && Ys(ds)[k] == MinOf(Ys(ds));
    assert Normalize(ds)[k].bounds.y < 1.0;
  }
}
