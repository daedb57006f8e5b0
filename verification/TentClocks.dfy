/**
 Offsets of bounded rate: the lowest one through given points is the highest of their tents, which fall away from each
 point at the rate. A clock ahead of another by such an offset shows every reading between two it shows.
 */
module TentClocks {
  import opened Aggregates

  /** At coordinator time `at` the offset is `height`. */
  datatype Tent = Tent(at: real, height: real)

  function Slope(k: Tent, rate: real, t: real): real { k.height - rate * RealAbs(t - k.at) }

  function Roof(tents: seq<Tent>, rate: real, t: real): (h: real)
    requires tents != []
    ensures forall k :: k in tents ==> Slope(k, rate, t) <= h
    ensures exists k :: k in tents && Slope(k, rate, t) == h
  {
    if |tents| == 1 then assert tents[0] in tents; Slope(tents[0], rate, t)
    else
      var n := |tents| - 1;
      assert tents == tents[..n] + [tents[n]];
      var h, last := Roof(tents[..n], rate, t), Slope(tents[n], rate, t);
      assert tents[n] in tents;
      if h < last then last else h
  }

  /** How much the offset may change while this much passes. */
  function Allowed(rate: real, passed: real): real { rate * passed }

  lemma Product(x: real, y: real)
    requires 0.0 <= x && 0.0 <= y
    ensures 0.0 <= x * y
  {
  }

  lemma SlopeChange(k: Tent, rate: real, s: real, t: real)
    requires 0.0 <= rate && s <= t
    ensures -Allowed(rate, t - s) <= Slope(k, rate, t) - Slope(k, rate, s) <= Allowed(rate, t - s)
  {
    var d, e := RealAbs(t - k.at), RealAbs(s - k.at);
    assert -(t - s) <= d - e <= t - s;
    Product(rate, (t - s) - (d - e));
    Product(rate, (t - s) + (d - e));
    assert rate * ((t - s) - (d - e)) == rate * (t - s) - rate * d + rate * e;
    assert rate * ((t - s) + (d - e)) == rate * (t - s) + rate * d - rate * e;
  }

  ghost function Highest(tents: seq<Tent>, rate: real, t: real): (k: Tent)
    requires tents != []
    ensures k in tents && Slope(k, rate, t) == Roof(tents, rate, t)
  {
    if |tents| == 1 then assert tents[0] in tents; tents[0]
    else
      var n := |tents| - 1;
      assert tents == tents[..n] + [tents[n]];
      if Roof(tents[..n], rate, t) < Slope(tents[n], rate, t) then assert tents[n] in tents; tents[n]
      else Highest(tents[..n], rate, t)
  }

  lemma RoofIs(tents: seq<Tent>, rate: real, t: real, i: nat)
    requires i < |tents| && forall j :: 0 <= j < |tents| ==> Slope(tents[j], rate, t) <= Slope(tents[i], rate, t)
    ensures Roof(tents, rate, t) == Slope(tents[i], rate, t)
  {
    assert tents[i] in tents;
    hide Slope, Roof;
    var k := Highest(tents, rate, t);
  }

  /** The offset changes by at most the rate. */
  lemma RoofChange(tents: seq<Tent>, rate: real, s: real, t: real)
    requires tents != [] && 0.0 <= rate && s <= t
    ensures -Allowed(rate, t - s) <= Roof(tents, rate, t) - Roof(tents, rate, s) <= Allowed(rate, t - s)
  {
    var j, k := Highest(tents, rate, t), Highest(tents, rate, s);
    SlopeChange(j, rate, s, t);
    SlopeChange(k, rate, s, t);
    hide Slope, Roof, Allowed;
  }

  /** What a clock shows that is ahead by the offset. */
  function Ahead(tents: seq<Tent>, rate: real, t: real): real
    requires tents != []
  {
    t + Roof(tents, rate, t)
  }

  lemma AheadGrows(tents: seq<Tent>, rate: real, s: real, t: real)
    requires tents != [] && 0.0 <= rate <= 1.0 && s <= t
    ensures Ahead(tents, rate, s) <= Ahead(tents, rate, t)
  {
    RoofChange(tents, rate, s, t);
    AtMostWhole(rate, t - s);
    hide Roof, Allowed;
  }

  lemma AtMostWhole(rate: real, x: real)
    requires 0.0 <= rate <= 1.0 && 0.0 <= x
    ensures Allowed(rate, x) <= x
  {
    Product(1.0 - rate, x);
    assert (1.0 - rate) * x == x - rate * x;
  }

  lemma OneTent(k: Tent, rate: real, t: real)
    ensures Ahead([k], rate, t) == t + Slope(k, rate, t)
  {
  }

  /** One tent's clock shows every reading between two. */
  lemma TentCrosses(k: Tent, rate: real, from: real, to: real, shown: real) returns (t: real)
    requires 0.0 <= rate <= 1.0 && from <= to
    requires Ahead([k], rate, from) <= shown <= Ahead([k], rate, to)
    ensures from <= t <= to && Ahead([k], rate, t) == shown
  {
    var root := Root(k, rate, to, shown);
    if root < from {
      AheadGrows([k], rate, root, from);
      t := from;
    } else if root > to {
      AheadGrows([k], rate, to, root);
      t := to;
    } else {
      t := root;
    }
  }

  lemma Divided(x: real, y: real) returns (q: real)
    requires 0.0 <= x && 0.0 < y
    ensures 0.0 <= q && q * y == x
  {
    q := x / y;
    assert q * y == x;
    if q < 0.0 { Product(-q, y); }
  }

  /** A tent's clock left and right of its top. */
  lemma Sides(k: Tent, rate: real, d: real)
    requires 0.0 <= d
    ensures Ahead([k], rate, k.at - d) == k.at + k.height - d - Allowed(rate, d)
    ensures Ahead([k], rate, k.at + d) == k.at + k.height + d - Allowed(rate, d)
  {
    OneTent(k, rate, k.at - d);
    OneTent(k, rate, k.at + d);
    assert RealAbs((k.at - d) - k.at) == d && RealAbs((k.at + d) - k.at) == d;
    hide Ahead, RealAbs;
  }

  /** Only a slower drift than the clock's own rate lets it pass the top. */
  lemma PassesTop(k: Tent, rate: real, to: real, shown: real)
    requires 0.0 <= rate <= 1.0 && shown <= Ahead([k], rate, to) && k.at + k.height < shown
    ensures rate < 1.0
  {
    if to <= k.at {
      Sides(k, rate, k.at - to);
      Product(rate, k.at - to);
    } else {
      Sides(k, rate, to - k.at);
      assert rate == 1.0 ==> Allowed(rate, to - k.at) == to - k.at;
    }
    hide Ahead;
  }

  lemma Shares(rate: real, d: real)
    ensures d * (1.0 + rate) == d + Allowed(rate, d) && d * (1.0 - rate) == d - Allowed(rate, d)
  {
  }

  lemma Root(k: Tent, rate: real, to: real, shown: real) returns (t: real)
    requires 0.0 <= rate <= 1.0 && shown <= Ahead([k], rate, to)
    ensures Ahead([k], rate, t) == shown
  {
    hide Ahead, Allowed;
    var rise := shown - k.at - k.height;
    if rise <= 0.0 {
      var d := Divided(-rise, 1.0 + rate);
      Shares(rate, d);
      Sides(k, rate, d);
      t := k.at - d;
    } else {
      PassesTop(k, rate, to, shown);
      var d := Divided(rise, 1.0 - rate);
      Shares(rate, d);
      Sides(k, rate, d);
      t := k.at + d;
    }
  }

  lemma RoofSnoc(tents: seq<Tent>, k: Tent, rate: real, t: real)
    requires tents != []
    ensures var a, b := Ahead(tents, rate, t), Ahead([k], rate, t);
      Ahead(tents + [k], rate, t) == if a < b then b else a
  {
    assert (tents + [k])[..|tents|] == tents;
  }

  /** And so does the roof's. */
  lemma {:induction false} RoofCrosses(tents: seq<Tent>, rate: real, from: real, to: real, shown: real)
    returns (t: real)
    requires tents != [] && 0.0 <= rate <= 1.0 && from <= to
    requires Ahead(tents, rate, from) <= shown <= Ahead(tents, rate, to)
    ensures from <= t <= to && Ahead(tents, rate, t) == shown
  {
    if |tents| == 1 {
      assert tents == [tents[0]];
      t := TentCrosses(tents[0], rate, from, to, shown);
    } else {
      var n := |tents| - 1;
      var rest, k := tents[..n], tents[n];
      assert tents == rest + [k];
      hide Ahead;
      RoofSnoc(rest, k, rate, from);
      RoofSnoc(rest, k, rate, to);
      if shown <= Ahead(rest, rate, to) {
        t := RoofCrosses(rest, rate, from, to, shown);
        RoofSnoc(rest, k, rate, t);
        if shown < Ahead([k], rate, t) {
          var u := TentCrosses(k, rate, from, t, shown);
          AheadGrows(rest, rate, u, t);
          RoofSnoc(rest, k, rate, u);
          t := u;
        }
      } else {
        t := TentCrosses(k, rate, from, to, shown);
        AheadGrows(rest, rate, t, to);
        RoofSnoc(rest, k, rate, t);
      }
    }
  }
}
