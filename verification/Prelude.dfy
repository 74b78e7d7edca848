/** Vocabulary shared by every component: optional values, list flattening,
    finite ranges and counting. */
module Prelude {
  datatype Option<+T> = None | Some(value: T)

  /** Concatenates a list of lists. Defined from the right because every log in
      the system grows at its end. */
  function Flatten<T>(ss: seq<seq<T>>): (r: seq<T>)
  {
    if |ss| == 0 then [] else Flatten(ss[..|ss| - 1]) + ss[|ss| - 1]
  }

  lemma FlattenAppend<T>(ss: seq<seq<T>>, s: seq<T>)
    ensures Flatten(ss + [s]) == Flatten(ss) + s
  {
    assert (ss + [s])[..|ss|] == ss;
  }

  lemma FlattenPrefix<T>(ss: seq<seq<T>>, n: nat)
    requires 0 < n <= |ss|
    ensures Flatten(ss[..n]) == Flatten(ss[..n - 1]) + ss[n - 1]
  {
    assert ss[..n][..n - 1] == ss[..n - 1];
  }

  lemma {:induction false} FlattenConcat<T>(a: seq<seq<T>>, b: seq<seq<T>>)
    ensures Flatten(a + b) == Flatten(a) + Flatten(b)
    decreases |b|
  {
    if |b| == 0 {
      assert a + b == a;
    } else {
      var b' := b[..|b| - 1];
      assert a + b == (a + b') + [b[|b| - 1]];
      FlattenAppend(a + b', b[|b| - 1]);
      FlattenConcat(a, b');
    }
  }

  /** When every list has the same width, the k-th list is the k-th slice of the
      concatenation, whatever follows it. */
  lemma {:induction false} FlattenSlice<T>(ss: seq<seq<T>>, width: nat, k: nat, tail: seq<T>)
    requires forall i | 0 <= i < |ss| :: |ss[i]| == width
    requires k < |ss|
    ensures |Flatten(ss)| == width * |ss|
    ensures 0 <= width * k <= width * k + width <= |Flatten(ss)|
    ensures (Flatten(ss) + tail)[width * k..width * k + width] == ss[k]
    decreases |ss|
  {
    var init, last := ss[..|ss| - 1], ss[|ss| - 1];
    FlattenWidth(init, width);
    assert width * |ss| == width * |init| + width;
    assert Flatten(ss) + tail == Flatten(init) + (last + tail);
    if k < |init| {
      FlattenSlice(init, width, k, last + tail);
    }
  }

  lemma {:induction false} FlattenWidth<T>(ss: seq<seq<T>>, width: nat)
    requires forall i | 0 <= i < |ss| :: |ss[i]| == width
    ensures |Flatten(ss)| == width * |ss|
    decreases |ss|
  {
    if |ss| > 0 {
      FlattenWidth(ss[..|ss| - 1], width);
      assert width * |ss| == width * (|ss| - 1) + width;
    }
  }

  function Lesser(a: int, b: int): (r: int) { if a <= b then a else b }

  function Greater(a: int, b: int): (r: int) { if a >= b then a else b }

  /** Division by a positive number keeps the order. */
  lemma QuotientGap(x: real, y: real, n: real)
    requires n > 0.0
    ensures y / n - x / n == (y - x) / n
    ensures x <= y ==> (y - x) / n >= 0.0
  {
  }

  // ------------------------------------------------------------ rounding

  /** The nearest integer, ties to even. */
  function RoundUnit(x: real): (n: int)
  {
    var f := x.Floor;
    var d := x - f as real;
    if d < 0.5 || (d == 0.5 && f % 2 == 0) then f else f + 1
  }

  /** `round(x, k)` over the reals, for a scale of 10 to the k. */
  function RoundAt(x: real, scale: real): (r: real)
    requires scale > 0.0
  {
    RoundUnit(x * scale) as real / scale
  }

  lemma RoundUnitLaws(x: real, y: real)
    ensures x - 0.5 <= RoundUnit(x) as real <= x + 0.5
    ensures x <= y ==> RoundUnit(x) <= RoundUnit(y)
    ensures x == x.Floor as real ==> RoundUnit(x) == x.Floor
  {
    if x <= y {
      assert x.Floor <= y.Floor;
    }
  }

  /** {0, ..., n-1} */
  function Below(n: nat): (s: set<nat>)
    ensures forall i: nat :: i in s <==> i < n
    ensures |s| == n
  {
    if n == 0 then {} else Below(n - 1) + {n - 1}
  }

  lemma {:induction false} SubsetSize<T>(s: set<T>, t: set<T>)
    requires s <= t
    ensures |s| <= |t|
    ensures |s| == |t| ==> s == t
  {
    if s != {} {
      var x :| x in s;
      SubsetSize(s - {x}, t - {x});
    }
  }
}
