/** `sizeConversion` (main.go:103-115): the 1024-based unit ladder, without
    the string formatting. */
module UnitLadder {

  /** The unit labels, in order.  There is no "PiB": index 5 is labelled
      "EiB" and index 6 "ZiB". */
  const Units: seq<string> := ["B", "KiB", "MiB", "GiB", "TiB", "EiB", "ZiB"]

  function Pow1024(n: nat): (p: nat)
    ensures p >= 1
  {
    if n == 0 then 1 else 1024 * Pow1024(n - 1)
  }

  /** Where the ladder stops: a unit index with its label, or an index one
      past the end of `Units`, where `units[i]` panics. */
  datatype Conversion =
    | Labelled(index: nat, value: real, unit: string)
    | IndexOutOfRange(index: nat, value: real)

  /** Divide by 1024 while the value is at least 1024 and the index is
      below `|Units|`.  The index reached is the least `i` with
      `size / 1024^i < 1024`, capped at `|Units|`; the value is
      `size / 1024^i`; a label exists exactly when `size < 1024^7`. */
  method SizeConversion(size: real) returns (r: Conversion)
    ensures r.index <= |Units|
    ensures r.value * (Pow1024(r.index) as real) == size
    ensures forall j :: 1 <= j <= r.index ==> Pow1024(j) as real <= size
    ensures r.index < |Units| ==> size < Pow1024(r.index + 1) as real
    ensures r.Labelled? <==> size < Pow1024(|Units|) as real
    ensures r.Labelled? ==> r.index < |Units| && r.unit == Units[r.index]
  {
    var i: nat := 0;
    var s := size;
    if s >= 1024.0 {
      while i < |Units| && s >= 1024.0
        invariant i <= |Units|
        invariant s == Shrunk(size, i)
        invariant forall j :: 1 <= j <= i ==> Pow1024(j) as real <= size
      {
        LadderStep(size, i);
        i := i + 1;
        s := s / 1024.0;
      }
    }
    ShrunkScales(size, i);
    if i < |Units| {
      LadderStop(size, i);
      r := Labelled(i, s, Units[i]);
    } else {
      r := IndexOutOfRange(i, s);
    }
  }

  /** `size` divided by 1024, `i` times. */
  function Shrunk(size: real, i: nat): real {
    if i == 0 then size else Shrunk(size, i - 1) / 1024.0
  }

  lemma {:induction false} ShrunkScales(size: real, i: nat)
    ensures Shrunk(size, i) * (Pow1024(i) as real) == size
  {
    if i > 0 {
      ShrunkScales(size, i - 1);
      DivideThenScale(Shrunk(size, i - 1), Pow1024(i - 1) as real);
    }
  }

  /** Taking one more step means `size >= 1024^(i+1)`. */
  lemma LadderStep(size: real, i: nat)
    requires Shrunk(size, i) >= 1024.0
    ensures Pow1024(i + 1) as real <= size
  {
    ShrunkScales(size, i);
    ScaleAbove(Shrunk(size, i), Pow1024(i) as real);
  }

  /** Stopping below 1024 places `size` below `1024^(i+1)`, and, before the
      end of the labels, below `1024^|Units|`. */
  lemma LadderStop(size: real, i: nat)
    requires i < |Units| && Shrunk(size, i) < 1024.0
    ensures size < Pow1024(i + 1) as real
    ensures size < Pow1024(|Units|) as real
  {
    ShrunkScales(size, i);
    ScaleBelow(Shrunk(size, i), Pow1024(i) as real, size);
    assert Pow1024(i + 1) as real == 1024.0 * (Pow1024(i) as real);
    PowMonotone(i + 1, |Units|);
  }

  // The three nonlinear steps of the ladder, stated apart so that the
  // solver proves each without the recursive definitions in view.

  lemma DivideThenScale(a: real, p: real)
    ensures (a / 1024.0) * (1024.0 * p) == a * p
  {
  }

  lemma ScaleAbove(s: real, p: real)
    requires p >= 1.0 && s >= 1024.0
    ensures 1024.0 * p <= s * p
  {
  }

  lemma ScaleBelow(s: real, p: real, size: real)
    requires p >= 1.0 && s < 1024.0 && s * p == size
    ensures size < 1024.0 * p
  {
  }

  lemma {:induction false} PowMonotone(a: nat, b: nat)
    requires a <= b
    ensures Pow1024(a) <= Pow1024(b)
    decreases b
  {
    if a < b {
      PowMonotone(a, b - 1);
    }
  }
}
