/**
 * The human-readable file size of the file-size histogram script: a size in
 * bytes is divided by 1024 until it drops below 1024, and reported with the
 * unit reached.
 */
module PlotFileSizes {

  /** The units `format_bytes` steps through; `PB` is the fallback after `TB`. */
  const Units: seq<string> := ["B", "KB", "MB", "GB", "TB", "PB"]

  /** `size` divided by 1024, `k` times over. */
  function Scaled(size: real, k: nat): real {
    if k == 0 then size else Scaled(size, k - 1) / 1024.0
  }

  /** 1024 to the power `k`. */
  function Pow1024(k: nat): (p: real)
    ensures p >= 1.0
  {
    if k == 0 then 1.0 else 1024.0 * Pow1024(k - 1)
  }

  /** Repeated division by 1024 is division by a power of 1024. */
  lemma {:induction false} ScaledIsDivision(size: real, k: nat)
    ensures Scaled(size, k) == size / Pow1024(k)
  {
    if k > 0 {
      ScaledIsDivision(size, k - 1);
      DivideTwice(size, Pow1024(k - 1));
    }
  }

  lemma DivideTwice(x: real, p: real)
    requires p >= 1.0
    ensures (x / p) / 1024.0 == x / (1024.0 * p)
  {
    var a := x / p;
    assert a * p == x;
    assert (a / 1024.0) * (1024.0 * p) == a * p;
  }

  /** The number of divisions before the value drops below 1024, at most five. */
  function UnitIndex(size: real): (k: nat)
    ensures k <= 5
    ensures k < 5 ==> Scaled(size, k) < 1024.0
    ensures forall j :: 0 <= j < k ==> Scaled(size, j) >= 1024.0
  {
    UnitFrom(size, 0)
  }

  function UnitFrom(size: real, j: nat): (k: nat)
    requires j <= 5
    ensures j <= k <= 5
    ensures k < 5 ==> Scaled(size, k) < 1024.0
    ensures forall i :: j <= i < k ==> Scaled(size, i) >= 1024.0
    decreases 5 - j
  {
    if j == 5 || Scaled(size, j) < 1024.0 then j else UnitFrom(size, j + 1)
  }

  /**
   * `format_bytes(size_bytes)` without the one-decimal rendering: the value
   * and the unit it is shown in.
   */
  method FormatBytes(sizeBytes: real) returns (value: real, unit: string)
    ensures unit == Units[UnitIndex(sizeBytes)]
    ensures value == sizeBytes / Pow1024(UnitIndex(sizeBytes))
    ensures sizeBytes < 1024.0 ==> unit == "B" && value == sizeBytes
    ensures unit != "PB" ==> value < 1024.0
    ensures unit != "B" ==> value >= 1.0
  {
    value := sizeBytes;
    var k := 0;
    while k < 5
      invariant 0 <= k <= 5
      invariant value == Scaled(sizeBytes, k)
      invariant forall j :: 0 <= j < k ==> Scaled(sizeBytes, j) >= 1024.0
    {
      if value < 1024.0 {
        break;
      }
      value := value / 1024.0;
      k := k + 1;
    }
    assert k == UnitIndex(sizeBytes);
    unit := Units[k];
    ScaledIsDivision(sizeBytes, k);
    if k > 0 {
      assert Scaled(sizeBytes, k - 1) >= 1024.0;
    }
  }
}
