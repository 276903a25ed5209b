/** The unit choice of `human_readable_size`, over integers. */
module SizeFormatter {
  /** The units tried in turn; a size no unit fits is given in `PB`. */
  const Units: seq<string> := ["B", "KB", "MB", "GB", "TB"]
  const Overflow: string := "PB"

  /** 1024 to the power `k`: the divisor applied to the size before unit `k` is tried. */
  function Power1024(k: nat): (r: nat)
    ensures r >= 1
  {
    if k == 0 then 1 else 1024 * Power1024(k - 1)
  }

  /** Dividing by 1024 at each unit that does not fit: `size / 1024^k < 1024` holds
      exactly when `size < 1024^(k + 1)`, so the unit is the first whose next power
      exceeds the size. Returns the unit's position and label, `PB` at position 5. */
  method UnitFor(sizeBytes: nat) returns (k: nat, unit: string)
    ensures k <= |Units|
    ensures unit == if k < |Units| then Units[k] else Overflow
    ensures k < |Units| ==> sizeBytes < Power1024(k + 1)
    ensures forall j :: 1 <= j <= k ==> sizeBytes >= Power1024(j)
  {
    var scale := 1;
    k := 0;
    while k < |Units|
      invariant 0 <= k <= |Units|
      invariant scale == Power1024(k)
      invariant forall j :: 1 <= j <= k ==> sizeBytes >= Power1024(j)
    {
      assert scale * 1024 == Power1024(k + 1);
      if sizeBytes < scale * 1024 {
        unit := Units[k];
        return;
      }
      scale := scale * 1024;
      k := k + 1;
    }
    unit := Overflow;
  }
}
