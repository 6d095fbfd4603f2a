/** Per-listing unit economics, as get_kpis computes them column-wise. */
module KpiCalculator {
  import opened Values

  const Price := "price"
  const Beds := "beds"
  const Baths := "baths"
  const BuildingSizeSize := "building_size_size"
  const PricePerSqft := "price_per_sqft"
  const PricePerBeds := "price_per_beds"
  const PricePerBath := "price_per_bath"

  const KpiColumns: set<string> := {PricePerSqft, PricePerBeds, PricePerBath}

  /** The columns get_kpis reads, in the order it reads them. */
  const KpiInputs: seq<string> := [Price, BuildingSizeSize, Beds, Baths]

  /** Element-wise division of two cells. A number over a non-zero number is
      a number that, multiplied back by the divisor, gives the numerator; a
      zero, missing or non-numeric operand gives `Undefined` instead of an
      error. */
  function Quotient(n: Value, d: Value): (q: Value)
    ensures q.Num? <==> n.Num? && d.Num? && d.x != 0.0
    ensures q.Num? ==> q.x * d.x == n.x
    ensures !q.Num? ==> q == Undefined
  {
    if n.Num? && d.Num? && d.x != 0.0 then Num(n.x / d.x) else Undefined
  }

  /** `after` is `before` with the cell `target` set to `v` and every other
      cell kept. */
  predicate Assigned(before: Record, after: Record, target: string, v: Value)
  {
    && after.Keys == before.Keys + {target}
    && after[target] == v
    && forall k :: k in before && k != target ==> after[k] == before[k]
  }

  /** `df.loc[:, target] = df[num] / df[den]` on the rows of a frame: each
      row gains (or has overwritten) the cell `target`, holding the quotient
      of its own `num` and `den` cells, and keeps every other cell. */
  function AssignQuotient(rows: seq<Record>, target: string, num: string, den: string): (r: seq<Record>)
    ensures |r| == |rows|
    ensures forall i :: 0 <= i < |rows| ==>
      Assigned(rows[i], r[i], target, Quotient(Field(rows[i], num), Field(rows[i], den)))
  {
    seq(|rows|, i requires 0 <= i < |rows| => rows[i][target := Quotient(Field(rows[i], num), Field(rows[i], den))])
  }

  /** `after` is `before` with the three KPI cells set and nothing else changed. */
  predicate KpiRow(before: Record, after: Record)
  {
    && after.Keys == before.Keys + KpiColumns
    && (forall k :: k in before && k !in KpiColumns ==> after[k] == before[k])
    && after[PricePerSqft] == Quotient(Field(before, Price), Field(before, BuildingSizeSize))
    && after[PricePerBeds] == Quotient(Field(before, Price), Field(before, Beds))
    && after[PricePerBath] == Quotient(Field(before, Price), Field(before, Baths))
  }

  /** The three column assignments of get_kpis on a frame that has every
      input column: the row count is kept and every row gains exactly the
      three KPI cells. */
  function AddKpis(rows: seq<Record>): (r: seq<Record>)
    ensures |r| == |rows|
    ensures forall i :: 0 <= i < |rows| ==> KpiRow(rows[i], r[i])
  {
    var r1 := AssignQuotient(rows, PricePerSqft, Price, BuildingSizeSize);
    var r2 := AssignQuotient(r1, PricePerBeds, Price, Beds);
    var r3 := AssignQuotient(r2, PricePerBath, Price, Baths);
    assert forall i :: 0 <= i < |rows| ==> KpiRow(rows[i], r3[i]) by {
      forall i | 0 <= i < |rows| ensures KpiRow(rows[i], r3[i]) {
        KpiSteps(rows[i], r1[i], r2[i], r3[i]);
      }
    }
    r3
  }

  /** get_kpis. Reading a column the frame lacks raises `KeyError` (the
      first absent one in reading order); otherwise the row count is kept
      and every row gains exactly the three KPI cells. */
  function GetKpis(rows: seq<Record>): (r: Checked<seq<Record>>)
    ensures r.Ok? <==> forall c :: c in KpiInputs ==> HasColumn(rows, c)
    ensures r.KeyError? ==> r.column in KpiInputs && !HasColumn(rows, r.column)
    ensures r.Ok? ==> |r.value| == |rows| && forall i :: 0 <= i < |rows| ==> KpiRow(rows[i], r.value[i])
  {
    InputsPresent(rows);
    if !HasColumn(rows, Price) then KeyError(Price)
    else if !HasColumn(rows, BuildingSizeSize) then KeyError(BuildingSizeSize)
    else if !HasColumn(rows, Beds) then KeyError(Beds)
    else if !HasColumn(rows, Baths) then KeyError(Baths)
    else Ok(AddKpis(rows))
  }

  /** The input columns, one by one. */
  lemma InputsPresent(rows: seq<Record>)
    ensures (forall c :: c in KpiInputs ==> HasColumn(rows, c)) <==>
      HasColumn(rows, Price) && HasColumn(rows, BuildingSizeSize) && HasColumn(rows, Beds) && HasColumn(rows, Baths)
  {
    assert KpiInputs[0] == Price && KpiInputs[1] == BuildingSizeSize;
    assert KpiInputs[2] == Beds && KpiInputs[3] == Baths;
  }

  /** The three column assignments of get_kpis, seen on one row. */
  lemma KpiSteps(before: Record, mid1: Record, mid2: Record, after: Record)
    requires Assigned(before, mid1, PricePerSqft, Quotient(Field(before, Price), Field(before, BuildingSizeSize)))
    requires Assigned(mid1, mid2, PricePerBeds, Quotient(Field(mid1, Price), Field(mid1, Beds)))
    requires Assigned(mid2, after, PricePerBath, Quotient(Field(mid2, Price), Field(mid2, Baths)))
    ensures KpiRow(before, after)
  {
    assert Field(mid1, Price) == Field(before, Price) && Field(mid1, Beds) == Field(before, Beds);
    assert Field(mid2, Price) == Field(before, Price) && Field(mid2, Baths) == Field(before, Baths);
  }

  /** With a defined, non-zero divisor each KPI is the exact quotient; a zero
      or missing divisor leaves it undefined. */
  lemma KpiValues(before: Record, after: Record, p: real)
    requires KpiRow(before, after)
    requires Field(before, Price) == Num(p)
    ensures forall d: real :: Field(before, BuildingSizeSize) == Num(d) && d != 0.0 ==> after[PricePerSqft] == Num(p / d)
    ensures forall d: real :: Field(before, Beds) == Num(d) && d != 0.0 ==> after[PricePerBeds] == Num(p / d)
    ensures forall d: real :: Field(before, Baths) == Num(d) && d != 0.0 ==> after[PricePerBath] == Num(p / d)
    ensures Field(before, Beds) in {Num(0.0), Undefined} ==> after[PricePerBeds] == Undefined
    ensures Field(before, Baths) in {Num(0.0), Undefined} ==> after[PricePerBath] == Undefined
    ensures Field(before, BuildingSizeSize) in {Num(0.0), Undefined} ==> after[PricePerSqft] == Undefined
  {
  }
}
