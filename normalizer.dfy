/** Flattening of the nested `address`, `lot_size` and `building_size`
    sub-objects of each listing into top-level columns, as the loop over
    `cols_to_expand` does in gen_rental_data and gen_sales_data. */
module Normalizer {
  import opened Values
  import opened Paths

  const Address := "address"
  const LotSize := "lot_size"
  const BuildingSize := "building_size"
  const LotPrefix := "lot_size_"
  const BuildingPrefix := "building_size_"

  /** The nested columns; none of them survives flattening. */
  const NestedColumns: set<string> := {Address, LotSize, BuildingSize}

  /** The rental download expands address, lot_size, building_size; the sale
      download expands address, building_size, lot_size. */
  const RentalOrder: seq<string> := [Address, LotSize, BuildingSize]
  const SaleOrder: seq<string> := [Address, BuildingSize, LotSize]

  function ExpandOrder(kind: Kind): seq<string>
  {
    if kind.Rental? then RentalOrder else SaleOrder
  }

  /** The column `pd.Series` gives a scalar: its single element sits at index 0. */
  const ScalarKey := "0"

  /** The sub-fields `apply(pd.Series)` makes of one cell: an object's own
      fields, a scalar under `ScalarKey`, and nothing for JSON null. */
  function SubFields(v: Value): (r: map<string, Value>)
    ensures v.Object? ==> r == v.fields
    ensures (v.Num? || v.Text?) ==> r.Keys == {ScalarKey} && r[ScalarKey] == v
    ensures v.Undefined? ==> r == map[]
  {
    match v
    case Object(fields) => fields
    case Undefined => map[]
    case _ => map[ScalarKey := v]
  }

  predicate StartsWith(prefix: string, j: string)
  {
    |prefix| <= |j| && j[..|prefix|] == prefix
  }

  /** `m` with every key renamed `prefix + key` (pandas `add_prefix`). */
  function WithPrefix(prefix: string, m: map<string, Value>): (r: map<string, Value>)
    ensures forall k :: k in m ==> prefix + k in r && r[prefix + k] == m[k]
    ensures forall j :: j in r ==>
      StartsWith(prefix, j) && j[|prefix|..] in m && r[j] == m[j[|prefix|..]]
  {
    PrefixCancels(prefix);
    var r := map k | k in m :: prefix + k := m[k];
    forall j | j in r
      ensures StartsWith(prefix, j) && j[|prefix|..] in m && r[j] == m[j[|prefix|..]]
    {
      var k :| k in m && j == prefix + k;
      assert j[|prefix|..] == k;
    }
    r
  }

  lemma PrefixCancels(prefix: string)
    ensures forall k1, k2 {:trigger prefix + k1, prefix + k2} :: prefix + k1 == prefix + k2 ==> k1 == k2
  {
    forall k1, k2 | prefix + k1 == prefix + k2 ensures k1 == k2 {
      assert (prefix + k1)[|prefix|..] == k1;
      assert (prefix + k2)[|prefix|..] == k2;
    }
  }

  /** What one nested column contributes to its row: `address` sub-fields
      under their own names, the others under `<col>_<sub>`. */
  function Expansion(col: string, v: Value): map<string, Value>
  {
    if col == Address then SubFields(v) else WithPrefix(col + "_", SubFields(v))
  }

  /** One row after `pd.concat([df.drop(col), df[col].apply(pd.Series)...])`:
      the nested column is dropped and its sub-fields are merged in. */
  function ExpandCell(row: Record, col: string): Record
  {
    (row - {col}) + (if col in row then Expansion(col, row[col]) else map[])
  }

  /** What expanding `col` does to one row: a row without the column is
      unchanged; otherwise each sub-field `s` of the cell appears under
      `SubName(col, s)` with its value, every other cell is kept unless a
      sub-field overrides it, and no other key appears. */
  lemma ExpandCellShape(row: Record, col: string)
    ensures var r := ExpandCell(row, col);
      && (col !in row ==> r == row)
      && (col in row ==> forall s :: s in SubFields(row[col]) ==>
            SubName(col, s) in r && r[SubName(col, s)] == SubFields(row[col])[s])
      && (forall k :: k in row && k != col && !Contributes(row, col, k) ==> k in r && r[k] == row[k])
      && (forall k :: k in r ==> (k in row && k != col) || Contributes(row, col, k))
  {
    if col in row && col != Address {
      forall s ensures col + "_" + s == (col + "_") + s {
      }
    }
  }

  /** The name a sub-field `s` of `col` gets in the flat row. */
  function SubName(col: string, s: string): string
  {
    if col == Address then s else col + "_" + s
  }

  /** The expansion of `col` in `row` supplies a value for `k`. */
  predicate Contributes(row: Record, col: string, k: string)
  {
    col in row && k in Expansion(col, row[col])
  }

  function ExpandColumn(rows: seq<Record>, col: string): (r: seq<Record>)
    ensures |r| == |rows|
    ensures forall i :: 0 <= i < |rows| ==> r[i] == ExpandCell(rows[i], col)
  {
    seq(|rows|, i requires 0 <= i < |rows| => ExpandCell(rows[i], col))
  }

  /** Expanding a column keeps the row count and removes the column from
      every row, except from a row whose own sub-fields carry its name. */
  lemma ExpandColumnDrops(rows: seq<Record>, col: string)
    ensures |ExpandColumn(rows, col)| == |rows|
    ensures forall i :: 0 <= i < |rows| ==> (col in ExpandColumn(rows, col)[i] <==> Contributes(rows[i], col, col))
  {
  }

  /** The effect on one row of expanding `cols` in order. */
  function FlattenRow(row: Record, cols: seq<string>): Record
    decreases |cols|
  {
    if |cols| == 0 then row
    else ExpandCell(FlattenRow(row, cols[..|cols| - 1]), cols[|cols| - 1])
  }

  /** The loop over `cols_to_expand` applied to a whole frame. Dropping a
      column that no row has raises `KeyError`; otherwise every row is
      flattened on its own. */
  function ExpandColumns(rows: seq<Record>, cols: seq<string>): (r: Checked<seq<Record>>)
    ensures r.Ok? ==> |r.value| == |rows|
    ensures r.Ok? ==> forall i :: 0 <= i < |rows| ==> r.value[i] == FlattenRow(rows[i], cols)
    ensures r.KeyError? ==> r.column in cols
    decreases |cols|
  {
    if |cols| == 0 then Ok(rows)
    else
      match ExpandColumns(rows, cols[..|cols| - 1])
      case KeyError(c) => KeyError(c)
      case Ok(prev) =>
        var col := cols[|cols| - 1];
        if HasColumn(prev, col) then Ok(ExpandColumn(prev, col)) else KeyError(col)
  }

  // ---------------------------------------------------------------------
  // The flat record as a reference definition, independent of any order.

  function AddressFields(row: Record): map<string, Value>
  {
    if Address in row then SubFields(row[Address]) else map[]
  }

  function LotFields(row: Record): map<string, Value>
  {
    if LotSize in row then SubFields(row[LotSize]) else map[]
  }

  function BuildingFields(row: Record): map<string, Value>
  {
    if BuildingSize in row then SubFields(row[BuildingSize]) else map[]
  }

  /** The fields that pass through flattening untouched. */
  function Passthrough(row: Record): map<string, Value>
  {
    row - NestedColumns
  }

  /** Address field names are trusted not to collide with any other field
      name, and prefixed names not to collide with pass-through fields. */
  predicate NoCollision(row: Record)
  {
    var a := AddressFields(row).Keys;
    var l := WithPrefix(LotPrefix, LotFields(row)).Keys;
    var b := WithPrefix(BuildingPrefix, BuildingFields(row)).Keys;
    var p := Passthrough(row).Keys;
    a !! p && a !! NestedColumns && a !! l && a !! b && l !! p && b !! p
  }

  /** The flat record: pass-through fields, address sub-fields, and the
      prefixed lot and building sub-fields. */
  function Flatten(row: Record): Record
  {
    Passthrough(row) + AddressFields(row)
      + WithPrefix(LotPrefix, LotFields(row)) + WithPrefix(BuildingPrefix, BuildingFields(row))
  }

  /** A name under `lot_size_` is no nested column and no `building_size_` name. */
  lemma LotKeyFresh(j: string)
    requires StartsWith(LotPrefix, j)
    ensures j !in NestedColumns && !StartsWith(BuildingPrefix, j)
  {
    assert j[0] == j[..|LotPrefix|][0] == 'l';
  }

  /** A name under `building_size_` is no nested column. */
  lemma BuildingKeyFresh(j: string)
    requires StartsWith(BuildingPrefix, j)
    ensures j !in NestedColumns
  {
    assert j[0] == j[..|BuildingPrefix|][0] == 'b';
  }

  /** Prefixed names are never nested-column names and the two prefixes
      never produce the same name. */
  lemma PrefixedKeysFresh(row: Record)
    ensures WithPrefix(LotPrefix, LotFields(row)).Keys !! NestedColumns
    ensures WithPrefix(BuildingPrefix, BuildingFields(row)).Keys !! NestedColumns
    ensures WithPrefix(LotPrefix, LotFields(row)).Keys !! WithPrefix(BuildingPrefix, BuildingFields(row)).Keys
  {
    var l := WithPrefix(LotPrefix, LotFields(row));
    var b := WithPrefix(BuildingPrefix, BuildingFields(row));
    forall j | j in l ensures j !in NestedColumns && j !in b {
      LotKeyFresh(j);
    }
    forall j | j in b ensures j !in NestedColumns {
      BuildingKeyFresh(j);
    }
  }

  /** Removing a key the merged map does not carry commutes with the merge. */
  lemma DropAfterMerge(m: Record, e: map<string, Value>, c: string)
    requires c !in e
    ensures (m + e) - {c} == (m - {c}) + e
  {
  }

  /** Merging two maps with disjoint keys does not depend on their order. */
  lemma MergeCommutes(m: Record, e1: map<string, Value>, e2: map<string, Value>)
    requires e1.Keys !! e2.Keys
    ensures m + e1 + e2 == m + e2 + e1
  {
  }

  /** Expanding `address` first drops it and merges its sub-fields. */
  lemma ExpandAddressStep(row: Record)
    ensures ExpandCell(row, Address) == (row - {Address}) + AddressFields(row)
  {
  }

  /** Three iterations of the expansion loop on one row. */
  lemma FlattenRowThree(row: Record, c1: string, c2: string, c3: string)
    ensures FlattenRow(row, [c1, c2, c3]) == ExpandCell(ExpandCell(ExpandCell(row, c1), c2), c3)
  {
    assert [c1, c2, c3][..2] == [c1, c2];
    assert [c1, c2][..1] == [c1];
    assert [c1][..0] == [];
    assert FlattenRow(row, [c1]) == ExpandCell(row, c1);
    assert FlattenRow(row, [c1, c2]) == ExpandCell(ExpandCell(row, c1), c2);
  }

  /** Expanding a prefixed column of a partly flattened row `base + acc`
      whose accumulated sub-fields `acc` do not carry the column's name. */
  lemma PrefixedStep(base: Record, acc: map<string, Value>, row: Record, col: string,
                     prefix: string, fields: map<string, Value>)
    requires col == LotSize || col == BuildingSize
    requires prefix == col + "_"
    requires fields == (if col in row then SubFields(row[col]) else map[])
    requires col !in acc
    requires col in base <==> col in row
    requires col in row ==> base[col] == row[col]
    ensures ExpandCell(base + acc, col) == (base - {col}) + (acc + WithPrefix(prefix, fields))
  {
    var m := base + acc;
    var e := WithPrefix(prefix, fields);
    assert col in m <==> col in row;
    assert col in m ==> m[col] == row[col];
    assert (if col in m then Expansion(col, m[col]) else map[]) == e;
    DropAfterMerge(base, acc, col);
    MergeAssoc(base - {col}, acc, e);
  }

  /** The pass-through fields are those left after dropping the three nested columns. */
  lemma PassthroughDrops(row: Record)
    ensures Passthrough(row) == row - {Address} - {LotSize} - {BuildingSize}
    ensures Passthrough(row) == row - {Address} - {BuildingSize} - {LotSize}
  {
    assert NestedColumns == {Address, LotSize, BuildingSize};
  }

  /** Merging is associative. */
  lemma MergeAssoc(x: Record, y: map<string, Value>, z: map<string, Value>)
    ensures x + (y + z) == x + y + z
  {
  }

  /** Expanding in the rental order yields the flat record. */
  lemma {:induction false} RentalFlatten(row: Record)
    requires AddressFields(row).Keys !! NestedColumns
    ensures FlattenRow(row, RentalOrder) == Flatten(row)
  {
    PrefixedKeysFresh(row);
    var p := Passthrough(row);
    var a := AddressFields(row);
    var l := WithPrefix(LotPrefix, LotFields(row));
    var b := WithPrefix(BuildingPrefix, BuildingFields(row));
    var r1 := ExpandCell(row, Address);
    ExpandAddressStep(row);
    var r2 := ExpandCell(r1, LotSize);
    PrefixedStep(row - {Address}, a, row, LotSize, LotPrefix, LotFields(row));
    assert r2 == (row - {Address} - {LotSize}) + (a + l);
    var r3 := ExpandCell(r2, BuildingSize);
    assert BuildingSize !in a + l;
    PrefixedStep(row - {Address} - {LotSize}, a + l, row, BuildingSize, BuildingPrefix, BuildingFields(row));
    PassthroughDrops(row);
    assert r3 == p + ((a + l) + b);
    MergeAssoc(p, a + l, b);
    MergeAssoc(p, a, l);
    FlattenRowThree(row, Address, LotSize, BuildingSize);
  }

  /** Expanding in the sale order yields the flat record. */
  lemma {:induction false} SaleFlatten(row: Record)
    requires AddressFields(row).Keys !! NestedColumns
    ensures FlattenRow(row, SaleOrder) == Flatten(row)
  {
    PrefixedKeysFresh(row);
    var p := Passthrough(row);
    var a := AddressFields(row);
    var l := WithPrefix(LotPrefix, LotFields(row));
    var b := WithPrefix(BuildingPrefix, BuildingFields(row));
    var r1 := ExpandCell(row, Address);
    ExpandAddressStep(row);
    var r2 := ExpandCell(r1, BuildingSize);
    PrefixedStep(row - {Address}, a, row, BuildingSize, BuildingPrefix, BuildingFields(row));
    assert r2 == (row - {Address} - {BuildingSize}) + (a + b);
    var r3 := ExpandCell(r2, LotSize);
    assert LotSize !in a + b;
    PrefixedStep(row - {Address} - {BuildingSize}, a + b, row, LotSize, LotPrefix, LotFields(row));
    PassthroughDrops(row);
    assert r3 == p + ((a + b) + l);
    MergeAssoc(p, a + b, l);
    MergeAssoc(p, a, b);
    MergeCommutes(p + a, l, b);
    FlattenRowThree(row, Address, BuildingSize, LotSize);
  }

  /** Flattening shape: every address sub-field under its own name, every lot
      and building sub-field under `<col>_<sub>`, every other field unchanged,
      and no nested column left. */
  lemma FlattenShape(row: Record, kind: Kind)
    requires NoCollision(row)
    ensures var r := FlattenRow(row, ExpandOrder(kind));
      && r.Keys == Passthrough(row).Keys + AddressFields(row).Keys
           + WithPrefix(LotPrefix, LotFields(row)).Keys
           + WithPrefix(BuildingPrefix, BuildingFields(row)).Keys
      && (forall k :: k in Passthrough(row) ==> r[k] == row[k])
      && (forall k :: k in AddressFields(row) ==> r[k] == AddressFields(row)[k])
      && (forall k :: k in LotFields(row) ==> r[LotPrefix + k] == LotFields(row)[k])
      && (forall k :: k in BuildingFields(row) ==> r[BuildingPrefix + k] == BuildingFields(row)[k])
      && Address !in r && LotSize !in r && BuildingSize !in r
  {
    if kind.Rental? { RentalFlatten(row); } else { SaleFlatten(row); }
    PrefixedKeysFresh(row);
  }

  /** The rental order and the sale order give the same record. */
  lemma FlattenOrderIndependent(row: Record)
    requires NoCollision(row)
    ensures FlattenRow(row, RentalOrder) == FlattenRow(row, SaleOrder)
  {
    RentalFlatten(row);
    SaleFlatten(row);
  }

  /** Expanding `col` neither adds nor removes the nested column `x` when the
      contributed sub-fields never carry that name. */
  lemma HasColumnAfterExpand(rows: seq<Record>, col: string, x: string)
    requires x != col
    requires forall i :: 0 <= i < |rows| && col in rows[i] ==> x !in Expansion(col, rows[i][col])
    ensures HasColumn(ExpandColumn(rows, col), x) <==> HasColumn(rows, x)
  {
    var r := ExpandColumn(rows, col);
    if HasColumn(rows, x) {
      var i :| 0 <= i < |rows| && x in rows[i];
      assert x in r[i];
    }
    if HasColumn(r, x) {
      var i :| 0 <= i < |r| && x in r[i];
      assert x in rows[i];
    }
  }

  /** Prefixed sub-fields never carry a nested-column name. */
  lemma PrefixedExpansionFresh(col: string, v: Value)
    requires col == LotSize || col == BuildingSize
    ensures Expansion(col, v).Keys !! NestedColumns
  {
    assert LotSize + "_" == LotPrefix;
    assert BuildingSize + "_" == BuildingPrefix;
    forall j | j in Expansion(col, v) ensures j !in NestedColumns {
      if col == LotSize { LotKeyFresh(j); } else { BuildingKeyFresh(j); }
    }
  }

  /** The three iterations of the expansion loop written out. */
  lemma ThreeSteps(rows: seq<Record>, c1: string, c2: string)
    ensures ExpandColumns(rows, [Address, c1, c2]) ==
      if !HasColumn(rows, Address) then KeyError(Address)
      else if !HasColumn(ExpandColumn(rows, Address), c1) then KeyError(c1)
      else if !HasColumn(ExpandColumn(ExpandColumn(rows, Address), c1), c2) then KeyError(c2)
      else Ok(ExpandColumn(ExpandColumn(ExpandColumn(rows, Address), c1), c2))
  {
    assert ExpandColumns(rows, []) == Ok(rows);
    assert [] + [Address] == [Address];
    ExpandOneMore(rows, [], Address);
    assert [Address] + [c1] == [Address, c1];
    ExpandOneMore(rows, [Address], c1);
    assert [Address, c1] + [c2] == [Address, c1, c2];
    ExpandOneMore(rows, [Address, c1], c2);
  }

  /** One more iteration of the expansion loop. */
  lemma ExpandOneMore(rows: seq<Record>, cols: seq<string>, c: string)
    ensures ExpandColumns(rows, cols + [c]) ==
      match ExpandColumns(rows, cols)
      case KeyError(k) => KeyError(k)
      case Ok(prev) => if HasColumn(prev, c) then Ok(ExpandColumn(prev, c)) else KeyError(c)
  {
    assert (cols + [c])[..|cols|] == cols;
  }

  /** Over a whole frame: flattening raises `KeyError` exactly when one of the
      three nested columns is absent from every listing, and otherwise every
      row becomes its flat record, whichever order the kind uses. */
  lemma {:induction false} ExpandColumnsFlatten(rows: seq<Record>, kind: Kind)
    requires forall i :: 0 <= i < |rows| ==> NoCollision(rows[i])
    ensures var r := ExpandColumns(rows, ExpandOrder(kind));
      && (r.Ok? <==> HasColumn(rows, Address) && HasColumn(rows, LotSize) && HasColumn(rows, BuildingSize))
      && (r.Ok? ==> |r.value| == |rows| && forall i :: 0 <= i < |rows| ==> r.value[i] == Flatten(rows[i]))
  {
    var order := ExpandOrder(kind);
    var c1, c2 := order[1], order[2];
    assert order == [Address, c1, c2];
    ThreeSteps(rows, c1, c2);
    var r1 := ExpandColumn(rows, Address);
    forall i | 0 <= i < |rows| && Address in rows[i]
      ensures c1 !in Expansion(Address, rows[i][Address]) && c2 !in Expansion(Address, rows[i][Address])
    {
      assert Expansion(Address, rows[i][Address]) == AddressFields(rows[i]);
    }
    HasColumnAfterExpand(rows, Address, c1);
    HasColumnAfterExpand(rows, Address, c2);
    forall i | 0 <= i < |r1| && c1 in r1[i] ensures c2 !in Expansion(c1, r1[i][c1]) {
      PrefixedExpansionFresh(c1, r1[i][c1]);
    }
    HasColumnAfterExpand(r1, c1, c2);
    var r := ExpandColumns(rows, order);
    if r.Ok? {
      forall i | 0 <= i < |rows| ensures r.value[i] == Flatten(rows[i]) {
        if kind.Rental? { RentalFlatten(rows[i]); } else { SaleFlatten(rows[i]); }
      }
    }
  }
}
