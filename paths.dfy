/** Artifact-store paths of the per-zip datasets. */
module Paths {

  /** The two listing kinds the pipeline downloads. */
  datatype Kind = Rental | Sale

  const RentalPrefix := "data/rentals_"
  const SalePrefix := "data/sales_"
  const Extension := ".csv"

  function Prefix(kind: Kind): string
  {
    if kind.Rental? then RentalPrefix else SalePrefix
  }

  /** `data/rentals_<zip>.csv` or `data/sales_<zip>.csv`: the kind's prefix,
      then the zip code, then the extension, and nothing else. */
  function PathFor(kind: Kind, zip: string): (p: string)
    ensures |p| == |Prefix(kind)| + |zip| + |Extension|
    ensures p[..|Prefix(kind)|] == Prefix(kind)
    ensures p[|Prefix(kind)|..|Prefix(kind)| + |zip|] == zip
    ensures p[|Prefix(kind)| + |zip|..] == Extension
  {
    var p := Prefix(kind) + zip + Extension;
    assert p[..|Prefix(kind)|] == Prefix(kind);
    assert p[|Prefix(kind)|..|Prefix(kind)| + |zip|] == zip;
    assert p[|Prefix(kind)| + |zip|..] == Extension;
    p
  }

  /** Distinct (kind, zip) pairs never share an artifact, so a write for one
      dataset key leaves every other key's artifact alone. */
  lemma {:induction false} PathInjective(k1: Kind, z1: string, k2: Kind, z2: string)
    requires PathFor(k1, z1) == PathFor(k2, z2)
    ensures k1 == k2 && z1 == z2
  {
    var p := PathFor(k1, z1);
    assert p[5] == p[..|Prefix(k1)|][5] == Prefix(k1)[5];
    assert p[5] == p[..|Prefix(k2)|][5] == Prefix(k2)[5];
    assert RentalPrefix[5] != SalePrefix[5];
    assert k1 == k2;
    assert |z1| == |z2|;
  }
}
