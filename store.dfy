/** The key-addressed artifact store the pipeline shares between steps. */
module Store {
  import opened Values
  import KpiCalculator

  const RunDate := "run_date"

  /** A persisted dataset: at least one row, every row stamped with the same
      `run_date`, and every row carrying a `price_per_sqft` cell. */
  predicate IsArtifact(d: Dataset)
  {
    && |d| > 0
    && RunDate in d[0]
    && (forall i :: 0 <= i < |d| ==> RunDate in d[i] && d[i][RunDate] == d[0][RunDate])
    && (forall i :: 0 <= i < |d| ==> KpiCalculator.PricePerSqft in d[i])
  }

  predicate ValidArtifacts(m: map<string, Dataset>)
  {
    forall p :: p in m ==> IsArtifact(m[p])
  }

  class ArtifactStore {
    /** Path to stored dataset; a path that is absent does not exist. */
    var artifacts: map<string, Dataset>

    ghost predicate Valid()
      reads this
    {
      ValidArtifacts(artifacts)
    }

    constructor (initial: map<string, Dataset>)
      requires ValidArtifacts(initial)
      ensures Valid() && artifacts == initial
    {
      artifacts := initial;
    }

    /** `put(path, dataset)`: overwrites the artifact at `path`. */
    method Put(path: string, d: Dataset)
      requires Valid() && IsArtifact(d)
      modifies this
      ensures Valid()
      ensures artifacts == old(artifacts)[path := d]
    {
      artifacts := artifacts[path := d];
    }
  }
}
