/** Daily-idempotent acquisition of one (zip code, listing kind) dataset:
    check_run_today followed by gen_rental_data / gen_sales_data, the two
    copies folded into one operation parameterised by the kind. */
module DatasetManager {
  import opened Values
  import opened Paths
  import opened Normalizer
  import opened KpiCalculator
  import opened Store

  /** The upstream response once parsed: either no usable `properties`
      collection (invalid JSON or the key missing) or the listings. A reply
      that is valid JSON but not an object, or whose `properties` is a
      scalar, makes the source raise an uncaught `TypeError` or
      `ValueError`; such replies lie outside this type. */
  datatype Payload = Malformed | Listings(listings: seq<Record>)

  /** How one acquisition ends. `Retry` is the re-fetch the source starts
      after a malformed payload; `MissingColumn` is the `KeyError` pandas
      raises when a column the step needs is absent from every listing. */
  datatype Outcome =
    | AlreadyCollected
    | Retry
    | NoListings
    | MissingColumn(column: string)
    | Written

  datatype Attempt = Attempt(outcome: Outcome, artifacts: map<string, Dataset>)

  /** check_run_today: nothing when no artifact is stored at `path`,
      otherwise the `run_date` of its first row, which every row shares. */
  function CheckRunToday(artifacts: map<string, Dataset>, path: string): (r: Option<Value>)
    requires ValidArtifacts(artifacts)
    ensures r.None? <==> path !in artifacts
    ensures r.Some? ==> forall i :: 0 <= i < |artifacts[path]| ==> artifacts[path][i][RunDate] == r.value
  {
    if path in artifacts then Some(artifacts[path][0][RunDate]) else None
  }

  /** `df['run_date'] = today` on every row. */
  function StampRunDate(rows: seq<Record>, today: string): (r: seq<Record>)
    ensures |r| == |rows|
    ensures forall i :: 0 <= i < |rows| ==> r[i] == rows[i][RunDate := Text(today)]
  {
    seq(|rows|, i requires 0 <= i < |rows| => rows[i][RunDate := Text(today)])
  }

  /** Flattening, run-date stamping and KPIs, in the source's order. */
  function Prepare(kind: Kind, listings: seq<Record>, today: string): (r: Checked<Dataset>)
    ensures r.Ok? ==> |r.value| == |listings|
    ensures r.Ok? ==> forall i :: 0 <= i < |listings| ==>
      RunDate in r.value[i] && r.value[i][RunDate] == Text(today) && PricePerSqft in r.value[i]
  {
    match ExpandColumns(listings, ExpandOrder(kind))
    case KeyError(c) => KeyError(c)
    case Ok(rows) =>
      var stamped := StampRunDate(rows, today);
      var r := GetKpis(stamped);
      assert r.Ok? ==> forall i :: 0 <= i < |listings| ==>
        RunDate in r.value[i] && r.value[i][RunDate] == Text(today) && PricePerSqft in r.value[i]
      by {
        if r.Ok? {
          forall i | 0 <= i < |listings|
            ensures RunDate in r.value[i] && r.value[i][RunDate] == Text(today) && PricePerSqft in r.value[i]
          {
            StampSurvivesKpis(stamped[i], r.value[i], today);
          }
        }
      }
      r
  }

  /** get_kpis leaves the `run_date` stamp alone and adds `price_per_sqft`. */
  lemma StampSurvivesKpis(before: Record, after: Record, today: string)
    requires KpiRow(before, after)
    requires RunDate in before && before[RunDate] == Text(today)
    ensures RunDate in after && after[RunDate] == Text(today) && PricePerSqft in after
  {
    assert RunDate !in KpiColumns;
  }

  /** One acquisition of `kind` data for `zip` on day `today` against the
      store contents `artifacts`, given the upstream answer `payload`. */
  function Acquisition(artifacts: map<string, Dataset>, kind: Kind, zip: string, today: string,
                       payload: Payload): (a: Attempt)
    requires ValidArtifacts(artifacts)
    ensures ValidArtifacts(a.artifacts)
  {
    var path := PathFor(kind, zip);
    if CheckRunToday(artifacts, path) == Some(Text(today)) then Attempt(AlreadyCollected, artifacts)
    else
      match payload
      case Malformed => Attempt(Retry, artifacts)
      case Listings(listings) =>
        if |listings| == 0 then Attempt(NoListings, artifacts)
        else
          match Prepare(kind, listings, today)
          case KeyError(c) => Attempt(MissingColumn(c), artifacts)
          case Ok(d) => Attempt(Written, artifacts[path := d])
  }

  /** Once a prefix of the expansion loop has raised, the whole loop has. */
  lemma {:induction false} KeyErrorSticks(rows: seq<Record>, cols: seq<string>, n: nat)
    requires n <= |cols|
    requires ExpandColumns(rows, cols[..n]).KeyError?
    ensures ExpandColumns(rows, cols) == ExpandColumns(rows, cols[..n])
    decreases |cols|
  {
    if n < |cols| {
      var shorter := cols[..|cols| - 1];
      assert shorter[..n] == cols[..n];
      KeyErrorSticks(rows, shorter, n);
    } else {
      assert cols[..n] == cols;
    }
  }

  /** One more iteration of the expansion loop. */
  lemma ExpandStep(listings: seq<Record>, cols: seq<string>, i: nat, rows: seq<Record>)
    requires i < |cols|
    requires ExpandColumns(listings, cols[..i]) == Ok(rows)
    ensures ExpandColumns(listings, cols[..i + 1]) ==
      if HasColumn(rows, cols[i]) then Ok(ExpandColumn(rows, cols[i])) else KeyError(cols[i])
  {
    assert cols[..i + 1][..i] == cols[..i];
  }

  /** The loop over `cols_to_expand`, one column at a time; it stops at the
      first column that no row has. */
  method ExpandAll(listings: seq<Record>, cols: seq<string>) returns (r: Checked<seq<Record>>)
    ensures r == ExpandColumns(listings, cols)
  {
    var rows := listings;
    for i := 0 to |cols|
      invariant ExpandColumns(listings, cols[..i]) == Ok(rows)
    {
      ExpandStep(listings, cols, i, rows);
      if !HasColumn(rows, cols[i]) {
        KeyErrorSticks(listings, cols, i + 1);
        return KeyError(cols[i]);
      }
      rows := ExpandColumn(rows, cols[i]);
    }
    assert cols[..|cols|] == cols;
    return Ok(rows);
  }

  /** gen_rental_data / gen_sales_data for the dataset key (kind, zip): the
      imperative rendering of `Acquisition`, step by step in the source's
      order, proved to end in the same outcome and store. */
  method Acquire(store: ArtifactStore, kind: Kind, zip: string, today: string, payload: Payload)
    returns (outcome: Outcome)
    requires store.Valid()
    modifies store
    ensures store.Valid()
    ensures var a := Acquisition(old(store.artifacts), kind, zip, today, payload);
      outcome == a.outcome && store.artifacts == a.artifacts
  {
    var path := PathFor(kind, zip);
    var runCheck := CheckRunToday(store.artifacts, path);
    if runCheck == Some(Text(today)) {
      return AlreadyCollected;
    }
    if payload.Malformed? {
      return Retry;
    }
    if |payload.listings| == 0 {
      return NoListings;
    }
    var expanded := ExpandAll(payload.listings, ExpandOrder(kind));
    if expanded.KeyError? {
      return MissingColumn(expanded.column);
    }
    var rows := StampRunDate(expanded.value, today);
    var kpis := GetKpis(rows);
    assert kpis == Prepare(kind, payload.listings, today);
    if kpis.KeyError? {
      return MissingColumn(kpis.column);
    }
    assert IsArtifact(kpis.value);
    store.Put(path, kpis.value);
    outcome := Written;
  }

  // ---------------------------------------------------------------------
  // Properties of one acquisition and of two in a row.

  /** Staleness skip: when the stored dataset was collected today nothing is
      fetched and the store is unchanged, whatever the upstream would say. */
  lemma StaleSkip(artifacts: map<string, Dataset>, kind: Kind, zip: string, today: string, payload: Payload)
    requires ValidArtifacts(artifacts)
    requires PathFor(kind, zip) in artifacts
    requires artifacts[PathFor(kind, zip)][0][RunDate] == Text(today)
    ensures Acquisition(artifacts, kind, zip, today, payload) == Attempt(AlreadyCollected, artifacts)
  {
  }

  /** A write happens exactly when the stored dataset is not from today, the
      payload has listings and preparing them raises nothing. It touches the
      key `path` alone and stores one row per listing, each stamped `today`;
      every other outcome leaves the store as it was. */
  lemma WriteFrame(artifacts: map<string, Dataset>, kind: Kind, zip: string, today: string, payload: Payload)
    requires ValidArtifacts(artifacts)
    ensures var a := Acquisition(artifacts, kind, zip, today, payload);
      var path := PathFor(kind, zip);
      && (a.outcome.Written? <==>
            && CheckRunToday(artifacts, path) != Some(Text(today))
            && payload.Listings? && |payload.listings| > 0
            && Prepare(kind, payload.listings, today).Ok?)
      && (a.outcome.Written? ==>
            && a.artifacts.Keys == artifacts.Keys + {path}
            && (forall p :: p in artifacts && p != path ==> a.artifacts[p] == artifacts[p])
            && |a.artifacts[path]| == |payload.listings|
            && (forall i :: 0 <= i < |a.artifacts[path]| ==> a.artifacts[path][i][RunDate] == Text(today)))
      && (!a.outcome.Written? ==> a.artifacts == artifacts)
  {
  }

  /** Acquiring one dataset key never changes the artifact of another key:
      the rental and sale datasets of any zip, and those of other zips. */
  lemma OtherKeysUntouched(artifacts: map<string, Dataset>, kind: Kind, zip: string, today: string,
                           payload: Payload, otherKind: Kind, otherZip: string)
    requires ValidArtifacts(artifacts)
    requires (otherKind, otherZip) != (kind, zip)
    ensures var a := Acquisition(artifacts, kind, zip, today, payload);
      var q := PathFor(otherKind, otherZip);
      (q in a.artifacts <==> q in artifacts) && (q in artifacts ==> a.artifacts[q] == artifacts[q])
  {
    if PathFor(otherKind, otherZip) == PathFor(kind, zip) {
      PathInjective(otherKind, otherZip, kind, zip);
    }
  }

  /** Idempotence: right after an acquisition that wrote (or found today's
      data), a second one for the same key on the same day is a no-op,
      whatever the upstream answers the second time. */
  lemma AcquireIdempotent(artifacts: map<string, Dataset>, kind: Kind, zip: string, today: string,
                          first: Payload, second: Payload)
    requires ValidArtifacts(artifacts)
    ensures var a := Acquisition(artifacts, kind, zip, today, first);
      a.outcome.Written? || a.outcome.AlreadyCollected? ==>
        Acquisition(a.artifacts, kind, zip, today, second) == Attempt(AlreadyCollected, a.artifacts)
  {
    var path := PathFor(kind, zip);
    var a := Acquisition(artifacts, kind, zip, today, first);
    if a.outcome.Written? {
      var d := Prepare(kind, first.listings, today).value;
      assert a.artifacts[path] == d;
      assert d[0][RunDate] == Text(today);
    }
  }

  /** No write on bad or empty input: a malformed payload asks for a retry
      (unless today's data is already there) and an empty one reports no
      listings; neither changes the store. */
  lemma NoWriteOnBadInput(artifacts: map<string, Dataset>, kind: Kind, zip: string, today: string,
                          payload: Payload)
    requires ValidArtifacts(artifacts)
    requires payload.Malformed? || payload == Listings([])
    ensures var a := Acquisition(artifacts, kind, zip, today, payload);
      && a.artifacts == artifacts
      && (payload.Malformed? ==> a.outcome in {Retry, AlreadyCollected})
      && (payload.Listings? ==> a.outcome in {NoListings, AlreadyCollected})
  {
  }

  /** End to end: when listings satisfy the no-collision assumption, a
      written dataset holds, row for row, the flat record of each listing
      stamped with `today` and extended with its three KPIs. */
  lemma StoredRows(artifacts: map<string, Dataset>, kind: Kind, zip: string, today: string,
                   listings: seq<Record>)
    requires ValidArtifacts(artifacts)
    requires forall i :: 0 <= i < |listings| ==> NoCollision(listings[i])
    ensures var a := Acquisition(artifacts, kind, zip, today, Listings(listings));
      a.outcome.Written? ==>
        var d := a.artifacts[PathFor(kind, zip)];
        |d| == |listings| &&
        forall i :: 0 <= i < |listings| ==> KpiRow(Flatten(listings[i])[RunDate := Text(today)], d[i])
  {
    var a := Acquisition(artifacts, kind, zip, today, Listings(listings));
    if a.outcome.Written? {
      ExpandColumnsFlatten(listings, kind);
      var rows := ExpandColumns(listings, ExpandOrder(kind)).value;
      var stamped := StampRunDate(rows, today);
      assert Prepare(kind, listings, today) == GetKpis(stamped);
      var d := a.artifacts[PathFor(kind, zip)];
      forall i | 0 <= i < |listings|
        ensures KpiRow(Flatten(listings[i])[RunDate := Text(today)], d[i])
      {
        assert stamped[i] == Flatten(listings[i])[RunDate := Text(today)];
      }
    }
  }

  /** A nested column that no listing carries makes `df.drop` raise, so the
      acquisition ends without writing, even when every listing has a price,
      beds, baths and a building size. */
  lemma AbsentNestedColumnAborts(artifacts: map<string, Dataset>, kind: Kind, zip: string, today: string,
                                 listings: seq<Record>, col: string)
    requires ValidArtifacts(artifacts)
    requires forall i :: 0 <= i < |listings| ==> NoCollision(listings[i])
    requires col == Address || col == LotSize || col == BuildingSize
    requires !HasColumn(listings, col)
    ensures var a := Acquisition(artifacts, kind, zip, today, Listings(listings));
      a.artifacts == artifacts && !a.outcome.Written?
  {
    ExpandColumnsFlatten(listings, kind);
    assert !(HasColumn(listings, Address) && HasColumn(listings, LotSize) && HasColumn(listings, BuildingSize));
    assert ExpandColumns(listings, ExpandOrder(kind)).KeyError?;
    assert Prepare(kind, listings, today).KeyError?;
  }
}
