/** analyze: the per-zip profitability ratio and the ranking of zip codes. */
module Aggregator {
  import opened Values
  import opened Paths
  import opened KpiCalculator
  import opened Stats
  import opened Ranking
  import opened Store

  /** The zip codes the pipeline processes by default. */
  const ZipCodes: seq<string> := ["55414", "53711", "53545", "53202", "55806"]

  /** The ratio of two medians: undefined when either median is, or when
      the divisor is zero; otherwise the number that, multiplied by the sale
      median, gives the rental median. */
  function RatioOf(rentalMedian: Option<real>, saleMedian: Option<real>): (r: Ratio)
    ensures r.Some? <==> rentalMedian.Some? && saleMedian.Some? && saleMedian.value != 0.0
    ensures r.Some? ==> Scales(r.value, saleMedian.value, rentalMedian.value)
  {
    if rentalMedian.Some? && saleMedian.Some? && saleMedian.value != 0.0
    then Some(rentalMedian.value / saleMedian.value)
    else None
  }

  /** `ratio` times `sale` is `rental`. */
  predicate Scales(ratio: real, sale: real, rental: real)
  {
    ratio * sale == rental
  }

  /** `rental_df['price_per_sqft'].median() / sales_df['price_per_sqft'].median()`,
      each median taken over the defined values: defined exactly when both
      datasets hold some numeric `price_per_sqft` and the sale median is not
      zero, and then the ratio times the sale median is the rental median. */
  function ZipRatio(rental: Dataset, sale: Dataset): (r: Ratio)
    ensures r.Some? <==> Priced(rental) && Priced(sale) && ColumnMedian(sale, PricePerSqft) != Some(0.0)
    ensures r.Some? ==> var rentalMedian, saleMedian := ColumnMedian(rental, PricePerSqft), ColumnMedian(sale, PricePerSqft);
      rentalMedian.Some? && saleMedian.Some? && Scales(r.value, saleMedian.value, rentalMedian.value)
  {
    var rentalMedian, saleMedian := ColumnMedian(rental, PricePerSqft), ColumnMedian(sale, PricePerSqft);
    PricedMedian(rental);
    PricedMedian(sale);
    RatioOf(rentalMedian, saleMedian)
  }

  /** Some listing of `rows` has a numeric `price_per_sqft`. */
  predicate Priced(rows: Dataset)
  {
    exists i :: 0 <= i < |rows| && Field(rows[i], PricePerSqft).Num?
  }

  /** A `price_per_sqft` median exists exactly when some listing is priced. */
  lemma PricedMedian(rows: Dataset)
    ensures ColumnMedian(rows, PricePerSqft).Some? <==> Priced(rows)
  {
    if Priced(rows) {
      var i :| 0 <= i < |rows| && Field(rows[i], PricePerSqft).Num?;
    }
  }

  /** Both artifacts of `zip` are in the store. */
  predicate Paired(artifacts: map<string, Dataset>, zip: string)
  {
    PathFor(Rental, zip) in artifacts && PathFor(Sale, zip) in artifacts
  }

  /** After the zip codes `zs`, `ratios` holds exactly the zips among them
      that are in the table, each with its ratio `ratioOf(z)`. */
  ghost predicate RatiosOf(inTable: string -> bool, ratioOf: string -> Ratio, zs: seq<string>,
                           ratios: map<string, Ratio>)
  {
    && (forall z :: z in ratios <==> z in zs && inTable(z))
    && (forall z :: z in ratios ==> ratios[z] == ratioOf(z))
  }

  /** `entries` lists each (zip, ratio) pair of `ratios` once. */
  ghost predicate EntriesOf(ratios: map<string, Ratio>, entries: seq<Entry>)
  {
    && (forall e :: e in entries ==> e.0 in ratios && e.1 == ratios[e.0])
    && (forall z :: z in ratios ==> (z, ratios[z]) in entries)
    && DistinctZips(entries)
  }

  /** One more zip code that is not in the table: nothing changes. */
  lemma RatiosSkip(inTable: string -> bool, ratioOf: string -> Ratio, zs: seq<string>, zip: string,
                   ratios: map<string, Ratio>)
    requires RatiosOf(inTable, ratioOf, zs, ratios)
    requires !inTable(zip)
    ensures RatiosOf(inTable, ratioOf, zs + [zip], ratios)
  {
    forall z ensures z in zs + [zip] <==> z in zs || z == zip {
    }
  }

  /** One more zip code that is in the table: it gets its ratio. */
  lemma RatiosAdd(inTable: string -> bool, ratioOf: string -> Ratio, zs: seq<string>, zip: string,
                  ratios: map<string, Ratio>)
    requires RatiosOf(inTable, ratioOf, zs, ratios)
    requires inTable(zip)
    ensures RatiosOf(inTable, ratioOf, zs + [zip], ratios[zip := ratioOf(zip)])
  {
    forall z ensures z in zs + [zip] <==> z in zs || z == zip {
    }
  }

  /** Recording the pair (zip, v): a new zip gets one more entry, a known
      one (whose value is already v) changes nothing. */
  lemma EntriesStep(ratios: map<string, Ratio>, entries: seq<Entry>, zip: string, v: Ratio)
    requires EntriesOf(ratios, entries)
    requires zip in ratios ==> ratios[zip] == v
    ensures EntriesOf(ratios[zip := v], if zip in ratios then entries else entries + [(zip, v)])
  {
    var m := ratios[zip := v];
    if zip in ratios {
      assert m == ratios;
    } else {
      var next := entries + [(zip, v)];
      forall e | e in next ensures e.0 in m && e.1 == m[e.0] {
        if e != (zip, v) {
          assert e in entries;
        }
      }
      forall z | z in m ensures (z, m[z]) in next {
        if z != zip {
          assert (z, ratios[z]) in entries;
        }
      }
      forall i, j | 0 <= i < j < |next| ensures next[i].0 != next[j].0 {
        if j == |entries| {
          assert next[i] in entries;
        } else {
          assert next[i] == entries[i] && next[j] == entries[j];
        }
      }
    }
  }

  lemma TakeOneMore(s: seq<string>, i: nat)
    requires i < |s|
    ensures s[..i + 1] == s[..i] + [s[i]]
  {
  }

  /** Ranking a table lists every (zip, ratio) pair once, in descending order. */
  lemma RankTabulated(ratios: map<string, Ratio>, entries: seq<Entry>)
    requires EntriesOf(ratios, entries)
    ensures IsRankingOf(RankDescending(entries), ratios)
  {
    var ranking := RankDescending(entries);
    RankKeepsDistinct(entries);
    forall e | e in ranking ensures e in entries {
      assert e in multiset(ranking);
    }
    forall e | e in entries ensures e in ranking {
      assert e in multiset(entries);
    }
  }

  /** analyze over the datasets in `store` for the zip codes `zips`. A zip
      gets a ratio exactly when both its artifacts exist; the ratio depends
      on that zip's two datasets alone; the ranking holds every (zip, ratio)
      entry once, ratios non-increasing and undefined ratios last. */
  method Analyze(store: ArtifactStore, zips: seq<string>) returns (ratios: map<string, Ratio>, ranking: seq<Entry>)
    requires store.Valid()
    ensures forall z :: z in ratios <==> z in zips && Paired(store.artifacts, z)
    ensures forall z :: z in ratios ==>
      && Paired(store.artifacts, z)
      && ratios[z] == ZipRatio(store.artifacts[PathFor(Rental, z)], store.artifacts[PathFor(Sale, z)])
    ensures IsRankingOf(ranking, ratios)
  {
    var artifacts := store.artifacts;
    ghost var inTable := z => Paired(artifacts, z);
    ghost var ratioOf := z =>
      if Paired(artifacts, z) then ZipRatio(artifacts[PathFor(Rental, z)], artifacts[PathFor(Sale, z)]) else None;
    ratios := map[];
    var entries: seq<Entry> := [];
    for i := 0 to |zips|
      invariant RatiosOf(inTable, ratioOf, zips[..i], ratios)
      invariant EntriesOf(ratios, entries)
    {
      var zip := zips[i];
      TakeOneMore(zips, i);
      var rentalPath := PathFor(Rental, zip);
      var salePath := PathFor(Sale, zip);
      if rentalPath in artifacts && salePath in artifacts {
        var ratio := ZipRatio(artifacts[rentalPath], artifacts[salePath]);
        assert inTable(zip) && ratio == ratioOf(zip);
        RatiosAdd(inTable, ratioOf, zips[..i], zip, ratios);
        EntriesStep(ratios, entries, zip, ratio);
        if zip !in ratios {
          entries := entries + [(zip, ratio)];
        }
        ratios := ratios[zip := ratio];
      } else {
        assert !inTable(zip);
        RatiosSkip(inTable, ratioOf, zips[..i], zip, ratios);
      }
    }
    assert zips[..|zips|] == zips;
    ranking := RankDescending(entries);
    RankTabulated(ratios, entries);
  }
}
