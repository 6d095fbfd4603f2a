/** The descending ranking of zip codes by ratio, as
    `pd.Series(d).sort_values(ascending=False)` orders it. */
module Ranking {
  import opened Values

  /** A profitability ratio; `None` stands for a non-finite quotient. */
  type Ratio = Option<real>

  /** One ranking entry: a zip code and its ratio. */
  type Entry = (string, Ratio)

  /** `a` may stand before `b` in a descending ranking: larger ratios first,
      undefined ratios after every defined one. */
  predicate RanksBefore(a: Ratio, b: Ratio)
  {
    b.None? || (a.Some? && a.value >= b.value)
  }

  predicate RankedDesc(s: seq<Entry>)
  {
    forall i, j :: 0 <= i < j < |s| ==> RanksBefore(s[i].1, s[j].1)
  }

  /** No zip code appears twice. */
  predicate DistinctZips(s: seq<Entry>)
  {
    forall i, j :: 0 <= i < j < |s| ==> s[i].0 != s[j].0
  }

  function InsertRanked(e: Entry, s: seq<Entry>): (r: seq<Entry>)
    requires RankedDesc(s)
    ensures RankedDesc(r)
    ensures multiset(r) == multiset(s) + multiset{e}
  {
    if |s| == 0 then [e]
    else if RanksBefore(e.1, s[0].1) then [e] + s
    else
      var rest := InsertRanked(e, s[1..]);
      assert s == [s[0]] + s[1..];
      forall j | 0 <= j < |rest| ensures RanksBefore(s[0].1, rest[j].1) {
        assert rest[j] in multiset(rest);
        if rest[j] != e {
          assert rest[j] in multiset(s[1..]);
          var k :| 0 <= k < |s[1..]| && s[1..][k] == rest[j];
          assert s[k + 1] == rest[j];
        }
      }
      ConsRanked(s[0], rest);
      [s[0]] + rest
  }

  /** A head that ranks before every entry of a ranked tail keeps it ranked. */
  lemma ConsRanked(h: Entry, t: seq<Entry>)
    requires RankedDesc(t)
    requires forall j :: 0 <= j < |t| ==> RanksBefore(h.1, t[j].1)
    ensures RankedDesc([h] + t)
  {
    var r := [h] + t;
    forall i, j | 0 <= i < j < |r| ensures RanksBefore(r[i].1, r[j].1) {
      assert r[j] == t[j - 1];
      if i > 0 { assert r[i] == t[i - 1]; }
    }
  }

  /** The entries of `s`, each exactly once, with ratios non-increasing and
      undefined ratios last. No order among equal ratios is promised. */
  function RankDescending(s: seq<Entry>): (r: seq<Entry>)
    ensures RankedDesc(r)
    ensures multiset(r) == multiset(s)
  {
    if |s| == 0 then []
    else
      assert s == [s[0]] + s[1..];
      InsertRanked(s[0], RankDescending(s[1..]))
  }

  /** Inserting an entry whose zip is new keeps the zips distinct. */
  lemma {:induction false} InsertKeepsDistinct(e: Entry, s: seq<Entry>)
    requires RankedDesc(s) && DistinctZips(s)
    requires forall x :: x in s ==> x.0 != e.0
    ensures DistinctZips(InsertRanked(e, s))
  {
    if |s| > 0 && !RanksBefore(e.1, s[0].1) {
      assert s == [s[0]] + s[1..];
      InsertKeepsDistinct(e, s[1..]);
      var rest := InsertRanked(e, s[1..]);
      forall x | x in rest ensures x.0 != s[0].0 {
        assert x in multiset(rest);
        if x != e {
          assert x in s[1..];
        }
      }
    }
  }

  /** Ranking keeps the zips distinct. */
  lemma {:induction false} RankKeepsDistinct(s: seq<Entry>)
    requires DistinctZips(s)
    ensures DistinctZips(RankDescending(s))
  {
    if |s| > 0 {
      RankKeepsDistinct(s[1..]);
      var rest := RankDescending(s[1..]);
      forall x | x in rest ensures x.0 != s[0].0 {
        assert x in multiset(rest);
        assert x in s[1..];
      }
      InsertKeepsDistinct(s[0], rest);
    }
  }

  /** `s` lists every (zip, ratio) entry of `m` exactly once, in descending
      order of ratio. */
  predicate IsRankingOf(s: seq<Entry>, m: map<string, Ratio>)
  {
    && (forall e :: e in s ==> e.0 in m && e.1 == m[e.0])
    && (forall z :: z in m ==> (z, m[z]) in s)
    && DistinctZips(s)
    && RankedDesc(s)
  }

  /** With ratio 2.0 for zip A and 1.5 for zip B, the only ranking is
      A before B. */
  lemma RankingExample(r: seq<Entry>)
    requires IsRankingOf(r, map["A" := Some(2.0), "B" := Some(1.5)])
    ensures r == [("A", Some(2.0)), ("B", Some(1.5))]
  {
    var m := map["A" := Some(2.0), "B" := Some(1.5)];
    var a: Entry, b: Entry := ("A", Some(2.0)), ("B", Some(1.5));
    assert "A" in m && m["A"] == a.1;
    assert "B" in m && m["B"] == b.1;
    assert a in r && b in r;
    assert forall e :: e in r ==> e == a || e == b;
    var i :| 0 <= i < |r| && r[i] == a;
    var j :| 0 <= j < |r| && r[j] == b;
    assert i < j;
    forall k | 0 <= k < |r| ensures (r[k] == a && k == i) || (r[k] == b && k == j) {
      assert r[k] in r;
    }
    assert r[0] == a && r[1] == b;
    assert |r| == 2;
  }
}
