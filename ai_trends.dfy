/**
  The list-processing part of the trend detector (python/ai_trends.py): the
  blacklist test, the collection of trends across the regions, the
  de-duplication by query, the growth tier, the minimum-volume filter, the
  top-N cut and the news page-token extraction. The API calls, embeddings,
  similarity scores and float normalisation are not part of this model; the
  trends each region returned are an input.
*/
module AiTrends {
  import opened Wrappers
  import opened Strings

  const GeoList: seq<string> := ["US", "GB", "FR", "IN", "JP", "AU"]
  const TopN := 10
  const MinVolume := 15000
  const Blacklist: seq<string> := [
    "fc", "football", "match", "movie", "record", "le\U{F3}n", "music", "trailer",
    "horoscope", "festival", "concert", "wrestling", "series", "tournament"
  ]
  const PageTokenKey := "page_token="

  // ---------------------------------------------------------------- blacklist

  /**
    Python's `str.lower` on one character, for ASCII and the Latin-1 capitals
    (U+00C0 to U+00DE except the multiplication sign).
  */
  function LowerChar(c: char): char {
    if 'A' <= c <= 'Z' || ('\U{C0}' <= c <= '\U{DE}' && c != '\U{D7}') then (c as int + 32) as char else c
  }

  function Lower(s: string): (t: string)
    ensures |t| == |s| && forall i :: 0 <= i < |s| ==> t[i] == LowerChar(s[i])
  {
    if s == [] then [] else [LowerChar(s[0])] + Lower(s[1..])
  }

  /** Some word of `words` occurs as a substring of `text`. */
  function AnyOccurs(words: seq<string>, text: string): (b: bool)
    ensures b <==> exists i :: 0 <= i < |words| && Contains(words[i], text)
  {
    if words == [] then false
    else
      var rest := AnyOccurs(words[1..], text);
      assert forall i :: 1 <= i < |words| ==> words[i] == words[1..][i - 1];
      Contains(words[0], text) || rest
  }

  /**
    `is_blacklisted` (lines 85-88): some blacklist entry occurs anywhere in
    the lower-cased text. It is substring matching, not word matching: "fc"
    inside any longer word counts.
  */
  function IsBlacklisted(text: string): (b: bool)
    ensures b <==> exists i :: 0 <= i < |Blacklist| && Contains(Blacklist[i], Lower(text))
  {
    AnyOccurs(Blacklist, Lower(text))
  }

  lemma LowerIsIdempotent(s: string)
    ensures Lower(Lower(s)) == Lower(s)
  {
  }

  /** The test ignores case: a text and its lower-case form are judged alike. */
  lemma BlacklistIgnoresCase(text: string)
    ensures IsBlacklisted(Lower(text)) == IsBlacklisted(text)
  {
    LowerIsIdempotent(text);
  }

  // ---------------------------------------------------------------- collection

  /**
    One entry of a region's `trending_searches`: the query (None when missing
    or null), the search volume (None when missing or null) and the news
    link (None when missing).
  */
  datatype RawTrend = RawTrend(query: Option<string>, searchVolume: Option<int>, newsLink: Option<string>)

  /** A row of `all_trends`. */
  datatype Trend = Trend(query: string, geo: string, searchVolume: int, newsLink: string)

  /** What every collected row satisfies: a non-empty, non-blacklisted query. */
  predicate Clean(t: Trend) {
    t.query != "" && !IsBlacklisted(t.query)
  }

  /** `t.get(key, default)` for an optional field. */
  function GetOr<T>(field: Option<T>, default: T): T {
    if field.Some? then field.value else default
  }

  /**
    The body of the inner loop (lines 99-107): the row a raw trend of region
    `geo` contributes, if any. The volume is 0 when missing or falsy (a
    present 0 is 0 either way) and copied otherwise.
  */
  function RowOf(geo: string, t: RawTrend): (r: Option<Trend>)
    ensures r.Some? <==> t.query.Some? && t.query.value != "" && !IsBlacklisted(t.query.value)
    ensures r.Some? ==> Clean(r.value) && r.value.query == t.query.value && r.value.geo == geo
    ensures r.Some? && t.searchVolume.None? ==> r.value.searchVolume == 0
    ensures r.Some? && t.searchVolume.Some? ==> r.value.searchVolume == t.searchVolume.value
  {
    var query := GetOr(t.query, "");
    if query == "" || IsBlacklisted(query) then None
    else Some(Trend(query, geo, GetOr(t.searchVolume, 0), GetOr(t.newsLink, "")))
  }

  /** The rows one region contributes, in the order the API returned them. */
  function RegionRows(geo: string, trends: seq<RawTrend>): (rows: seq<Trend>)
    ensures |rows| <= |trends|
    ensures forall k :: 0 <= k < |rows| ==> Clean(rows[k]) && rows[k].geo == geo
  {
    if trends == [] then []
    else
      var last := RowOf(geo, trends[|trends| - 1]);
      RegionRows(geo, trends[..|trends| - 1]) + (if last.Some? then [last.value] else [])
  }

  /** `all_trends` after the loop over `geos`, where `fetched[i]` is what region `geos[i]` returned. */
  function Collected(geos: seq<string>, fetched: seq<seq<RawTrend>>): (rows: seq<Trend>)
    requires |geos| == |fetched|
    ensures forall k :: 0 <= k < |rows| ==> Clean(rows[k]) && rows[k].geo in geos
  {
    if geos == [] then []
    else
      var n := |geos| - 1;
      var before := Collected(geos[..n], fetched[..n]);
      assert forall g :: g in geos[..n] ==> g in geos;
      before + RegionRows(geos[n], fetched[n])
  }

  /** What each trend of `trends` contributes for region `geo`, trend by trend. */
  function RowsOf(geo: string, trends: seq<RawTrend>): (contributed: seq<Option<Trend>>)
    ensures |contributed| == |trends|
  {
    seq(|trends|, i requires 0 <= i < |trends| => RowOf(geo, trends[i]))
  }

  /** `x` is the row some trend of `trends` contributes for region `geo`. */
  predicate RowFrom(geo: string, trends: seq<RawTrend>, x: Trend) {
    Some(x) in RowsOf(geo, trends)
  }

  /** A row comes from `trends` iff it comes from all but the last trend or from the last one. */
  lemma RowFromStep(geo: string, trends: seq<RawTrend>, x: Trend)
    requires |trends| > 0
    ensures RowFrom(geo, trends, x) <==>
      RowFrom(geo, trends[..|trends| - 1], x) || RowOf(geo, trends[|trends| - 1]) == Some(x)
  {
    var n := |trends| - 1;
    assert RowsOf(geo, trends) == RowsOf(geo, trends[..n]) + [RowOf(geo, trends[n])];
  }

  /**
    A region's rows are exactly the rows its trends contribute: every trend
    with a present, non-empty, unblacklisted query is collected, with its
    volume or 0, and nothing else is.
  */
  lemma {:induction false} RegionRowsAreTheirTrendsRows(geo: string, trends: seq<RawTrend>)
    ensures forall x :: x in RegionRows(geo, trends) <==> RowFrom(geo, trends, x)
  {
    if trends != [] {
      var n := |trends| - 1;
      RegionRowsAreTheirTrendsRows(geo, trends[..n]);
      var last := RowOf(geo, trends[n]);
      assert RegionRows(geo, trends) == RegionRows(geo, trends[..n]) + (if last.Some? then [last.value] else []);
      forall x
        ensures x in RegionRows(geo, trends) <==> RowFrom(geo, trends, x)
      {
        RowFromStep(geo, trends, x);
      }
    }
  }

  /** `x` is the row some trend of some region contributes. */
  predicate CollectedFrom(geos: seq<string>, fetched: seq<seq<RawTrend>>, x: Trend)
    requires |geos| == |fetched|
  {
    exists g :: 0 <= g < |geos| && RowFrom(geos[g], fetched[g], x)
  }

  /** A row comes from the regions iff it comes from all but the last region or from the last one. */
  lemma CollectedFromStep(geos: seq<string>, fetched: seq<seq<RawTrend>>, x: Trend)
    requires |geos| == |fetched| > 0
    ensures var n := |geos| - 1;
      CollectedFrom(geos, fetched, x) <==>
        CollectedFrom(geos[..n], fetched[..n], x) || RowFrom(geos[n], fetched[n], x)
  {
    var n := |geos| - 1;
    var gs, fs := geos[..n], fetched[..n];
    if CollectedFrom(geos, fetched, x) {
      var g :| 0 <= g < |geos| && RowFrom(geos[g], fetched[g], x);
      if g < n {
        assert RowFrom(gs[g], fs[g], x);
      }
    }
    if CollectedFrom(gs, fs, x) {
      var g :| 0 <= g < |gs| && RowFrom(gs[g], fs[g], x);
      assert RowFrom(geos[g], fetched[g], x);
    }
  }

  /** The collected rows are exactly the rows the regions' trends contribute. */
  lemma {:induction false} CollectedAreTheTrendsRows(geos: seq<string>, fetched: seq<seq<RawTrend>>)
    requires |geos| == |fetched|
    ensures forall x :: x in Collected(geos, fetched) <==> CollectedFrom(geos, fetched, x)
  {
    if geos != [] {
      var n := |geos| - 1;
      CollectedAreTheTrendsRows(geos[..n], fetched[..n]);
      RegionRowsAreTheirTrendsRows(geos[n], fetched[n]);
      assert Collected(geos, fetched) == Collected(geos[..n], fetched[..n]) + RegionRows(geos[n], fetched[n]);
      forall x
        ensures x in Collected(geos, fetched) <==> CollectedFrom(geos, fetched, x)
      {
        CollectedFromStep(geos, fetched, x);
      }
    }
  }

  /**
    The collection loop (lines 94-107): for each region in turn, for each of
    its trends, skip an empty or blacklisted query and append the row.
  */
  method CollectTrends(fetched: seq<seq<RawTrend>>) returns (all: seq<Trend>)
    requires |fetched| == |GeoList|
    ensures all == Collected(GeoList, fetched)
  {
    all := [];
    for g := 0 to |GeoList|
      invariant all == Collected(GeoList[..g], fetched[..g])
    {
      all := AppendRegion(all, GeoList[g], fetched[g]);
      CollectedStep(GeoList, fetched, g);
    }
    assert GeoList[..|GeoList|] == GeoList && fetched[..|fetched|] == fetched;
  }

  /** The inner loop (lines 98-107): append the rows of one region's trends to `all`. */
  method AppendRegion(all: seq<Trend>, geo: string, trends: seq<RawTrend>) returns (extended: seq<Trend>)
    ensures extended == all + RegionRows(geo, trends)
  {
    extended := all;
    for j := 0 to |trends|
      invariant extended == all + RegionRows(geo, trends[..j])
    {
      var t := trends[j];
      var query := GetOr(t.query, "");
      RegionRowsStep(geo, trends, j);
      if query == "" || IsBlacklisted(query) {
        continue;
      }
      extended := extended + [Trend(query, geo, GetOr(t.searchVolume, 0), GetOr(t.newsLink, ""))];
    }
    assert trends[..|trends|] == trends;
  }

  /** One more trend of a region: its row, if any, is appended. */
  lemma RegionRowsStep(geo: string, trends: seq<RawTrend>, j: nat)
    requires j < |trends|
    ensures var query := GetOr(trends[j].query, "");
      RegionRows(geo, trends[..j + 1]) == RegionRows(geo, trends[..j]) +
        if query == "" || IsBlacklisted(query) then []
        else [Trend(query, geo, GetOr(trends[j].searchVolume, 0), GetOr(trends[j].newsLink, ""))]
  {
    assert trends[..j + 1][..j] == trends[..j];
  }

  /** One more region: its rows are appended. */
  lemma CollectedStep(geos: seq<string>, fetched: seq<seq<RawTrend>>, g: nat)
    requires |geos| == |fetched| && g < |geos|
    ensures Collected(geos[..g + 1], fetched[..g + 1]) == Collected(geos[..g], fetched[..g]) + RegionRows(geos[g], fetched[g])
  {
    assert geos[..g + 1][..g] == geos[..g] && fetched[..g + 1][..g] == fetched[..g];
  }

  // ---------------------------------------------------------------- de-duplication

  /** The index of the first row with query `q`, or `|rows|` when there is none. */
  function FirstIndex(rows: seq<Trend>, q: string): (i: nat)
    ensures i <= |rows|
    ensures i < |rows| ==> rows[i].query == q
    ensures forall p :: 0 <= p < i ==> rows[p].query != q
  {
    if rows == [] then 0
    else if rows[0].query == q then 0
    else 1 + FirstIndex(rows[1..], q)
  }

  /** No two rows share a query. */
  predicate DistinctQueries(rows: seq<Trend>) {
    forall i, j :: 0 <= i < j < |rows| ==> rows[i].query != rows[j].query
  }

  /** Keep-first de-duplication of `rows`, treating the queries in `seen` as already kept. */
  function DedupAfter(rows: seq<Trend>, seen: set<string>): (r: seq<Trend>)
    ensures forall k :: 0 <= k < |r| ==> r[k].query !in seen
    decreases |rows|
  {
    if rows == [] then []
    else if rows[0].query in seen then DedupAfter(rows[1..], seen)
    else [rows[0]] + DedupAfter(rows[1..], seen + {rows[0].query})
  }

  lemma {:induction false} DedupDistinct(rows: seq<Trend>, seen: set<string>)
    ensures DistinctQueries(DedupAfter(rows, seen))
    decreases |rows|
  {
    if rows != [] {
      if rows[0].query in seen {
        DedupDistinct(rows[1..], seen);
      } else {
        DedupDistinct(rows[1..], seen + {rows[0].query});
      }
    }
  }

  /** For rows whose query differs from the first row's, the first index in `rows` is one past that in the tail. */
  lemma FirstIndexOfTail(rows: seq<Trend>, r: seq<Trend>)
    requires |rows| > 0
    requires forall k :: 0 <= k < |r| ==> r[k].query != rows[0].query
    ensures forall k :: 0 <= k < |r| ==> FirstIndex(rows, r[k].query) == 1 + FirstIndex(rows[1..], r[k].query)
  {
  }

  /** Every row of `r` is the first row of its query in `rows`. */
  predicate AreFirstRows(rows: seq<Trend>, r: seq<Trend>) {
    forall k :: 0 <= k < |r| ==> FirstIndex(rows, r[k].query) < |rows| && rows[FirstIndex(rows, r[k].query)] == r[k]
  }

  /** The rows of `r` follow the order of their first occurrences in `rows`. */
  predicate InFirstOccurrenceOrder(rows: seq<Trend>, r: seq<Trend>) {
    forall i, j :: 0 <= i < j < |r| ==> FirstIndex(rows, r[i].query) < FirstIndex(rows, r[j].query)
  }

  /** Every query of `rows` outside `seen` is the query of some row of `r`. */
  predicate CoversQueries(rows: seq<Trend>, seen: set<string>, r: seq<Trend>) {
    forall p :: 0 <= p < |rows| && rows[p].query !in seen ==> exists k :: 0 <= k < |r| && r[k].query == rows[p].query
  }

  /** Shifting past a first row whose query no row of `r` has. */
  lemma FirstRowsOfTail(rows: seq<Trend>, r: seq<Trend>)
    requires |rows| > 0 && AreFirstRows(rows[1..], r)
    requires forall k :: 0 <= k < |r| ==> r[k].query != rows[0].query
    ensures AreFirstRows(rows, r)
    ensures InFirstOccurrenceOrder(rows[1..], r) ==> InFirstOccurrenceOrder(rows, r)
  {
    FirstIndexOfTail(rows, r);
    forall k | 0 <= k < |r|
      ensures FirstIndex(rows, r[k].query) < |rows| && rows[FirstIndex(rows, r[k].query)] == r[k]
    {
      var i := FirstIndex(rows[1..], r[k].query);
      assert rows[1 + i] == rows[1..][i];
    }
  }

  /** Each kept row is the first row of its query, and kept rows follow the order of those first rows. */
  lemma {:induction false} DedupKeepsFirst(rows: seq<Trend>, seen: set<string>)
    ensures AreFirstRows(rows, DedupAfter(rows, seen))
    ensures InFirstOccurrenceOrder(rows, DedupAfter(rows, seen))
    decreases |rows|
  {
    if rows != [] {
      var q := rows[0].query;
      var r := DedupAfter(rows, seen);
      var tail := rows[1..];
      if q in seen {
        DedupKeepsFirst(tail, seen);
        assert r == DedupAfter(tail, seen);
        FirstRowsOfTail(rows, r);
      } else {
        var r' := DedupAfter(tail, seen + {q});
        DedupKeepsFirst(tail, seen + {q});
        FirstRowsOfTail(rows, r');
        assert r == [rows[0]] + r';
        assert FirstIndex(rows, q) == 0;
        forall k | 0 <= k < |r|
          ensures FirstIndex(rows, r[k].query) < |rows| && rows[FirstIndex(rows, r[k].query)] == r[k]
        {
          if k > 0 {
            assert r[k] == r'[k - 1];
          }
        }
        forall i, j | 0 <= i < j < |r|
          ensures FirstIndex(rows, r[i].query) < FirstIndex(rows, r[j].query)
        {
          assert r[j] == r'[j - 1];
          if i > 0 {
            assert r[i] == r'[i - 1];
          }
        }
      }
    }
  }

  /** Every query of the input that was not already seen is represented in the result. */
  lemma {:induction false} DedupCovers(rows: seq<Trend>, seen: set<string>)
    ensures CoversQueries(rows, seen, DedupAfter(rows, seen))
    decreases |rows|
  {
    if rows != [] {
      var q := rows[0].query;
      var r := DedupAfter(rows, seen);
      var tail := rows[1..];
      if q in seen {
        DedupCovers(tail, seen);
        assert r == DedupAfter(tail, seen);
        forall p | 0 <= p < |rows| && rows[p].query !in seen
          ensures exists k :: 0 <= k < |r| && r[k].query == rows[p].query
        {
          assert p > 0 && rows[p] == tail[p - 1];
        }
      } else {
        var r' := DedupAfter(tail, seen + {q});
        DedupCovers(tail, seen + {q});
        assert r == [rows[0]] + r';
        forall p | 0 <= p < |rows| && rows[p].query !in seen
          ensures exists k :: 0 <= k < |r| && r[k].query == rows[p].query
        {
          if rows[p].query == q {
            assert r[0].query == rows[p].query;
          } else {
            assert p > 0 && rows[p] == tail[p - 1];
            var k :| 0 <= k < |r'| && r'[k].query == rows[p].query;
            assert r[k + 1] == r'[k];
          }
        }
      }
    }
  }

  /**
    `drop_duplicates(subset="query")` (line 110): the first row of each query,
    in order. The result has pairwise distinct queries, every row is the
    first one of its query in the input, rows keep the order of those first
    occurrences, and every query of the input is represented.
  */
  function DropDuplicateQueries(rows: seq<Trend>): (r: seq<Trend>)
    ensures DistinctQueries(r)
    ensures AreFirstRows(rows, r)
    ensures InFirstOccurrenceOrder(rows, r)
    ensures CoversQueries(rows, {}, r)
  {
    DedupDistinct(rows, {});
    DedupKeepsFirst(rows, {});
    DedupCovers(rows, {});
    DedupAfter(rows, {})
  }
  // ---------------------------------------------------------------- region order

  /** The position of region `g` in `geos`. */
  function IndexOf(geos: seq<string>, g: string): (i: nat)
    requires g in geos
    ensures i < |geos| && geos[i] == g
    ensures forall p :: 0 <= p < i ==> geos[p] != g
  {
    if geos[0] == g then 0 else 1 + IndexOf(geos[1..], g)
  }

  predicate DistinctStrings(s: seq<string>) {
    forall i, j :: 0 <= i < j < |s| ==> s[i] != s[j]
  }

  lemma GeoListIsDistinct()
    ensures DistinctStrings(GeoList)
  {
    var firsts := "UGFIJA";
    assert forall i :: 0 <= i < |GeoList| ==> GeoList[i][0] == firsts[i];
  }

  /** No row is preceded by a row from a later region. */
  predicate RegionOrdered(geos: seq<string>, rows: seq<Trend>) {
    forall i, j :: 0 <= i <= j < |rows| && rows[i].geo in geos && rows[j].geo in geos ==>
      IndexOf(geos, rows[i].geo) <= IndexOf(geos, rows[j].geo)
  }

  /** The collection loop visits the regions in order, so its rows are ordered by region. */
  lemma {:induction false} CollectedIsRegionOrdered(geos: seq<string>, fetched: seq<seq<RawTrend>>)
    requires |geos| == |fetched| && DistinctStrings(geos)
    ensures RegionOrdered(geos, Collected(geos, fetched))
  {
    if geos != [] {
      var n := |geos| - 1;
      var prefix := geos[..n];
      var before := Collected(prefix, fetched[..n]);
      var last := RegionRows(geos[n], fetched[n]);
      var rows := Collected(geos, fetched);
      CollectedIsRegionOrdered(prefix, fetched[..n]);
      assert rows == before + last;
      forall g | g in prefix
        ensures IndexOf(geos, g) == IndexOf(prefix, g) < n
      {
        var i := IndexOf(prefix, g);
        assert geos[i] == g;
      }
      assert IndexOf(geos, geos[n]) == n;
      forall i, j | 0 <= i <= j < |rows|
        ensures IndexOf(geos, rows[i].geo) <= IndexOf(geos, rows[j].geo)
      {
        if j >= |before| {
          assert rows[j] == last[j - |before|];
          if i >= |before| {
            assert rows[i] == last[i - |before|];
          } else {
            assert rows[i] == before[i];
          }
        } else {
          assert rows[i] == before[i] && rows[j] == before[j];
        }
      }
    }
  }

  /**
    Of all collected rows sharing a query, the one de-duplication keeps comes
    from the earliest region in `GeoList` order.
  */
  lemma KeptRowIsFromEarliestRegion(fetched: seq<seq<RawTrend>>, k: nat, p: nat)
    requires |fetched| == |GeoList|
    requires k < |DropDuplicateQueries(Collected(GeoList, fetched))|
    requires p < |Collected(GeoList, fetched)|
    requires Collected(GeoList, fetched)[p].query == DropDuplicateQueries(Collected(GeoList, fetched))[k].query
    ensures var kept := DropDuplicateQueries(Collected(GeoList, fetched))[k];
      IndexOf(GeoList, kept.geo) <= IndexOf(GeoList, Collected(GeoList, fetched)[p].geo)
  {
    var all := Collected(GeoList, fetched);
    var kept := DropDuplicateQueries(all)[k];
    var f := FirstIndex(all, kept.query);
    assert all[f] == kept && f <= p;
    GeoListIsDistinct();
    CollectedIsRegionOrdered(GeoList, fetched);
  }

  // ---------------------------------------------------------------- later filters

  /** `df[~df["query"].str.lower().apply(is_blacklisted)]` (line 115). */
  function DropBlacklisted(rows: seq<Trend>): (r: seq<Trend>)
    ensures |r| <= |rows|
    ensures forall k :: 0 <= k < |r| ==> !IsBlacklisted(Lower(r[k].query))
    ensures forall x :: x in r <==> x in rows && !IsBlacklisted(Lower(x.query))
  {
    if rows == [] then []
    else (if IsBlacklisted(Lower(rows[0].query)) then [] else [rows[0]]) + DropBlacklisted(rows[1..])
  }

  /** The second blacklist pass removes nothing from rows the collection loop already screened. */
  lemma {:induction false} SecondBlacklistPassKeepsAll(rows: seq<Trend>)
    requires forall k :: 0 <= k < |rows| ==> Clean(rows[k])
    ensures DropBlacklisted(rows) == rows
  {
    if rows != [] {
      BlacklistIgnoresCase(rows[0].query);
      SecondBlacklistPassKeepsAll(rows[1..]);
    }
  }

  /** `growth_score` (lines 127-129) in tenths: 10, 8, 6 or 4 by strict volume thresholds. */
  function GrowthTenths(volume: int): (g: int)
    ensures 4 <= g <= 10
  {
    if volume > 50000 then 10
    else if volume > 10000 then 8
    else if volume > 1000 then 6
    else 4
  }

  /** The thresholds are strict: each boundary volume falls in the lower tier. */
  lemma GrowthThresholdsAreStrict()
    ensures GrowthTenths(50000) == 8 && GrowthTenths(50001) == 10
    ensures GrowthTenths(10000) == 6 && GrowthTenths(10001) == 8
    ensures GrowthTenths(1000) == 4 && GrowthTenths(1001) == 6
  {
  }

  /** A higher volume never gets a lower tier. */
  lemma GrowthIsMonotone(v: int, w: int)
    requires v <= w
    ensures GrowthTenths(v) <= GrowthTenths(w)
  {
  }

  /** A row with its growth tier. */
  datatype Candidate = Candidate(trend: Trend, growthTenths: int)

  /** Adding the `growth_score` column: every row in place, with the tier of its own volume. */
  function WithGrowth(rows: seq<Trend>): (cs: seq<Candidate>)
    ensures |cs| == |rows|
    ensures forall k :: 0 <= k < |cs| ==>
      cs[k].trend == rows[k] && cs[k].growthTenths == GrowthTenths(rows[k].searchVolume)
  {
    seq(|rows|, k requires 0 <= k < |rows| => Candidate(rows[k], GrowthTenths(rows[k].searchVolume)))
  }

  /** `df[df["search_volume"] >= MIN_VOLUME]` (lines 137-138): exactly the rows at or above the minimum. */
  function AtLeastMinVolume(cs: seq<Candidate>): (r: seq<Candidate>)
    ensures |r| <= |cs|
    ensures forall c :: c in r <==> c in cs && c.trend.searchVolume >= MinVolume
  {
    if cs == [] then []
    else (if cs[0].trend.searchVolume >= MinVolume then [cs[0]] else []) + AtLeastMinVolume(cs[1..])
  }

  predicate DistinctCandidates(cs: seq<Candidate>) {
    forall i, j :: 0 <= i < j < |cs| ==> cs[i].trend.query != cs[j].trend.query
  }

  lemma {:induction false} MinVolumeKeepsDistinct(cs: seq<Candidate>)
    requires DistinctCandidates(cs)
    ensures DistinctCandidates(AtLeastMinVolume(cs))
  {
    if cs != [] {
      var tail := AtLeastMinVolume(cs[1..]);
      MinVolumeKeepsDistinct(cs[1..]);
      forall k | 0 <= k < |tail|
        ensures tail[k].trend.query != cs[0].trend.query
      {
        assert tail[k] in cs[1..];
      }
    }
  }

  /** Every row that survives the minimum-volume filter is in the 0.8 tier or above. */
  lemma {:induction false} SurvivorsHaveHighGrowth(rows: seq<Trend>)
    ensures forall c :: c in AtLeastMinVolume(WithGrowth(rows)) ==> c.growthTenths >= 8
  {
    forall c | c in AtLeastMinVolume(WithGrowth(rows))
      ensures c.growthTenths >= 8
    {
      var k :| 0 <= k < |rows| && WithGrowth(rows)[k] == c;
      assert c.growthTenths == GrowthTenths(c.trend.searchVolume);
    }
  }

  /** `df.head(TOP_N)` (line 147): the first ten rows of the ranked table, or all of them if fewer. */
  function TopRows(ranked: seq<Candidate>): (top: seq<Candidate>)
    ensures |top| == if |ranked| < TopN then |ranked| else TopN
    ensures forall k :: 0 <= k < |top| ==> top[k] == ranked[k]
  {
    if |ranked| <= TopN then ranked else ranked[..TopN]
  }

  // ---------------------------------------------------------------- the pipeline

  /** De-duplication keeps rows of its input, so it keeps them clean. */
  lemma DedupKeepsClean(rows: seq<Trend>)
    requires forall k :: 0 <= k < |rows| ==> Clean(rows[k])
    ensures forall k :: 0 <= k < |DropDuplicateQueries(rows)| ==> Clean(DropDuplicateQueries(rows)[k])
  {
    var r := DropDuplicateQueries(rows);
    forall k | 0 <= k < |r| ensures Clean(r[k]) {
      assert r[k] == rows[FirstIndex(rows, r[k].query)];
    }
  }

  /** Every candidate left after the minimum-volume filter is a scored input row. */
  lemma {:induction false} MinVolumeKeepsScoredRows(rows: seq<Trend>)
    ensures var df := AtLeastMinVolume(WithGrowth(rows));
      forall k :: 0 <= k < |df| ==> exists j :: 0 <= j < |rows| && df[k] == Candidate(rows[j], GrowthTenths(rows[j].searchVolume))
  {
    var scored := WithGrowth(rows);
    var df := AtLeastMinVolume(scored);
    forall k | 0 <= k < |df|
      ensures exists j :: 0 <= j < |rows| && df[k] == Candidate(rows[j], GrowthTenths(rows[j].searchVolume))
    {
      assert df[k] in df;
      var j :| 0 <= j < |scored| && scored[j] == df[k];
    }
  }

  /** Every input row at or above the minimum volume survives the filter. */
  lemma MinVolumeKeepsLargeRows(rows: seq<Trend>, j: nat)
    requires j < |rows| && rows[j].searchVolume >= MinVolume
    ensures exists k :: 0 <= k < |AtLeastMinVolume(WithGrowth(rows))| && AtLeastMinVolume(WithGrowth(rows))[k].trend == rows[j]
  {
    var scored := WithGrowth(rows);
    assert scored[j] in scored;
    assert scored[j] in AtLeastMinVolume(scored);
  }

  /**
    The reassignments of `df` from line 110 to line 138, as one expression.
    Whatever the input, each candidate has an unblacklisted query, a volume
    at or above the minimum and a tier of 0.8 or more matching its volume.
  */
  function Candidates(rows: seq<Trend>): (cs: seq<Candidate>)
    ensures forall k :: 0 <= k < |cs| ==>
      && !IsBlacklisted(Lower(cs[k].trend.query))
      && cs[k].trend.searchVolume >= MinVolume
      && cs[k].growthTenths == GrowthTenths(cs[k].trend.searchVolume) >= 8
  {
    var kept := DropBlacklisted(DropDuplicateQueries(rows));
    MinVolumeKeepsScoredRows(kept);
    var cs := AtLeastMinVolume(WithGrowth(kept));
    assert forall k :: 0 <= k < |cs| ==> cs[k] in cs;
    assert forall j :: 0 <= j < |kept| ==> kept[j] in kept;
    cs
  }

  /** Candidates have distinct queries, and each is clean, large enough and in the 0.8 tier or above. */
  lemma CandidatesAreDistinctAndLarge(rows: seq<Trend>)
    requires forall k :: 0 <= k < |rows| ==> Clean(rows[k])
    ensures DistinctCandidates(Candidates(rows))
    ensures forall k :: 0 <= k < |Candidates(rows)| ==>
      && Clean(Candidates(rows)[k].trend)
      && Candidates(rows)[k].trend.searchVolume >= MinVolume
      && Candidates(rows)[k].growthTenths == GrowthTenths(Candidates(rows)[k].trend.searchVolume) >= 8
  {
    var deduped := DropDuplicateQueries(rows);
    DedupKeepsClean(rows);
    SecondBlacklistPassKeepsAll(deduped);
    var scored := WithGrowth(deduped);
    assert DistinctCandidates(scored);
    MinVolumeKeepsDistinct(scored);
    MinVolumeKeepsScoredRows(deduped);
  }

  /** Each candidate is the first row collected with its query. */
  lemma CandidatesAreFirstRows(rows: seq<Trend>)
    requires forall k :: 0 <= k < |rows| ==> Clean(rows[k])
    ensures forall k :: 0 <= k < |Candidates(rows)| ==>
      FirstIndex(rows, Candidates(rows)[k].trend.query) < |rows|
      && rows[FirstIndex(rows, Candidates(rows)[k].trend.query)] == Candidates(rows)[k].trend
  {
    var deduped := DropDuplicateQueries(rows);
    DedupKeepsClean(rows);
    SecondBlacklistPassKeepsAll(deduped);
    MinVolumeKeepsScoredRows(deduped);
  }

  /** Every query whose first row reaches the minimum volume is among the candidates. */
  lemma CandidatesAreComplete(rows: seq<Trend>, p: nat)
    requires forall k :: 0 <= k < |rows| ==> Clean(rows[k])
    requires p < |rows| && rows[FirstIndex(rows, rows[p].query)].searchVolume >= MinVolume
    ensures exists k :: 0 <= k < |Candidates(rows)| && Candidates(rows)[k].trend.query == rows[p].query
  {
    var deduped := DropDuplicateQueries(rows);
    DedupKeepsClean(rows);
    SecondBlacklistPassKeepsAll(deduped);
    var j :| 0 <= j < |deduped| && deduped[j].query == rows[p].query;
    assert deduped[j] == rows[FirstIndex(rows, rows[p].query)];
    var df := AtLeastMinVolume(WithGrowth(deduped));
    assert Candidates(rows) == df;
    MinVolumeKeepsLargeRows(deduped, j);
    var k :| 0 <= k < |df| && df[k].trend == deduped[j];
    assert Candidates(rows)[k].trend.query == rows[p].query;
  }

  /**
    The table that reaches the semantic filter (lines 94-138): collect, drop
    duplicate queries, drop blacklisted queries, add the growth tier, keep
    the rows at or above the minimum volume. Each surviving row is the first
    collected row of its query, queries are distinct and clean, and every
    query whose first row has enough volume survives.
  */
  method SelectCandidates(fetched: seq<seq<RawTrend>>) returns (df: seq<Candidate>)
    requires |fetched| == |GeoList|
    ensures DistinctCandidates(df)
    ensures forall k :: 0 <= k < |df| ==>
      && Clean(df[k].trend)
      && df[k].trend.searchVolume >= MinVolume
      && df[k].growthTenths == GrowthTenths(df[k].trend.searchVolume) >= 8
    ensures var all := Collected(GeoList, fetched);
      forall k :: 0 <= k < |df| ==>
        FirstIndex(all, df[k].trend.query) < |all| && all[FirstIndex(all, df[k].trend.query)] == df[k].trend
    ensures var all := Collected(GeoList, fetched);
      forall p :: 0 <= p < |all| && all[FirstIndex(all, all[p].query)].searchVolume >= MinVolume ==>
        exists k :: 0 <= k < |df| && df[k].trend.query == all[p].query
  {
    var all := CollectTrends(fetched);
    var rows := DropDuplicateQueries(all);
    rows := DropBlacklisted(rows);
    var scored := WithGrowth(rows);
    df := AtLeastMinVolume(scored);
    assert df == Candidates(all);
    CandidatesAreDistinctAndLarge(all);
    CandidatesAreFirstRows(all);
    forall p | 0 <= p < |all| && all[FirstIndex(all, all[p].query)].searchVolume >= MinVolume
      ensures exists k :: 0 <= k < |df| && df[k].trend.query == all[p].query
    {
      CandidatesAreComplete(all, p);
    }
  }

  // ---------------------------------------------------------------- news token

  /** The position of the first occurrence of `sep` in `s`. */
  function FirstOccurrence(sep: string, s: string): (k: nat)
    requires Contains(sep, s)
    ensures OccursAt(sep, s, k)
    ensures forall j: nat :: j < k ==> !OccursAt(sep, s, j)
    decreases |s|
  {
    if s[..|sep|] == sep then
      assert OccursAt(sep, s, 0);
      0
    else
      ContainsStep(sep, s);
      var k := FirstOccurrence(sep, s[1..]);
      assert s[1..][k..k + |sep|] == s[k + 1..k + 1 + |sep|];
      forall j: nat | 0 < j < k + 1
        ensures !OccursAt(sep, s, j)
      {
        if OccursAt(sep, s, j) {
          assert s[1..][j - 1..j - 1 + |sep|] == s[j..j + |sep|];
          assert OccursAt(sep, s[1..], j - 1);
        }
      }
      k + 1
  }

  /** `s.split(sep)[-1]`: cut at the first occurrence, again and again, and keep the last piece. */
  function LastPiece(s: string, sep: string): (piece: string)
    requires |sep| > 0
    ensures !Contains(sep, piece)
    ensures !Contains(sep, s) ==> piece == s
    ensures Contains(sep, s) ==> exists k: nat :: OccursAt(sep, s, k) && piece == s[k + |sep|..]
    decreases |s|
  {
    if !Contains(sep, s) then s
    else
      var k := FirstOccurrence(sep, s);
      var rest := s[k + |sep|..];
      var piece := LastPiece(rest, sep);
      if Contains(sep, rest) then
        OccurrenceInSuffix(sep, s, k + |sep|, piece);
        piece
      else
        piece
  }

  /** An occurrence inside the suffix `s[m..]` is an occurrence in `s`, with the same text after it. */
  lemma OccurrenceInSuffix(sep: string, s: string, m: nat, piece: string)
    requires m <= |s|
    requires exists j: nat :: OccursAt(sep, s[m..], j) && piece == s[m..][j + |sep|..]
    ensures exists k: nat :: OccursAt(sep, s, k) && piece == s[k + |sep|..]
  {
    var j: nat :| OccursAt(sep, s[m..], j) && piece == s[m..][j + |sep|..];
    assert s[m..][j..j + |sep|] == s[m + j..m + j + |sep|];
    assert OccursAt(sep, s, m + j);
    assert s[m..][j + |sep|..] == s[m + j + |sep|..];
  }

  /**
    The page token of `fetch_news_snippets` (lines 57-59): empty when the
    link is missing, empty or has no "page_token="; otherwise the text after
    an occurrence of "page_token=" that contains no further occurrence.
  */
  function PageToken(endpoint: Option<string>): (token: string)
    ensures endpoint.None? || !Contains(PageTokenKey, endpoint.value) ==> token == ""
    ensures endpoint.Some? && Contains(PageTokenKey, endpoint.value) ==>
      && !Contains(PageTokenKey, token)
      && exists k: nat :: OccursAt(PageTokenKey, endpoint.value, k) && token == endpoint.value[k + |PageTokenKey|..]
  {
    if endpoint.None? || endpoint.value == "" || !Contains(PageTokenKey, endpoint.value) then ""
    else LastPiece(endpoint.value, PageTokenKey)
  }

  /**
    The token starts after the last "page_token=": every occurrence of the
    key ends at or before the token begins. (The key cannot overlap itself,
    since its first letter appears nowhere else in it.)
  */
  lemma TokenFollowsLastOccurrence(endpoint: string, k: nat)
    requires OccursAt(PageTokenKey, endpoint, k)
    ensures k + |PageTokenKey| + |PageToken(Some(endpoint))| <= |endpoint|
  {
    var key := PageTokenKey;
    var token := PageToken(Some(endpoint));
    assert Contains(key, endpoint);
    var j: nat :| OccursAt(key, endpoint, j) && token == endpoint[j + |key|..];
    if k > j {
      if k >= j + |key| {
        LaterOccurrenceIsInToken(key, endpoint, j, k, token);
      } else {
        KeyDoesNotOverlap(endpoint, j, k);
      }
    }
  }

  /** An occurrence at or after the start of the token would be an occurrence inside it. */
  lemma LaterOccurrenceIsInToken(key: string, endpoint: string, j: nat, k: nat, token: string)
    requires j + |key| <= k
    requires OccursAt(key, endpoint, k)
    requires j + |key| <= |endpoint| && token == endpoint[j + |key|..]
    ensures Contains(key, token)
  {
    assert token[k - j - |key|..k - j] == endpoint[k..k + |key|];
    assert OccursAt(key, token, k - j - |key|);
  }

  /** Two occurrences of "page_token=" are never closer than its length. */
  lemma KeyDoesNotOverlap(endpoint: string, j: nat, k: nat)
    requires j < k < j + |PageTokenKey|
    requires OccursAt(PageTokenKey, endpoint, j)
    ensures !OccursAt(PageTokenKey, endpoint, k)
  {
    var key := PageTokenKey;
    assert endpoint[k] == endpoint[j..j + |key|][k - j] == key[k - j];
    assert key[0] == 'p' && key[k - j] != 'p';
    assert k + |key| <= |endpoint| ==> endpoint[k..k + |key|][0] == endpoint[k];
  }
}
