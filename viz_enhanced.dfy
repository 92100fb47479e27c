/** utils/viz_enhanced.py: the data behind two charts. The channel chart
    chooses a channel column, sums the views per channel and keeps the
    `top_n` largest totals; the engagement chart scores the rows with
    positive views and known likes and comments. The figures themselves are
    not modelled. */
module VizEnhanced {
  import opened Frame
  import Prep

  // ---------------------------------------------------------------------
  // Choosing the channel column

  /** The characters `str.strip()` removes: those for which Python's
      `str.isspace` holds. */
  predicate IsSpace(ch: char) {
    || ch == ' '
    || '\t' <= ch <= '\r'
    || '\U{1c}' <= ch <= '\U{1f}'
    || ch == '\U{85}' || ch == '\U{a0}' || ch == '\U{1680}'
    || '\U{2000}' <= ch <= '\U{200a}'
    || ch == '\U{2028}' || ch == '\U{2029}' || ch == '\U{202f}' || ch == '\U{205f}' || ch == '\U{3000}'
  }

  predicate Blank(s: string) {
    forall k :: 0 <= k < |s| ==> IsSpace(s[k])
  }

  /** `str(c).strip() == ''` after `astype(str)`: only a text cell can be
      blank, since a missing name is printed as "nan". */
  predicate BlankAsWritten(c: Cell) {
    c.Text? && Blank(c.s)
  }

  /** Blank as `fillna('')` means it: a missing name counts as blank. */
  predicate BlankName(c: Cell) {
    c.Missing? || BlankAsWritten(c)
  }

  predicate SomeNameAsWritten(df: Table) {
    exists i :: 0 <= i < |df.rows| && !BlankAsWritten(Get(df.rows[i], ChannelName))
  }

  predicate SomeName(df: Table) {
    exists i :: 0 <= i < |df.rows| && !BlankName(Get(df.rows[i], ChannelName))
  }

  /** The grouping column as written: `channelName` when one of its cells,
      turned into a string, is not blank; otherwise `channelId`; none when
      the frame has neither column. */
  function GroupColumnAsWritten(df: Table): (key: Option<Name>)
    ensures key.None? <==> ChannelName !in df.columns && ChannelId !in df.columns
    ensures key == Some(ChannelName) <==> ChannelName in df.columns && SomeNameAsWritten(df)
  {
    if ChannelName !in df.columns && ChannelId !in df.columns then None
    else if ChannelName in df.columns && SomeNameAsWritten(df) then Some(ChannelName)
    else Some(ChannelId)
  }

  /** The grouping column, with missing names counted as blank. */
  function GroupColumn(df: Table): (key: Option<Name>)
    ensures key.None? <==> ChannelName !in df.columns && ChannelId !in df.columns
    ensures key == Some(ChannelName) <==> ChannelName in df.columns && SomeName(df)
    ensures key == Some(ChannelId) <==>
      ((ChannelName in df.columns || ChannelId in df.columns) && !(ChannelName in df.columns && SomeName(df)))
  {
    if ChannelName !in df.columns && ChannelId !in df.columns then None
    else if ChannelName in df.columns && SomeName(df) then Some(ChannelName)
    else Some(ChannelId)
  }

  /** Counting missing names as blank can only move the choice from
      `channelName` to `channelId`, never the other way. */
  lemma GroupColumnNarrows(df: Table)
    ensures GroupColumn(df) == Some(ChannelName) ==> GroupColumnAsWritten(df) == Some(ChannelName)
    ensures GroupColumn(df) != GroupColumnAsWritten(df) ==>
      GroupColumn(df) == Some(ChannelId) && GroupColumnAsWritten(df) == Some(ChannelName) &&
      forall i :: 0 <= i < |df.rows| && !BlankAsWritten(Get(df.rows[i], ChannelName)) ==>
        Get(df.rows[i], ChannelName).Missing?
  {
    if SomeName(df) {
      var i :| 0 <= i < |df.rows| && !BlankName(Get(df.rows[i], ChannelName));
      assert !BlankAsWritten(Get(df.rows[i], ChannelName));
    }
  }

  // ---------------------------------------------------------------------
  // Views per channel

  /** A channel's total: its key and the sum of its views. */
  datatype Total = Total(key: Cell, views: real)

  /** A row's views as `sum()` adds them: NaN is skipped. */
  function ViewsOf(r: Row): real {
    var v := Get(r, VideoViewCount);
    if v.Num? then v.x else 0.0
  }

  /** The views summed over the rows whose key is `k`. */
  function SumFor(rows: seq<Row>, key: Name, k: Cell): real {
    if |rows| == 0 then 0.0
    else
      var last := rows[|rows| - 1];
      SumFor(rows[..|rows| - 1], key, k) + if Get(last, key) == k then ViewsOf(last) else 0.0
  }

  /** With no negative view counts, every channel total is non-negative. */
  lemma {:induction false} SumForNonNegative(rows: seq<Row>, key: Name, k: Cell)
    requires forall i :: 0 <= i < |rows| ==> ViewsOf(rows[i]) >= 0.0
    ensures SumFor(rows, key, k) >= 0.0
  {
    if |rows| > 0 {
      SumForNonNegative(rows[..|rows| - 1], key, k);
    }
  }

  /** The groups of `groupby`: the distinct present keys, in order of first
      appearance; rows with a missing key belong to none. */
  function KeysOf(rows: seq<Row>, key: Name): (ks: seq<Cell>)
    ensures Distinct(ks)
    ensures forall k :: k in ks <==> !k.Missing? && exists i :: 0 <= i < |rows| && Get(rows[i], key) == k
  {
    if |rows| == 0 then []
    else
      var init := rows[..|rows| - 1];
      var ks := KeysOf(init, key);
      var k := Get(rows[|rows| - 1], key);
      assert forall i :: 0 <= i < |init| ==> init[i] == rows[i];
      if k.Missing? || k in ks then ks else ks + [k]
  }

  /** `df.groupby(key)['videoViewCount'].sum()` */
  function Groups(rows: seq<Row>, key: Name): (gs: seq<Total>)
    ensures |gs| == |KeysOf(rows, key)|
    ensures forall j :: 0 <= j < |gs| ==> gs[j] == Total(KeysOf(rows, key)[j], SumFor(rows, key, KeysOf(rows, key)[j]))
  {
    var ks := KeysOf(rows, key);
    seq(|ks|, j requires 0 <= j < |ks| => Total(ks[j], SumFor(rows, key, ks[j])))
  }

  /** Each channel appears once, with the sum of its rows' views, and every
      channel with a present key appears. */
  lemma GroupsAreChannels(rows: seq<Row>, key: Name)
    ensures forall j :: 0 <= j < |Groups(rows, key)| ==>
      Groups(rows, key)[j].views == SumFor(rows, key, Groups(rows, key)[j].key)
    ensures forall a, b :: 0 <= a < b < |Groups(rows, key)| ==> Groups(rows, key)[a].key != Groups(rows, key)[b].key
    ensures forall i :: 0 <= i < |rows| && !Get(rows[i], key).Missing? ==>
      Total(Get(rows[i], key), SumFor(rows, key, Get(rows[i], key))) in Groups(rows, key)
  {
    var gs := Groups(rows, key);
    var ks := KeysOf(rows, key);
    forall i | 0 <= i < |rows| && !Get(rows[i], key).Missing?
      ensures Total(Get(rows[i], key), SumFor(rows, key, Get(rows[i], key))) in gs
    {
      var k := Get(rows[i], key);
      assert k in ks;
      var j :| 0 <= j < |ks| && ks[j] == k;
      assert gs[j] == Total(k, SumFor(rows, key, k));
    }
  }

  /** The views of the rows whose key is present: what the groups share. */
  function KeyedViews(rows: seq<Row>, key: Name): real {
    if |rows| == 0 then 0.0
    else
      var last := rows[|rows| - 1];
      KeyedViews(rows[..|rows| - 1], key) + if Get(last, key).Missing? then 0.0 else ViewsOf(last)
  }

  /** The sum of the totals. */
  function TotalViews(gs: seq<Total>): real {
    if |gs| == 0 then 0.0 else TotalViews(gs[..|gs| - 1]) + gs[|gs| - 1].views
  }

  /** The channel sums of the keys `ks`, added up. */
  function KeySums(rows: seq<Row>, key: Name, ks: seq<Cell>): real {
    if |ks| == 0 then 0.0 else KeySums(rows, key, ks[..|ks| - 1]) + SumFor(rows, key, ks[|ks| - 1])
  }

  lemma {:induction false} TotalsAreKeySums(rows: seq<Row>, key: Name, ks: seq<Cell>, gs: seq<Total>)
    requires |gs| == |ks| && forall j :: 0 <= j < |gs| ==> gs[j].views == SumFor(rows, key, ks[j])
    ensures TotalViews(gs) == KeySums(rows, key, ks)
  {
    if |ks| > 0 {
      TotalsAreKeySums(rows, key, ks[..|ks| - 1], gs[..|gs| - 1]);
    }
  }

  /** A key no row carries sums to nothing. */
  lemma {:induction false} SumForAbsent(rows: seq<Row>, key: Name, k: Cell)
    requires forall i :: 0 <= i < |rows| ==> Get(rows[i], key) != k
    ensures SumFor(rows, key, k) == 0.0
  {
    if |rows| > 0 {
      SumForAbsent(rows[..|rows| - 1], key, k);
    }
  }

  /** One more row adds its views to the sum of its own key, if that key is
      among `ks`, and to no other. */
  lemma {:induction false} KeySumsStep(rows: seq<Row>, last: Row, key: Name, ks: seq<Cell>)
    requires Distinct(ks)
    ensures KeySums(rows + [last], key, ks) ==
      KeySums(rows, key, ks) + if Get(last, key) in ks then ViewsOf(last) else 0.0
  {
    if |ks| > 0 {
      var init := ks[..|ks| - 1];
      var k := ks[|ks| - 1];
      KeySumsStep(rows, last, key, init);
      assert (rows + [last])[..|rows|] == rows;
      assert ks == init + [k];
      assert Get(last, key) in ks <==> Get(last, key) in init || Get(last, key) == k;
      assert k !in init;
    }
  }

  lemma {:induction false} KeySumsConserve(rows: seq<Row>, key: Name)
    ensures KeySums(rows, key, KeysOf(rows, key)) == KeyedViews(rows, key)
  {
    if |rows| > 0 {
      var init := rows[..|rows| - 1];
      var last := rows[|rows| - 1];
      var ks := KeysOf(init, key);
      var k := Get(last, key);
      assert rows == init + [last];
      KeySumsConserve(init, key);
      KeySumsStep(init, last, key, ks);
      assert KeyedViews(rows, key) == KeyedViews(init, key) + if k.Missing? then 0.0 else ViewsOf(last);
      if k.Missing? || k in ks {
        assert KeysOf(rows, key) == ks;
        assert k in ks <==> !k.Missing?;
      } else {
        assert KeysOf(rows, key) == ks + [k];
        assert (ks + [k])[..|ks|] == ks;
        assert KeySums(rows, key, ks + [k]) == KeySums(rows, key, ks) + SumFor(rows, key, k);
        NewKeyAbsent(init, key, k);
        SumForAbsent(init, key, k);
        assert SumFor(rows, key, k) == SumFor(init, key, k) + ViewsOf(last);
      }
    }
  }

  /** A present key that is not yet a group is carried by no row. */
  lemma NewKeyAbsent(rows: seq<Row>, key: Name, k: Cell)
    requires !k.Missing? && k !in KeysOf(rows, key)
    ensures forall i :: 0 <= i < |rows| ==> Get(rows[i], key) != k
  {
  }

  /** `groupby(...).sum()` neither loses nor invents views: the group totals
      add up to the views of every row whose key is present. */
  lemma GroupsConserveViews(rows: seq<Row>, key: Name)
    ensures TotalViews(Groups(rows, key)) == KeyedViews(rows, key)
  {
    TotalsAreKeySums(rows, key, KeysOf(rows, key), Groups(rows, key));
    KeySumsConserve(rows, key);
  }

  // ---------------------------------------------------------------------
  // sort_values(ascending=False).head(top_n)

  predicate SortedDesc(ts: seq<Total>) {
    forall i, j :: 0 <= i < j < |ts| ==> ts[i].views >= ts[j].views
  }

  /** A largest entry followed by a sorted sequence is sorted. */
  lemma ConsSorted(h: Total, rest: seq<Total>)
    requires SortedDesc(rest)
    requires forall j :: 0 <= j < |rest| ==> h.views >= rest[j].views
    ensures SortedDesc([h] + rest)
  {
  }

  function Insert(t: Total, ts: seq<Total>): (out: seq<Total>)
    requires SortedDesc(ts)
    ensures SortedDesc(out)
    ensures multiset(out) == multiset(ts) + multiset{t}
    ensures forall x :: x in out <==> x in ts || x == t
  {
    if |ts| == 0 then [t]
    else if t.views >= ts[0].views then
      ConsSorted(t, ts);
      [t] + ts
    else
      var rest := Insert(t, ts[1..]);
      assert ts == [ts[0]] + ts[1..];
      assert forall j :: 0 <= j < |rest| ==> rest[j] in rest;
      ConsSorted(ts[0], rest);
      [ts[0]] + rest
  }

  /** The totals from largest to smallest; ties keep no particular order. */
  function SortDesc(ts: seq<Total>): (out: seq<Total>)
    ensures SortedDesc(out)
    ensures multiset(out) == multiset(ts)
  {
    if |ts| == 0 then []
    else
      assert ts == [ts[0]] + ts[1..];
      Insert(ts[0], SortDesc(ts[1..]))
  }

  /** `head(n)`: the first `n` entries; a negative `n` drops the last `-n`. */
  function Head<T>(s: seq<T>, n: int): (out: seq<T>)
    ensures |out| == if n >= 0 then (if n <= |s| then n else |s|) else (if |s| + n >= 0 then |s| + n else 0)
    ensures out == s[..|out|]
  {
    if n >= 0 then (if n <= |s| then s[..n] else s)
    else if |s| + n >= 0 then s[..|s| + n] else []
  }

  /** The channel ranking for a grouping column. */
  function Ranking(rows: seq<Row>, key: Name, topN: int): seq<Total> {
    Head(SortDesc(Groups(rows, key)), topN)
  }

  /** In a sorted sequence, an entry outside the first `m` is no larger than
      any entry inside them. */
  lemma LeftOutIsSmaller(sorted: seq<Total>, m: nat, g: Total)
    requires SortedDesc(sorted) && m <= |sorted|
    requires g in sorted && g !in sorted[..m]
    ensures forall t :: t in sorted[..m] ==> g.views <= t.views
  {
    var p :| 0 <= p < |sorted| && sorted[p] == g;
    assert forall i :: 0 <= i < m ==> sorted[..m][i] == sorted[i];
    assert p >= m;
    forall t | t in sorted[..m] ensures g.views <= t.views {
      var q :| 0 <= q < m && sorted[..m][q] == t;
    }
  }

  /** The first `n` of the sorted totals: at most `n` of them, in order, all
      taken from `gs`, and none left out larger than one kept. */
  lemma TopOfSorted(gs: seq<Total>, n: int)
    requires n >= 0
    ensures |Head(SortDesc(gs), n)| <= n
    ensures SortedDesc(Head(SortDesc(gs), n))
    ensures forall t :: t in Head(SortDesc(gs), n) ==> t in gs
    ensures forall g, t :: g in gs && g !in Head(SortDesc(gs), n) && t in Head(SortDesc(gs), n) ==> g.views <= t.views
  {
    var sorted := SortDesc(gs);
    var top := Head(sorted, n);
    assert top == sorted[..|top|];
    forall t | t in top ensures t in gs {
      assert t in multiset(sorted);
    }
    forall g | g in gs && g !in top ensures forall t :: t in top ==> g.views <= t.views {
      assert g in multiset(sorted);
      LeftOutIsSmaller(sorted, |top|, g);
    }
  }

  /** The ranking holds at most `top_n` channels, from largest total to
      smallest, and no channel left out has a larger total than one kept. */
  lemma RankingTop(rows: seq<Row>, key: Name, topN: int)
    requires topN >= 0
    ensures |Ranking(rows, key, topN)| <= topN
    ensures SortedDesc(Ranking(rows, key, topN))
    ensures forall t :: t in Ranking(rows, key, topN) ==> t in Groups(rows, key)
    ensures forall g, t :: g in Groups(rows, key) && g !in Ranking(rows, key, topN) && t in Ranking(rows, key, topN) ==>
      g.views <= t.views
  {
    TopOfSorted(Groups(rows, key), topN);
  }

  /** Every total the chart shows is the sum of views over its channel's rows. */
  lemma RankingSums(rows: seq<Row>, key: Name, topN: int)
    ensures forall t :: t in Ranking(rows, key, topN) ==> t.views == SumFor(rows, key, t.key) && !t.key.Missing?
  {
    var gs := Groups(rows, key);
    var sorted := SortDesc(gs);
    var top := Ranking(rows, key, topN);
    forall t | t in top ensures t.views == SumFor(rows, key, t.key) && !t.key.Missing? {
      assert t in sorted;
      assert t in multiset(gs);
      var j :| 0 <= j < |gs| && gs[j] == t;
      assert KeysOf(rows, key)[j] in KeysOf(rows, key);
    }
  }

  // ---------------------------------------------------------------------
  // The channel chart

  /** The channel chart's data: none without a channel column, a `KeyError`
      when the chosen column or the view column is absent, and otherwise the
      ranking by the chosen column. */
  datatype ChannelData = NoChannelColumn | KeyMissing | Ranked(key: Name, ranking: seq<Total>)

  function ChartFor(df: Table, key: Option<Name>, topN: int): ChannelData {
    match key
    case None => NoChannelColumn
    case Some(k) =>
      if k !in df.columns || VideoViewCount !in df.columns then KeyMissing
      else Ranked(k, Ranking(df.rows, k, topN))
  }

  /** `create_channel_performance_comparison_chart` as written. */
  function ChannelPerformanceAsWritten(df: Table, topN: int): (chart: ChannelData)
    ensures chart.NoChannelColumn? <==> ChannelName !in df.columns && ChannelId !in df.columns
    ensures chart.Ranked? <==>
      GroupColumnAsWritten(df).Some? && GroupColumnAsWritten(df).value in df.columns && VideoViewCount in df.columns
    ensures chart.Ranked? ==>
      GroupColumnAsWritten(df) == Some(chart.key) && chart.ranking == Ranking(df.rows, chart.key, topN)
  {
    ChartFor(df, GroupColumnAsWritten(df), topN)
  }

  /** The channel chart, with missing names counted as blank. */
  function ChannelPerformance(df: Table, topN: int): (chart: ChannelData)
    ensures chart.NoChannelColumn? <==> ChannelName !in df.columns && ChannelId !in df.columns
    ensures chart.KeyMissing? <==>
      (ChannelName in df.columns || ChannelId in df.columns) &&
      (VideoViewCount !in df.columns || (ChannelId !in df.columns && !SomeName(df)))
    ensures chart.Ranked? ==>
      GroupColumn(df) == Some(chart.key) && chart.ranking == Ranking(df.rows, chart.key, topN)
  {
    ChartFor(df, GroupColumn(df), topN)
  }

  /** A frame whose only channel name is missing: the name column is chosen
      as written, and its one group key is NaN. */
  function NamelessFrame(): Table {
    Table([ChannelName, ChannelId, VideoViewCount],
          [map[ChannelName := Missing, ChannelId := Text("UC1"), VideoViewCount := Num(5.0)]])
  }

  /** As written, a frame whose channel names are all missing is grouped by
      `channelName`, and the groupby drops every row: the chart ranks no
      channel although `channelId` would rank one. */
  lemma NamelessChannelsAsWritten()
    ensures ChannelPerformanceAsWritten(NamelessFrame(), 10) == Ranked(ChannelName, [])
  {
    var df := NamelessFrame();
    assert !BlankAsWritten(Get(df.rows[0], ChannelName));
    assert df.rows[..0] == [];
    assert KeysOf(df.rows, ChannelName) == [];
  }

  /** Counting the missing name as blank, the same frame is ranked by
      `channelId` and its one channel appears with its views. */
  lemma NamelessChannelsCorrected()
    ensures ChannelPerformance(NamelessFrame(), 10) == Ranked(ChannelId, [Total(Text("UC1"), 5.0)])
  {
    var df := NamelessFrame();
    assert BlankName(Get(df.rows[0], ChannelName));
    assert GroupColumn(df) == Some(ChannelId);
    assert df.rows[..0] == [];
    assert KeysOf(df.rows[..0], ChannelId) == [];
    assert Get(df.rows[0], ChannelId) == Text("UC1");
    assert KeysOf(df.rows, ChannelId) == [Text("UC1")];
    assert SumFor(df.rows, ChannelId, Text("UC1")) == 5.0;
    assert Groups(df.rows, ChannelId) == [Total(Text("UC1"), 5.0)];
  }

  /** With missing names counted as blank, a chart grouped by `channelName`
      ranks at least one channel when `top_n` covers the rows. */
  lemma NamedChannelsRanked(df: Table)
    requires ChannelPerformance(df, |df.rows|).Ranked? && ChannelPerformance(df, |df.rows|).key == ChannelName
    ensures |ChannelPerformance(df, |df.rows|).ranking| > 0
  {
    var i :| 0 <= i < |df.rows| && !BlankName(Get(df.rows[i], ChannelName));
    var k := Get(df.rows[i], ChannelName);
    assert k in KeysOf(df.rows, ChannelName);
    var gs := Groups(df.rows, ChannelName);
    assert |gs| > 0;
    var sorted := SortDesc(gs);
    assert |sorted| == |multiset(sorted)| == |multiset(gs)| == |gs|;
    assert |gs| <= |df.rows| by {
      KeysBound(df.rows, ChannelName);
    }
  }

  /** There are no more groups than rows. */
  lemma {:induction false} KeysBound(rows: seq<Row>, key: Name)
    ensures |KeysOf(rows, key)| <= |rows|
  {
    if |rows| > 0 {
      KeysBound(rows[..|rows| - 1], key);
    }
  }

  // ---------------------------------------------------------------------
  // The engagement chart

  /** The engagement chart's data: a `KeyError` without the view, like or
      comment column, none without a valid row, and otherwise the valid rows
      with their score. */
  datatype ScoreData = ScoreKeyMissing | NoValidRows | Scored(valid: Table)

  /** The chart's score of a row: the formula `score` stands for, applied
      to the row's views, likes and comments. */
  function ScoreCell(r: Row, score: (Cell, Cell, Cell) -> Cell): Cell {
    score(Get(r, VideoViewCount), Get(r, VideoLikeCount), Get(r, VideoCommentCount))
  }

  /** `valid_df`: the rows with positive views and known likes and comments,
      every copy of each, in order. */
  function ValidRows(df: Table): (valid: Table)
    ensures valid.columns == df.columns
    ensures forall r :: r in valid.rows <==> r in df.rows && Prep.Eligible(r)
    ensures forall r :: multiset(valid.rows)[r] == if Prep.Eligible(r) then multiset(df.rows)[r] else 0
    ensures Subseq(valid.rows, df.rows)
    ensures forall i :: 0 <= i < |valid.rows| ==> Prep.Eligible(valid.rows[i])
    ensures |valid.rows| == 0 <==> forall i :: 0 <= i < |df.rows| ==> !Prep.Eligible(df.rows[i])
  {
    var valid := Where(df, r => Prep.Eligible(r));
    assert forall i :: 0 <= i < |valid.rows| ==> Prep.Eligible(valid.rows[i]) by {
      forall i | 0 <= i < |valid.rows| ensures Prep.Eligible(valid.rows[i]) {
        assert valid.rows[i] in valid.rows;
      }
    }
    assert |valid.rows| == 0 <==> forall i :: 0 <= i < |df.rows| ==> !Prep.Eligible(df.rows[i]) by {
      if |valid.rows| > 0 {
        assert valid.rows[0] in df.rows;
      } else {
        forall i | 0 <= i < |df.rows| ensures !Prep.Eligible(df.rows[i]) {
          assert df.rows[i] in df.rows;
        }
      }
    }
    valid
  }

  /** `create_engagement_score_distribution_chart`: a `KeyError` without the
      view, like or comment column, none without a valid row, and otherwise
      the valid rows with the score column set. */
  function EngagementDistribution(df: Table, score: (Cell, Cell, Cell) -> Cell): (chart: ScoreData)
    ensures chart.ScoreKeyMissing? <==>
      !(VideoViewCount in df.columns && VideoLikeCount in df.columns && VideoCommentCount in df.columns)
    ensures chart.NoValidRows? <==> !chart.ScoreKeyMissing? && forall i :: 0 <= i < |df.rows| ==> !Prep.Eligible(df.rows[i])
  {
    if !(VideoViewCount in df.columns && VideoLikeCount in df.columns && VideoCommentCount in df.columns) then
      ScoreKeyMissing
    else
      var valid := ValidRows(df);
      if |valid.rows| > 0 then Scored(Assign(valid, EngagementScore, r => ScoreCell(r, score)))
      else NoValidRows
  }

  /** Every scored row is a valid row of the frame, with its score set, in
      the frame's order. */
  lemma EngagementRows(df: Table, score: (Cell, Cell, Cell) -> Cell)
    requires EngagementDistribution(df, score).Scored?
    ensures var chart := EngagementDistribution(df, score).valid;
      && |chart.rows| > 0
      && |chart.rows| == |ValidRows(df).rows|
      && forall i :: 0 <= i < |chart.rows| ==>
           && chart.rows[i] == ValidRows(df).rows[i][EngagementScore := ScoreCell(ValidRows(df).rows[i], score)]
           && Prep.Eligible(chart.rows[i])
           && Get(chart.rows[i], EngagementScore) == ScoreCell(chart.rows[i], score)
  {
    var valid := ValidRows(df);
    var chart := EngagementDistribution(df, score).valid;
    forall i | 0 <= i < |chart.rows|
      ensures Prep.Eligible(chart.rows[i]) && Get(chart.rows[i], EngagementScore) == ScoreCell(chart.rows[i], score)
    {
      var r := valid.rows[i];
      assert chart.rows[i] == r[EngagementScore := ScoreCell(r, score)];
      assert Get(chart.rows[i], VideoViewCount) == Get(r, VideoViewCount);
      assert Get(chart.rows[i], VideoLikeCount) == Get(r, VideoLikeCount);
      assert Get(chart.rows[i], VideoCommentCount) == Get(r, VideoCommentCount);
    }
  }
}
