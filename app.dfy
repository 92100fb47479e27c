/** app.py: `main`, without its Streamlit output. The dashboard loads the data
    once to check it and to build the sidebar, loads it again with the
    sidebar's sampling settings, narrows it through the min-views, max-views
    and category filters, and engineers the features the tabs display. */
module App {
  import opened Frame
  import Io
  import Prep

  /** The sidebar values `main` reads. The view bounds are offered only when
      the first load has `videoViewCount`, the category choice only when it
      has `categoryName`; the values the user would enter are given here
      either way. */
  datatype Controls = Controls(
    useSampling: bool,
    sampleSize: int,
    minViews: int,
    maxViews: int,
    selected: seq<Cell>)

  /** The warnings the filter chain raises when it skips a stage. */
  datatype Notice = MinViewsIgnored | MaxViewsIgnored

  /** How `main` ends. */
  datatype Outcome =
    | DataFileMissing              // the data file does not exist
    | LoadFailed                   // the first load returned None
    | DataEmpty                    // the first load returned an empty frame
    | NothingShown                 // the second load returned None
    | Shown(data: Table, notices: seq<Notice>)

  /** A frame and the warnings raised so far. */
  datatype Staged = Staged(df: Table, notices: seq<Notice>)

  /** The sample size of the first load. */
  const FirstSample: int := 50000

  /** `sample_size if use_sampling else None` */
  function SecondSample(ctl: Controls): Option<int> {
    if ctl.useSampling then Some(ctl.sampleSize) else None
  }

  predicate KeepMin(r: Row, minViews: int) {
    AtLeast(Get(r, VideoViewCount), minViews)
  }

  predicate KeepMax(r: Row, maxViews: int) {
    AtMost(Get(r, VideoViewCount), maxViews)
  }

  predicate KeepCategory(r: Row, selected: seq<Cell>) {
    Get(r, CategoryName) in selected
  }

  /** The min-views stage: with the widget shown and the column present, a
      non-negative bound keeps exactly the rows at or above it; a negative one
      is ignored with a warning. */
  function MinViewsStage(s: Staged, offered: bool, minViews: int): (out: Staged)
    ensures out.df.columns == s.df.columns
    ensures offered && VideoViewCount in s.df.columns && minViews >= 0 ==>
      out.notices == s.notices &&
      (forall r :: r in out.df.rows <==> r in s.df.rows && KeepMin(r, minViews)) &&
      (forall r :: multiset(out.df.rows)[r] == if KeepMin(r, minViews) then multiset(s.df.rows)[r] else 0)
    ensures !(offered && VideoViewCount in s.df.columns && minViews >= 0) ==> out.df == s.df
    ensures out.notices ==
      if offered && VideoViewCount in s.df.columns && minViews < 0 then s.notices + [MinViewsIgnored] else s.notices
  {
    if offered && VideoViewCount in s.df.columns then
      if minViews >= 0 then Staged(Where(s.df, r => KeepMin(r, minViews)), s.notices)
      else Staged(s.df, s.notices + [MinViewsIgnored])
    else s
  }

  /** The max-views stage: it keeps exactly the rows at or below the bound
      only when the bound is non-negative and not below the minimum, and
      otherwise warns and keeps everything. */
  function MaxViewsStage(s: Staged, offered: bool, minViews: int, maxViews: int): (out: Staged)
    ensures out.df.columns == s.df.columns
    ensures offered && VideoViewCount in s.df.columns && maxViews >= 0 && maxViews >= minViews ==>
      out.notices == s.notices &&
      (forall r :: r in out.df.rows <==> r in s.df.rows && KeepMax(r, maxViews)) &&
      (forall r :: multiset(out.df.rows)[r] == if KeepMax(r, maxViews) then multiset(s.df.rows)[r] else 0)
    ensures !(offered && VideoViewCount in s.df.columns && maxViews >= 0 && maxViews >= minViews) ==> out.df == s.df
    ensures out.notices ==
      if offered && VideoViewCount in s.df.columns && !(maxViews >= 0 && maxViews >= minViews)
      then s.notices + [MaxViewsIgnored] else s.notices
  {
    if offered && VideoViewCount in s.df.columns then
      if maxViews >= 0 && maxViews >= minViews then Staged(Where(s.df, r => KeepMax(r, maxViews)), s.notices)
      else Staged(s.df, s.notices + [MaxViewsIgnored])
    else s
  }

  /** The category stage runs only for a non-empty selection on a frame with
      `categoryName`, and keeps exactly the rows whose category was chosen. */
  function CategoryStage(s: Staged, offered: bool, selected: seq<Cell>): (out: Staged)
    ensures out.df.columns == s.df.columns && out.notices == s.notices
    ensures offered && |selected| > 0 && CategoryName in s.df.columns ==>
      (forall r :: r in out.df.rows <==> r in s.df.rows && KeepCategory(r, selected)) &&
      (forall r :: multiset(out.df.rows)[r] == if KeepCategory(r, selected) then multiset(s.df.rows)[r] else 0)
    ensures !(offered && |selected| > 0 && CategoryName in s.df.columns) ==> out.df == s.df
  {
    if offered && |selected| > 0 && CategoryName in s.df.columns then
      Staged(Where(s.df, r => KeepCategory(r, selected)), s.notices)
    else s
  }

  /** The three filters in the order `main` applies them. `first` is the
      frame of the first load, whose columns decide which widgets exist. */
  function Chain(first: Table, df: Table, ctl: Controls): Staged {
    var views := VideoViewCount in first.columns;
    var s1 := MinViewsStage(Staged(df, []), views, ctl.minViews);
    var s2 := MaxViewsStage(s1, views, ctl.minViews, ctl.maxViews);
    CategoryStage(s2, CategoryName in first.columns, ctl.selected)
  }

  /** Each stage keeps the rows of its input that it keeps, in order. */
  lemma StageNarrows(s: Staged, offered: bool, ctl: Controls)
    ensures Subseq(MinViewsStage(s, offered, ctl.minViews).df.rows, s.df.rows)
    ensures Subseq(MaxViewsStage(s, offered, ctl.minViews, ctl.maxViews).df.rows, s.df.rows)
    ensures Subseq(CategoryStage(s, offered, ctl.selected).df.rows, s.df.rows)
  {
    SubseqReflexive(s.df.rows);
  }

  /** The chain only narrows: its rows are an order-preserving subsequence of
      the loaded rows, under the same columns. */
  lemma ChainNarrows(first: Table, df: Table, ctl: Controls)
    ensures Chain(first, df, ctl).df.columns == df.columns
    ensures Subseq(Chain(first, df, ctl).df.rows, df.rows)
    ensures |Chain(first, df, ctl).df.rows| <= |df.rows|
  {
    var views := VideoViewCount in first.columns;
    var s1 := MinViewsStage(Staged(df, []), views, ctl.minViews);
    var s2 := MaxViewsStage(s1, views, ctl.minViews, ctl.maxViews);
    var s3 := CategoryStage(s2, CategoryName in first.columns, ctl.selected);
    StageNarrows(Staged(df, []), views, ctl);
    StageNarrows(s1, views, ctl);
    StageNarrows(s2, CategoryName in first.columns, ctl);
    SubseqTransitive(s2.df.rows, s1.df.rows, df.rows);
    SubseqTransitive(s3.df.rows, s2.df.rows, df.rows);
    SubseqLength(s3.df.rows, df.rows);
  }

  /** A row survives the chain exactly when it passes every stage that ran,
      and then every copy of it survives. */
  lemma ChainKeeps(first: Table, df: Table, ctl: Controls, r: Row)
    ensures var views := VideoViewCount in first.columns && VideoViewCount in df.columns;
      var minOn := views && ctl.minViews >= 0;
      var maxOn := views && ctl.maxViews >= 0 && ctl.maxViews >= ctl.minViews;
      var catOn := CategoryName in first.columns && |ctl.selected| > 0 && CategoryName in df.columns;
      var passes := && (minOn ==> KeepMin(r, ctl.minViews))
                    && (maxOn ==> KeepMax(r, ctl.maxViews))
                    && (catOn ==> KeepCategory(r, ctl.selected));
      && (r in Chain(first, df, ctl).df.rows <==> r in df.rows && passes)
      && multiset(Chain(first, df, ctl).df.rows)[r] == if passes then multiset(df.rows)[r] else 0
  {
  }

  /** Without `videoViewCount` and `categoryName` columns the chain changes
      nothing and warns about nothing. */
  lemma ChainWithoutColumns(first: Table, df: Table, ctl: Controls)
    requires VideoViewCount !in df.columns && CategoryName !in df.columns
    ensures Chain(first, df, ctl) == Staged(df, [])
  {
  }

  /** How `main` ends for the given file, settings and library behaviour. */
  ghost predicate Ran(file: Option<Io.CsvSource>, ctl: Controls, draw: (nat, nat) -> seq<nat>,
                      toDatetime: seq<Cell> -> Io.DateConversion, score: (Cell, Cell, Cell) -> Cell,
                      out: Outcome)
    requires Io.ValidDraw(draw) && Io.KeepsLength(toDatetime)
  {
    if file.None? then out == DataFileMissing
    else
      var first := Io.Loaded(file, Some(FirstSample), draw, toDatetime);
      if first.None? then out == LoadFailed
      else if IsEmpty(first.value) then out == DataEmpty
      else
        var second := Io.Loaded(file, SecondSample(ctl), draw, toDatetime);
        if second.None? then out == NothingShown
        else
          var chained := Chain(first.value, second.value, ctl);
          out.Shown? && out.notices == chained.notices && Prep.Engineered(chained.df, out.data, score)
  }

  /** `main`: the load guards, the second load, the filter chain and feature
      engineering. */
  method RunMain(file: Option<Io.CsvSource>, ctl: Controls, draw: (nat, nat) -> seq<nat>,
                 toDatetime: seq<Cell> -> Io.DateConversion, score: (Cell, Cell, Cell) -> Cell)
    returns (out: Outcome)
    requires file.Some? ==> Io.Sound(file.value)
    requires Io.ValidDraw(draw) && Io.KeepsLength(toDatetime)
    ensures Ran(file, ctl, draw, toDatetime, score, out)
  {
    if file.None? {
      return DataFileMissing;
    }
    var loaded, progress := Io.LoadData(file, Some(FirstSample), draw, toDatetime);
    if loaded.None? {
      return LoadFailed;
    }
    var first := loaded.value;
    if IsEmpty(first) {
      return DataEmpty;
    }
    var viewsOffered := VideoViewCount in first.columns;
    var categoriesOffered := CategoryName in first.columns;
    loaded, progress := Io.LoadData(file, SecondSample(ctl), draw, toDatetime);
    if loaded.None? {
      return NothingShown;
    }
    var df := loaded.value;
    var notices: seq<Notice> := [];
    if viewsOffered && VideoViewCount in df.columns {
      if ctl.minViews >= 0 {
        df := Where(df, r => KeepMin(r, ctl.minViews));
      } else {
        notices := notices + [MinViewsIgnored];
      }
    }
    if viewsOffered && VideoViewCount in df.columns {
      if ctl.maxViews >= 0 && ctl.maxViews >= ctl.minViews {
        df := Where(df, r => KeepMax(r, ctl.maxViews));
      } else {
        notices := notices + [MaxViewsIgnored];
      }
    }
    if categoriesOffered && |ctl.selected| > 0 && CategoryName in df.columns {
      df := Where(df, r => KeepCategory(r, ctl.selected));
    }
    assert Staged(df, notices) == Chain(first, loaded.value, ctl);
    var eng := Prep.EngineerFeatures(df, score);
    return Shown(eng, notices);
  }

  /** `main` filters nothing when the file is missing or the first load is
      `None` or empty. */
  lemma ReturnsBeforeFiltering(file: Option<Io.CsvSource>, ctl: Controls, draw: (nat, nat) -> seq<nat>,
                               toDatetime: seq<Cell> -> Io.DateConversion, score: (Cell, Cell, Cell) -> Cell,
                               out: Outcome)
    requires Io.ValidDraw(draw) && Io.KeepsLength(toDatetime)
    requires Ran(file, ctl, draw, toDatetime, score, out)
    requires file.None? || Io.Loaded(file, Some(FirstSample), draw, toDatetime).None? ||
             IsEmpty(Io.Loaded(file, Some(FirstSample), draw, toDatetime).value)
    ensures !out.Shown? && !out.NothingShown?
  {
  }

  /** What `main` shows has at most the rows of the second load. */
  lemma ShownRows(file: Option<Io.CsvSource>, ctl: Controls, draw: (nat, nat) -> seq<nat>,
                  toDatetime: seq<Cell> -> Io.DateConversion, score: (Cell, Cell, Cell) -> Cell,
                  out: Outcome)
    requires Io.ValidDraw(draw) && Io.KeepsLength(toDatetime)
    requires Ran(file, ctl, draw, toDatetime, score, out) && out.Shown?
    ensures file.Some? && Io.Loaded(file, SecondSample(ctl), draw, toDatetime).Some?
    ensures |out.data.rows| <= |Io.Loaded(file, SecondSample(ctl), draw, toDatetime).value.rows|
  {
    var first := Io.Loaded(file, Some(FirstSample), draw, toDatetime).value;
    var second := Io.Loaded(file, SecondSample(ctl), draw, toDatetime).value;
    ChainNarrows(first, second, ctl);
  }
}
