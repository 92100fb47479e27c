/** utils/prep.py: `clean_data` (sentinel and infinity cleaning) and
    `engineer_features` (derived columns). `normalize_data` is not part of
    this model. */
module Prep {
  import opened Frame

  // ---------------------------------------------------------------------
  // clean_data

  /** The dataset's missing-value markers, `-2.0` and `-1.0`. */
  const Sentinels: set<Cell> := {Num(-2.0), Num(-1.0)}

  const Infinities: set<Cell> := {PosInf, NegInf}

  /** `Series.replace(values, np.nan)` on one cell. */
  function Replace(c: Cell, values: set<Cell>): Cell {
    if c in values then Missing else c
  }

  /** The cell `clean_data` leaves: both replacements, one after the other. */
  function CleanCell(c: Cell): (d: Cell)
    ensures d == (if c in Sentinels + Infinities then Missing else c)
  {
    Replace(Replace(c, Sentinels), Infinities)
  }

  predicate NumericCell(c: Cell) {
    IsNumber(c) || c.Missing?
  }

  /** `select_dtypes(include=[np.number])` keeps a column when it holds only
      numbers and NaN. */
  predicate IsNumericColumn(t: Table, c: Name) {
    forall i :: 0 <= i < |t.rows| ==> NumericCell(Get(t.rows[i], c))
  }

  function NumericColumns(t: Table): (cols: seq<Name>)
    ensures forall c :: c in cols ==> c in t.columns
  {
    Filter(t.columns, c => IsNumericColumn(t, c))
  }

  /** The columns `select_dtypes` keeps are exactly the numeric ones. */
  lemma NumericColumnsExactly(t: Table, c: Name)
    ensures c in NumericColumns(t) <==> c in t.columns && IsNumericColumn(t, c)
  {
  }

  function CleanRow(t: Table, r: Row): Row {
    map c | c in r :: if c in t.columns && IsNumericColumn(t, c) then CleanCell(r[c]) else r[c]
  }

  /** What `clean_data` returns: the same frame with every cell of a numeric
      column that holds a sentinel or an infinity turned missing. */
  function Cleaned(t: Table): (out: Table)
    ensures out.columns == t.columns && |out.rows| == |t.rows|
    ensures forall i :: 0 <= i < |t.rows| ==> out.rows[i].Keys == t.rows[i].Keys
    ensures Valid(t) ==> Valid(out)
  {
    Table(t.columns, seq(|t.rows|, i requires 0 <= i < |t.rows| => CleanRow(t, t.rows[i])))
  }

  /** `df[col] = df[col].replace(values, np.nan)` */
  function ReplaceColumn(t: Table, col: Name, values: set<Cell>): (out: Table)
    requires col in t.columns
    ensures out.columns == t.columns && |out.rows| == |t.rows|
    ensures forall i :: 0 <= i < |t.rows| ==> out.rows[i] == t.rows[i][col := Replace(Get(t.rows[i], col), values)]
  {
    Assign(t, col, r => Replace(Get(r, col), values))
  }

  /** `df` with the columns in `done` cleaned and no others. */
  function CleanedCols(df: Table, done: set<Name>): (out: Table)
    ensures out.columns == df.columns && |out.rows| == |df.rows|
  {
    Table(df.columns, seq(|df.rows|, i requires 0 <= i < |df.rows| =>
      map c | c in df.rows[i] :: if c in done then CleanCell(df.rows[i][c]) else df.rows[i][c]))
  }

  /** The first `k` columns of `cols`, as a set. */
  function Prefix(cols: seq<Name>, k: nat): (done: set<Name>)
    requires k <= |cols|
    ensures forall c :: c in done ==> c in cols
  {
    if k == 0 then {} else Prefix(cols, k - 1) + {cols[k - 1]}
  }

  lemma {:induction false} PrefixAll(cols: seq<Name>, k: nat, c: Name)
    requires k <= |cols|
    ensures c in Prefix(cols, k) <==> c in cols[..k]
  {
    if k > 0 {
      PrefixAll(cols, k - 1, c);
      assert cols[..k] == cols[..k - 1] + [cols[k - 1]];
    }
  }

  lemma CleanedColsNone(df: Table, cols: seq<Name>)
    ensures CleanedCols(df, Prefix(cols, 0)) == df
  {
    var none := CleanedCols(df, Prefix(cols, 0));
    forall i | 0 <= i < |df.rows| ensures none.rows[i] == df.rows[i] {
    }
  }

  /** One turn of `clean_data`'s loop: the next numeric column is a column of
      the frame being cleaned, and replacing its sentinels, then its
      infinities, cleans one more column. */
  lemma CleanLoopStep(df: Table, cols: seq<Name>, k: nat, clean: Table)
    requires Valid(df) && cols == NumericColumns(df) && k < |cols|
    requires clean == CleanedCols(df, Prefix(cols, k))
    ensures cols[k] in clean.columns
    ensures ReplaceColumn(ReplaceColumn(clean, cols[k], Sentinels), cols[k], Infinities) ==
            CleanedCols(df, Prefix(cols, k + 1))
  {
    assert cols[k] in cols;
    CleanColumnStep(df, Prefix(cols, k), cols[k]);
  }

  /** Cleaning one more column of the frame: every row's cell under `col`
      becomes its cleaned value, and cleaning a cleaned cell changes nothing. */
  lemma CleanColumnStep(df: Table, done: set<Name>, col: Name)
    requires Valid(df) && col in df.columns
    ensures ReplaceColumn(ReplaceColumn(CleanedCols(df, done), col, Sentinels), col, Infinities) ==
            CleanedCols(df, done + {col})
  {
    var clean := CleanedCols(df, done);
    var next := ReplaceColumn(ReplaceColumn(clean, col, Sentinels), col, Infinities);
    var want := CleanedCols(df, done + {col});
    forall i | 0 <= i < |df.rows| ensures next.rows[i] == want.rows[i] {
      assert col in df.rows[i].Keys;
      CleanRowStep(df.rows[i], clean.rows[i], next.rows[i], want.rows[i], done, col);
    }
  }

  /** One row of the step above. */
  lemma CleanRowStep(orig: Row, r: Row, next: Row, want: Row, done: set<Name>, col: Name)
    requires col in orig
    requires r == map c | c in orig :: if c in done then CleanCell(orig[c]) else orig[c]
    requires next == r[col := Replace(Get(r[col := Replace(Get(r, col), Sentinels)], col), Infinities)]
    requires want == map c | c in orig :: if c in done + {col} then CleanCell(orig[c]) else orig[c]
    ensures next == want
  {
    forall c | c in orig ensures next[c] == want[c] {
    }
  }

  /** Once every numeric column is cleaned, the frame is `Cleaned(df)`. */
  lemma CleanedColsAll(df: Table, cols: seq<Name>)
    requires cols == NumericColumns(df)
    ensures CleanedCols(df, Prefix(cols, |cols|)) == Cleaned(df)
  {
    var all := CleanedCols(df, Prefix(cols, |cols|));
    forall i | 0 <= i < |df.rows| ensures all.rows[i] == Cleaned(df).rows[i] {
      forall c | c in df.rows[i] ensures all.rows[i][c] == Cleaned(df).rows[i][c] {
        NumericColumnsExactly(df, c);
        PrefixAll(cols, |cols|, c);
        assert cols[..|cols|] == cols;
      }
    }
  }

  /** `clean_data(df)`: copies the frame, then reassigns each numeric column
      twice, once without sentinels and once without infinities. */
  method CleanData(df: Table) returns (clean: Table)
    requires Valid(df)
    ensures clean == Cleaned(df)
  {
    clean := df;
    var numericCols := NumericColumns(clean);
    CleanedColsNone(df, numericCols);
    for k := 0 to |numericCols|
      invariant clean == CleanedCols(df, Prefix(numericCols, k))
    {
      CleanLoopStep(df, numericCols, k, clean);
      var col := numericCols[k];
      clean := ReplaceColumn(clean, col, Sentinels);
      clean := ReplaceColumn(clean, col, Infinities);
    }
    CleanedColsAll(df, numericCols);
  }

  /** Cleaning touches exactly the sentinel and infinite cells of numeric
      columns, and turns them missing; every other cell, every non-numeric
      column, the column list and the row count are kept. */
  lemma CleanedChangesExactly(t: Table, i: nat, c: Name)
    requires Valid(t) && i < |t.rows| && c in t.columns
    ensures var before, after := t.rows[i][c], Cleaned(t).rows[i][c];
      (after != before <==> IsNumericColumn(t, c) && before in Sentinels + Infinities) &&
      (after != before ==> after == Missing)
  {
    assert c in t.rows[i].Keys;
  }

  /** A column is numeric after cleaning exactly when it was before. */
  lemma CleanedKeepsNumericColumns(t: Table, c: Name)
    requires Valid(t)
    ensures IsNumericColumn(Cleaned(t), c) <==> IsNumericColumn(t, c)
  {
    var out := Cleaned(t);
    if IsNumericColumn(t, c) {
      forall i | 0 <= i < |out.rows| ensures NumericCell(Get(out.rows[i], c)) {
        assert NumericCell(Get(t.rows[i], c));
      }
    }
    if IsNumericColumn(out, c) {
      forall i | 0 <= i < |t.rows| ensures NumericCell(Get(t.rows[i], c)) {
        assert NumericCell(Get(out.rows[i], c));
      }
    }
  }

  /** After cleaning, no numeric column holds -2.0, -1.0, +inf or -inf. */
  lemma CleanedHasNoSentinels(t: Table, i: nat, c: Name)
    requires Valid(t) && i < |t.rows| && c in t.columns
    requires IsNumericColumn(Cleaned(t), c)
    ensures Get(Cleaned(t).rows[i], c) !in Sentinels + Infinities
  {
    CleanedKeepsNumericColumns(t, c);
    assert c in t.rows[i].Keys;
  }

  /** Cleaning a cleaned frame changes nothing. */
  lemma CleanedIdempotent(t: Table)
    requires Valid(t)
    ensures Cleaned(Cleaned(t)) == Cleaned(t)
  {
    var once := Cleaned(t);
    var twice := Cleaned(once);
    forall i | 0 <= i < |t.rows| ensures twice.rows[i] == once.rows[i] {
      forall c | c in once.rows[i] ensures twice.rows[i][c] == once.rows[i][c] {
        CleanedKeepsNumericColumns(t, c);
      }
    }
  }

  // ---------------------------------------------------------------------
  // engineer_features: column names

  /** The columns engineer_features may write. */
  predicate IsDerived(c: Name) {
    || c.CategoryName? || c.ViewsPerSubscriber? || c.LikeRate? || c.CommentRate?
    || c.EngagementScore? || c.DislikeRate? || c.SeasonName? || c.NetLikes? || c.LikeToDislikeRatio?
  }

  // ---------------------------------------------------------------------
  // category names

  /** The YouTube category table of engineer_features: 32 IDs, with 23 and 34
      both named Comedy. */
  const CategoryTable: map<int, string> := map[
    1 := "Film & Animation", 2 := "Autos & Vehicles", 10 := "Music", 15 := "Pets & Animals",
    17 := "Sports", 18 := "Short Movies", 19 := "Travel & Events", 20 := "Gaming",
    21 := "Videoblogging", 22 := "People & Blogs", 23 := "Comedy", 24 := "Entertainment",
    25 := "News & Politics", 26 := "Howto & Style", 27 := "Education", 28 := "Science & Technology",
    29 := "Nonprofits & Activism", 30 := "Movies", 31 := "Anime/Animation", 32 := "Action/Adventure",
    33 := "Classics", 34 := "Comedy", 35 := "Documentary", 36 := "Drama",
    37 := "Family", 38 := "Foreign", 39 := "Horror", 40 := "Sci-Fi/Fantasy",
    41 := "Thriller", 42 := "Shorts", 43 := "Shows", 44 := "Trailers"]

  /** The ID a category cell stands for, when it is a whole number. */
  predicate IsWholeNumber(c: Cell) {
    c.Num? && c.x == c.x.Floor as real
  }

  /** `.map(category_mapping).fillna('Unknown')` on one cell: a whole number in
      the table gets its name; text, NaN, fractions and unknown IDs get
      "Unknown". */
  function CategoryLabel(id: Cell): (name: string)
    ensures IsWholeNumber(id) && id.x.Floor in CategoryTable ==> name == CategoryTable[id.x.Floor]
    ensures name == "Unknown" <==> !(IsWholeNumber(id) && id.x.Floor in CategoryTable)
  {
    if IsWholeNumber(id) && id.x.Floor in CategoryTable then CategoryTable[id.x.Floor] else "Unknown"
  }

  /** IDs 23 and 34 are both Comedy; 3 and 16 are gaps in the table. */
  lemma CategoryTableComedy()
    ensures CategoryLabel(Num(23.0)) == CategoryLabel(Num(34.0)) == "Comedy"
    ensures CategoryLabel(Num(3.0)) == CategoryLabel(Num(16.0)) == "Unknown"
  {
    assert (23.0).Floor == 23 && (34.0).Floor == 34 && (3.0).Floor == 3 && (16.0).Floor == 16;
  }

  // ---------------------------------------------------------------------
  // seasons

  /** `get_season(month)`: a chain of membership tests with "Fall" as the
      fall-through for every other value, NaN included. */
  function SeasonOf(month: Cell): (season: string)
    ensures season in {"Winter", "Spring", "Summer", "Fall"}
    ensures season != "Fall" ==> IsWholeNumber(month) && 1 <= month.x.Floor <= 12
  {
    if month in {Num(12.0), Num(1.0), Num(2.0)} then "Winter"
    else if month in {Num(3.0), Num(4.0), Num(5.0)} then "Spring"
    else if month in {Num(6.0), Num(7.0), Num(8.0)} then "Summer"
    else "Fall"
  }

  /** Meteorological seasons by quarter of the year, December counted with
      January and February. */
  function QuarterSeason(m: int): string
    requires 1 <= m <= 12
  {
    ["Winter", "Spring", "Summer", "Fall"][(m % 12) / 3]
  }

  /** For a real month, get_season names its meteorological season. */
  lemma SeasonOfMonth(m: int)
    requires 1 <= m <= 12
    ensures SeasonOf(Num(m as real)) == QuarterSeason(m)
  {
  }

  /** Anything that is not a month from 1 to 12 (a missing month, text, 0,
      13, 2.5) falls through to "Fall". */
  lemma SeasonFallThrough(month: Cell)
    requires !(IsWholeNumber(month) && 1 <= month.x.Floor <= 12)
    ensures SeasonOf(month) == "Fall"
  {
    if month.Num? && month in {Num(12.0), Num(1.0), Num(2.0), Num(3.0), Num(4.0), Num(5.0),
                               Num(6.0), Num(7.0), Num(8.0)} {
      assert IsWholeNumber(month);
    }
  }

  // ---------------------------------------------------------------------
  // per-row values of the derived columns

  /** `(views > 0) & likes.notna() & comments.notna()`: the rows that get an
      engagement score. */
  predicate Eligible(r: Row) {
    Positive(Get(r, VideoViewCount)) && Present(Get(r, VideoLikeCount)) && Present(Get(r, VideoCommentCount))
  }

  /** The category name of a row: the table's name for a mapped ID, and
      "Unknown" for every other ID. */
  function CategoryNameCell(r: Row): (c: Cell)
    ensures c.Text?
    ensures IsWholeNumber(Get(r, VideoCategoryId)) && Get(r, VideoCategoryId).x.Floor in CategoryTable ==>
      c.s == CategoryTable[Get(r, VideoCategoryId).x.Floor]
    ensures c.s == "Unknown" <==> !(IsWholeNumber(Get(r, VideoCategoryId)) &&
                                    Get(r, VideoCategoryId).x.Floor in CategoryTable)
  {
    Text(CategoryLabel(Get(r, VideoCategoryId)))
  }

  /** views / subscribers on rows where both are positive; other rows keep
      what the column held (missing when it is new). */
  function ViewsPerSubscriberCell(r: Row): (c: Cell)
    ensures ViewsPerSubscriber !in r && c != Missing ==>
      Positive(Get(r, SubscriberCount)) && Positive(Get(r, VideoViewCount))
    ensures (Get(r, SubscriberCount).Num? && Get(r, VideoViewCount).Num? &&
             Get(r, SubscriberCount).x > 0.0 && Get(r, VideoViewCount).x > 0.0) ==>
      c == Num(Get(r, VideoViewCount).x / Get(r, SubscriberCount).x)
  {
    var views, subs := Get(r, VideoViewCount), Get(r, SubscriberCount);
    if Positive(subs) && Positive(views) then Div(views, subs) else Get(r, ViewsPerSubscriber)
  }

  /** `df.loc[df['like_rate'] > 1, 'like_rate'] = 1.0` on one cell. */
  function ClampToOne(c: Cell): (d: Cell)
    ensures !d.PosInf? && (d.Num? ==> d.x <= 1.0)
    ensures Above(c, 1.0) ==> d == Num(1.0)
    ensures !Above(c, 1.0) ==> d == c
  {
    if Above(c, 1.0) then Num(1.0) else c
  }

  /** likes / views on rows with positive views, then clamped to 1: a like
      rate is never above 1. */
  function LikeRateCell(r: Row): (c: Cell)
    ensures !c.PosInf? && (c.Num? ==> c.x <= 1.0)
    ensures LikeRate !in r && c != Missing ==> Positive(Get(r, VideoViewCount))
    ensures Get(r, VideoViewCount).Num? && Get(r, VideoViewCount).x > 0.0 && Get(r, VideoLikeCount).Num? ==>
      var rate := Get(r, VideoLikeCount).x / Get(r, VideoViewCount).x;
      c == Num(if rate > 1.0 then 1.0 else rate)
  {
    var views := Get(r, VideoViewCount);
    ClampToOne(if Positive(views) then Div(Get(r, VideoLikeCount), views) else Get(r, LikeRate))
  }

  /** comments / views on rows with positive views; NOT clamped. */
  function CommentRateCell(r: Row): (c: Cell)
    ensures CommentRate !in r && c != Missing ==> Positive(Get(r, VideoViewCount))
    ensures Get(r, VideoViewCount).Num? && Get(r, VideoViewCount).x > 0.0 && Get(r, VideoCommentCount).Num? ==>
      c == Num(Get(r, VideoCommentCount).x / Get(r, VideoViewCount).x)
  {
    var views := Get(r, VideoViewCount);
    if Positive(views) then Div(Get(r, VideoCommentCount), views) else Get(r, CommentRate)
  }

  /** dislikes / views on rows with positive views; NOT clamped. */
  function DislikeRateCell(r: Row): (c: Cell)
    ensures DislikeRate !in r && c != Missing ==> Positive(Get(r, VideoViewCount))
    ensures Get(r, VideoViewCount).Num? && Get(r, VideoViewCount).x > 0.0 && Get(r, VideoDislikeCount).Num? ==>
      c == Num(Get(r, VideoDislikeCount).x / Get(r, VideoViewCount).x)
  {
    var views := Get(r, VideoViewCount);
    if Positive(views) then Div(Get(r, VideoDislikeCount), views) else Get(r, DislikeRate)
  }

  /** The score (a weighted sum of log1p terms, left abstract as `score`) on
      eligible rows; other rows keep what the column held. */
  function EngagementCell(r: Row, score: (Cell, Cell, Cell) -> Cell): (c: Cell)
    ensures !Eligible(r) ==> c == Get(r, EngagementScore)
  {
    if Eligible(r) then score(Get(r, VideoViewCount), Get(r, VideoLikeCount), Get(r, VideoCommentCount))
    else Get(r, EngagementScore)
  }

  function SeasonCell(r: Row): Cell {
    Text(SeasonOf(Get(r, PublishMonth)))
  }

  /** likes - dislikes, on every row. */
  function NetLikesCell(r: Row): (c: Cell)
    ensures Get(r, VideoLikeCount).Num? && Get(r, VideoDislikeCount).Num? ==>
      c == Num(Get(r, VideoLikeCount).x - Get(r, VideoDislikeCount).x)
    ensures !IsNumber(Get(r, VideoLikeCount)) || !IsNumber(Get(r, VideoDislikeCount)) ==> c == Missing
  {
    Sub(Get(r, VideoLikeCount), Get(r, VideoDislikeCount))
  }

  /** likes / dislikes on rows with positive dislikes. */
  function LikeToDislikeCell(r: Row): (c: Cell)
    ensures LikeToDislikeRatio !in r && c != Missing ==> Positive(Get(r, VideoDislikeCount))
    ensures Get(r, VideoDislikeCount).Num? && Get(r, VideoDislikeCount).x > 0.0 && Get(r, VideoLikeCount).Num? ==>
      c == Num(Get(r, VideoLikeCount).x / Get(r, VideoDislikeCount).x)
  {
    var dislikes := Get(r, VideoDislikeCount);
    if Positive(dislikes) then Div(Get(r, VideoLikeCount), dislikes) else Get(r, LikeToDislikeRatio)
  }

  // ---------------------------------------------------------------------
  // engineer_features: one function per guarded block

  /** `out` is `t` with column `c` written as `cell` computes it from each
      row when `written` holds, and nothing else changed. */
  ghost predicate Patched(t: Table, out: Table, c: Name, written: bool, cell: Row -> Cell) {
    && |out.rows| == |t.rows|
    && out.columns == (if written then AddName(t.columns, c) else t.columns)
    && (forall i, d :: 0 <= i < |t.rows| && d != c ==> Get(out.rows[i], d) == Get(t.rows[i], d))
    && (forall i :: 0 <= i < |t.rows| ==> Get(out.rows[i], c) == if written then cell(t.rows[i]) else Get(t.rows[i], c))
    && (Valid(t) ==> Valid(out))
  }

  /** prep.py, `categoryName` block: the whole column is (re)written. */
  function WithCategoryName(t: Table): (out: Table)
    ensures Patched(t, out, CategoryName, HasColumn(t, VideoCategoryId), CategoryNameCell)
  {
    if HasColumn(t, VideoCategoryId) then Assign(t, CategoryName, r => Text(CategoryLabel(Get(r, VideoCategoryId))))
    else t
  }

  function WithViewsPerSubscriber(t: Table): (out: Table)
    ensures Patched(t, out, ViewsPerSubscriber, HasColumns(t, [VideoViewCount, SubscriberCount]), ViewsPerSubscriberCell)
  {
    if HasColumns(t, [VideoViewCount, SubscriberCount]) then
      AssignWhere(t, ViewsPerSubscriber,
        r => Positive(Get(r, SubscriberCount)) && Positive(Get(r, VideoViewCount)),
        r => Div(Get(r, VideoViewCount), Get(r, SubscriberCount)))
    else t
  }

  /** The like-rate block: a masked division, then a second masked
      assignment that clamps values above 1. */
  function WithLikeRate(t: Table): (out: Table)
    ensures Patched(t, out, LikeRate, HasColumns(t, [VideoLikeCount, VideoViewCount]), LikeRateCell)
  {
    if HasColumns(t, [VideoLikeCount, VideoViewCount]) then
      var rated := AssignWhere(t, LikeRate, r => Positive(Get(r, VideoViewCount)),
        r => Div(Get(r, VideoLikeCount), Get(r, VideoViewCount)));
      AssignWhere(rated, LikeRate, r => Above(Get(r, LikeRate), 1.0), r => Num(1.0))
    else t
  }

  /** The comment-rate block; engineer_features runs it twice, with the same
      guard and the same division. */
  function WithCommentRate(t: Table): (out: Table)
    ensures Patched(t, out, CommentRate, HasColumns(t, [VideoCommentCount, VideoViewCount]), CommentRateCell)
  {
    if HasColumns(t, [VideoCommentCount, VideoViewCount]) then
      AssignWhere(t, CommentRate, r => Positive(Get(r, VideoViewCount)),
        r => Div(Get(r, VideoCommentCount), Get(r, VideoViewCount)))
    else t
  }

  predicate SomeEligible(t: Table) {
    exists i :: 0 <= i < |t.rows| && Eligible(t.rows[i])
  }

  /** The score block runs only when `valid_mask.any()`. */
  function WithEngagementScore(t: Table, score: (Cell, Cell, Cell) -> Cell): (out: Table)
    ensures Patched(t, out, EngagementScore,
      HasColumns(t, [VideoViewCount, VideoLikeCount, VideoCommentCount]) && SomeEligible(t),
      r => EngagementCell(r, score))
  {
    if HasColumns(t, [VideoViewCount, VideoLikeCount, VideoCommentCount]) && SomeEligible(t) then
      AssignWhere(t, EngagementScore, Eligible,
        r => score(Get(r, VideoViewCount), Get(r, VideoLikeCount), Get(r, VideoCommentCount)))
    else t
  }

  function WithDislikeRate(t: Table): (out: Table)
    ensures Patched(t, out, DislikeRate, HasColumns(t, [VideoViewCount, VideoDislikeCount]), DislikeRateCell)
  {
    if HasColumns(t, [VideoViewCount, VideoDislikeCount]) then
      AssignWhere(t, DislikeRate, r => Positive(Get(r, VideoViewCount)),
        r => Div(Get(r, VideoDislikeCount), Get(r, VideoViewCount)))
    else t
  }

  /** `df['season'] = df['publishMonth'].apply(get_season)` */
  function WithSeason(t: Table): (out: Table)
    ensures Patched(t, out, SeasonName, HasColumn(t, PublishMonth), SeasonCell)
  {
    if HasColumn(t, PublishMonth) then Assign(t, SeasonName, r => Text(SeasonOf(Get(r, PublishMonth)))) else t
  }

  function WithNetLikes(t: Table): (out: Table)
    ensures Patched(t, out, NetLikes, HasColumns(t, [VideoLikeCount, VideoDislikeCount]), NetLikesCell)
  {
    if HasColumns(t, [VideoLikeCount, VideoDislikeCount]) then
      Assign(t, NetLikes, r => Sub(Get(r, VideoLikeCount), Get(r, VideoDislikeCount)))
    else t
  }

  function WithLikeToDislike(t: Table): (out: Table)
    ensures Patched(t, out, LikeToDislikeRatio, HasColumns(t, [VideoLikeCount, VideoDislikeCount]), LikeToDislikeCell)
  {
    if HasColumns(t, [VideoLikeCount, VideoDislikeCount]) then
      AssignWhere(t, LikeToDislikeRatio, r => Positive(Get(r, VideoDislikeCount)),
        r => Div(Get(r, VideoLikeCount), Get(r, VideoDislikeCount)))
    else t
  }

  // ---------------------------------------------------------------------
  // engineer_features as a whole

  /** Whether engineer_features writes derived column `c` of frame `t`: each
      one only when its own input columns exist (and, for the score, when
      some row is eligible). */
  predicate Writes(t: Table, c: Name) {
    || (c == CategoryName && HasColumn(t, VideoCategoryId))
    || (c == ViewsPerSubscriber && HasColumns(t, [VideoViewCount, SubscriberCount]))
    || (c == LikeRate && HasColumns(t, [VideoLikeCount, VideoViewCount]))
    || (c == CommentRate && HasColumns(t, [VideoCommentCount, VideoViewCount]))
    || (c == EngagementScore && HasColumns(t, [VideoViewCount, VideoLikeCount, VideoCommentCount]) && SomeEligible(t))
    || (c == DislikeRate && HasColumns(t, [VideoViewCount, VideoDislikeCount]))
    || (c == SeasonName && HasColumn(t, PublishMonth))
    || ((c == NetLikes || c == LikeToDislikeRatio) && HasColumns(t, [VideoLikeCount, VideoDislikeCount]))
  }

  /** The value derived column `c` takes in a row when its block runs. */
  function DerivedCell(c: Name, r: Row, score: (Cell, Cell, Cell) -> Cell): Cell {
    match c
    case CategoryName => CategoryNameCell(r)
    case ViewsPerSubscriber => ViewsPerSubscriberCell(r)
    case LikeRate => LikeRateCell(r)
    case CommentRate => CommentRateCell(r)
    case EngagementScore => EngagementCell(r, score)
    case DislikeRate => DislikeRateCell(r)
    case SeasonName => SeasonCell(r)
    case NetLikes => NetLikesCell(r)
    case LikeToDislikeRatio => LikeToDislikeCell(r)
    case _ => Get(r, c)
  }

  /** What engineer_features returns for `df`: the same rows in the same
      order; the input columns first and unchanged; a derived column added
      exactly when its inputs exist; every derived cell as the row functions
      above compute it from the input row, and every other cell as it was. */
  ghost predicate Engineered(df: Table, eng: Table, score: (Cell, Cell, Cell) -> Cell) {
    && |eng.rows| == |df.rows|
    && |df.columns| <= |eng.columns|
    && (forall j :: 0 <= j < |df.columns| ==> eng.columns[j] == df.columns[j])
    && (forall c :: c in eng.columns <==> c in df.columns || Writes(df, c))
    && (forall i, c :: 0 <= i < |df.rows| ==>
          Get(eng.rows[i], c) == if Writes(df, c) then DerivedCell(c, df.rows[i], score) else Get(df.rows[i], c))
  }

  /** The cell a row of `df` holds under `d` once the blocks writing the
      columns in `done` have run. */
  ghost function Expected(df: Table, done: set<Name>, i: int, d: Name, score: (Cell, Cell, Cell) -> Cell): Cell
    requires 0 <= i < |df.rows|
  {
    if d in done && Writes(df, d) then DerivedCell(d, df.rows[i], score) else Get(df.rows[i], d)
  }

  /** The input columns lead, and a derived column is present once its
      block has run and fired. */
  ghost predicate StageColumns(df: Table, t: Table, done: set<Name>) {
    && |df.columns| <= |t.columns|
    && (forall j :: 0 <= j < |df.columns| ==> t.columns[j] == df.columns[j])
    && (forall c :: c in t.columns <==> c in df.columns || (c in done && Writes(df, c)))
  }

  ghost predicate StageCells(df: Table, t: Table, done: set<Name>, score: (Cell, Cell, Cell) -> Cell) {
    |t.rows| == |df.rows| &&
    forall i, d :: 0 <= i < |df.rows| ==> Get(t.rows[i], d) == Expected(df, done, i, d, score)
  }

  /** `t` is `df` after the blocks writing the columns in `done` have run. */
  ghost predicate Stage(df: Table, t: Table, done: set<Name>, score: (Cell, Cell, Cell) -> Cell) {
    && (Valid(df) ==> Valid(t))
    && StageColumns(df, t, done)
    && StageCells(df, t, done, score)
  }

  /** Two rows agree on every column engineer_features does not write. */
  ghost predicate SameInputs(r1: Row, r2: Row) {
    forall d :: !IsDerived(d) ==> Get(r1, d) == Get(r2, d)
  }

  /** A derived cell depends only on the input cells and on the cell the
      column already holds; and computing it over a row that already holds
      the computed value gives the same value again. */
  lemma DerivedCellStable(c: Name, r1: Row, r2: Row, score: (Cell, Cell, Cell) -> Cell)
    requires IsDerived(c) && SameInputs(r1, r2)
    requires Get(r1, c) == Get(r2, c) || Get(r1, c) == DerivedCell(c, r2, score)
    ensures DerivedCell(c, r1, score) == DerivedCell(c, r2, score)
  {
    match c
    case CategoryName =>
      assert Get(r1, VideoCategoryId) == Get(r2, VideoCategoryId);
    case ViewsPerSubscriber =>
      assert Get(r1, VideoViewCount) == Get(r2, VideoViewCount);
      assert Get(r1, SubscriberCount) == Get(r2, SubscriberCount);
    case LikeRate =>
      assert Get(r1, VideoViewCount) == Get(r2, VideoViewCount);
      assert Get(r1, VideoLikeCount) == Get(r2, VideoLikeCount);
    case CommentRate =>
      assert Get(r1, VideoViewCount) == Get(r2, VideoViewCount);
      assert Get(r1, VideoCommentCount) == Get(r2, VideoCommentCount);
    case EngagementScore =>
      assert Get(r1, VideoViewCount) == Get(r2, VideoViewCount);
      assert Get(r1, VideoLikeCount) == Get(r2, VideoLikeCount);
      assert Get(r1, VideoCommentCount) == Get(r2, VideoCommentCount);
    case DislikeRate =>
      assert Get(r1, VideoViewCount) == Get(r2, VideoViewCount);
      assert Get(r1, VideoDislikeCount) == Get(r2, VideoDislikeCount);
    case SeasonName =>
      assert Get(r1, PublishMonth) == Get(r2, PublishMonth);
    case NetLikes =>
      assert Get(r1, VideoLikeCount) == Get(r2, VideoLikeCount);
      assert Get(r1, VideoDislikeCount) == Get(r2, VideoDislikeCount);
    case LikeToDislikeRatio =>
      assert Get(r1, VideoLikeCount) == Get(r2, VideoLikeCount);
      assert Get(r1, VideoDislikeCount) == Get(r2, VideoDislikeCount);
  }

  /** Running one more block extends the stage by its column, provided the
      block computes `DerivedCell` from the current rows. */
  lemma StageStep(df: Table, t: Table, out: Table, c: Name, done: set<Name>, cell: Row -> Cell,
                  score: (Cell, Cell, Cell) -> Cell)
    requires Stage(df, t, done, score) && IsDerived(c) && forall d :: d in done ==> IsDerived(d)
    requires Patched(t, out, c, Writes(df, c), cell)
    requires forall r :: cell(r) == DerivedCell(c, r, score)
    ensures Stage(df, out, done + {c}, score)
  {
    StepColumns(df, t, out, c, done, cell, score);
    StepCells(df, t, out, c, done, cell, score);
  }

  lemma StepColumns(df: Table, t: Table, out: Table, c: Name, done: set<Name>, cell: Row -> Cell,
                    score: (Cell, Cell, Cell) -> Cell)
    requires StageColumns(df, t, done)
    requires Patched(t, out, c, Writes(df, c), cell)
    ensures StageColumns(df, out, done + {c})
  {
    forall j | 0 <= j < |df.columns| ensures out.columns[j] == df.columns[j] {
      if Writes(df, c) && c !in t.columns {
        assert out.columns == t.columns + [c];
      }
    }
    forall d ensures d in out.columns <==> d in df.columns || (d in done + {c} && Writes(df, d)) {
      assert d in out.columns <==> d in t.columns || (d == c && Writes(df, c));
    }
  }

  lemma StepCells(df: Table, t: Table, out: Table, c: Name, done: set<Name>, cell: Row -> Cell,
                  score: (Cell, Cell, Cell) -> Cell)
    requires Stage(df, t, done, score) && IsDerived(c) && forall d :: d in done ==> IsDerived(d)
    requires Patched(t, out, c, Writes(df, c), cell)
    requires forall r :: cell(r) == DerivedCell(c, r, score)
    ensures StageCells(df, out, done + {c}, score)
  {
    forall i, d | 0 <= i < |df.rows| ensures Get(out.rows[i], d) == Expected(df, done + {c}, i, d, score) {
      if d == c {
        StepOwnCell(df, t, out, c, done, cell, score, i);
      } else {
        assert Get(out.rows[i], d) == Get(t.rows[i], d);
        assert Expected(df, done + {c}, i, d, score) == Expected(df, done, i, d, score);
      }
    }
  }

  lemma StepOwnCell(df: Table, t: Table, out: Table, c: Name, done: set<Name>, cell: Row -> Cell,
                    score: (Cell, Cell, Cell) -> Cell, i: int)
    requires Stage(df, t, done, score) && IsDerived(c) && forall d :: d in done ==> IsDerived(d)
    requires Patched(t, out, c, Writes(df, c), cell)
    requires forall r :: cell(r) == DerivedCell(c, r, score)
    requires 0 <= i < |df.rows|
    ensures Get(out.rows[i], c) == Expected(df, done + {c}, i, c, score)
  {
    if Writes(df, c) {
      StageRowInputs(df, t, done, score, i);
      StageOwnCell(df, t, done, c, score, i);
      DerivedCellStable(c, t.rows[i], df.rows[i], score);
    } else {
      assert Get(out.rows[i], c) == Get(t.rows[i], c);
    }
  }

  /** At every stage a row keeps the input cells of `df`. */
  lemma StageRowInputs(df: Table, t: Table, done: set<Name>, score: (Cell, Cell, Cell) -> Cell, i: int)
    requires Stage(df, t, done, score) && (forall d :: d in done ==> IsDerived(d)) && 0 <= i < |df.rows|
    ensures SameInputs(t.rows[i], df.rows[i])
  {
    forall e | !IsDerived(e) ensures Get(t.rows[i], e) == Get(df.rows[i], e) {
      assert e !in done;
    }
  }

  /** At every stage a derived cell is the input's or the computed one. */
  lemma StageOwnCell(df: Table, t: Table, done: set<Name>, c: Name, score: (Cell, Cell, Cell) -> Cell, i: int)
    requires Stage(df, t, done, score) && 0 <= i < |df.rows|
    ensures Get(t.rows[i], c) == Get(df.rows[i], c) || Get(t.rows[i], c) == DerivedCell(c, df.rows[i], score)
  {
    assert Get(t.rows[i], c) == if c in done && Writes(df, c) then DerivedCell(c, df.rows[i], score) else Get(df.rows[i], c);
  }

  lemma CategoryNameStep(df: Table, t: Table, done: set<Name>, score: (Cell, Cell, Cell) -> Cell)
    requires Stage(df, t, done, score) && forall d :: d in done ==> IsDerived(d)
    ensures Stage(df, WithCategoryName(t), done + {CategoryName}, score)
  {
    StageInputColumns(df, t, done, score);
    StageStep(df, t, WithCategoryName(t), CategoryName, done, CategoryNameCell, score);
  }

  lemma ViewsPerSubscriberStep(df: Table, t: Table, done: set<Name>, score: (Cell, Cell, Cell) -> Cell)
    requires Stage(df, t, done, score) && forall d :: d in done ==> IsDerived(d)
    ensures Stage(df, WithViewsPerSubscriber(t), done + {ViewsPerSubscriber}, score)
  {
    SameGuard(df, t, done, [VideoViewCount, SubscriberCount], score);
    StageStep(df, t, WithViewsPerSubscriber(t), ViewsPerSubscriber, done, ViewsPerSubscriberCell, score);
  }

  lemma LikeRateStep(df: Table, t: Table, done: set<Name>, score: (Cell, Cell, Cell) -> Cell)
    requires Stage(df, t, done, score) && forall d :: d in done ==> IsDerived(d)
    ensures Stage(df, WithLikeRate(t), done + {LikeRate}, score)
  {
    SameGuard(df, t, done, [VideoLikeCount, VideoViewCount], score);
    StageStep(df, t, WithLikeRate(t), LikeRate, done, LikeRateCell, score);
  }

  lemma CommentRateStep(df: Table, t: Table, done: set<Name>, score: (Cell, Cell, Cell) -> Cell)
    requires Stage(df, t, done, score) && forall d :: d in done ==> IsDerived(d)
    ensures Stage(df, WithCommentRate(t), done + {CommentRate}, score)
  {
    SameGuard(df, t, done, [VideoCommentCount, VideoViewCount], score);
    StageStep(df, t, WithCommentRate(t), CommentRate, done, CommentRateCell, score);
  }

  lemma EngagementScoreStep(df: Table, t: Table, done: set<Name>, score: (Cell, Cell, Cell) -> Cell)
    requires Stage(df, t, done, score) && forall d :: d in done ==> IsDerived(d)
    ensures Stage(df, WithEngagementScore(t, score), done + {EngagementScore}, score)
  {
    SameGuard(df, t, done, [VideoViewCount, VideoLikeCount, VideoCommentCount], score);
    StageSomeEligible(df, t, done, score);
    StageStep(df, t, WithEngagementScore(t, score), EngagementScore, done, r => EngagementCell(r, score), score);
  }

  lemma DislikeRateStep(df: Table, t: Table, done: set<Name>, score: (Cell, Cell, Cell) -> Cell)
    requires Stage(df, t, done, score) && forall d :: d in done ==> IsDerived(d)
    ensures Stage(df, WithDislikeRate(t), done + {DislikeRate}, score)
  {
    SameGuard(df, t, done, [VideoViewCount, VideoDislikeCount], score);
    StageStep(df, t, WithDislikeRate(t), DislikeRate, done, DislikeRateCell, score);
  }

  lemma SeasonNameStep(df: Table, t: Table, done: set<Name>, score: (Cell, Cell, Cell) -> Cell)
    requires Stage(df, t, done, score) && forall d :: d in done ==> IsDerived(d)
    ensures Stage(df, WithSeason(t), done + {SeasonName}, score)
  {
    StageInputColumns(df, t, done, score);
    StageStep(df, t, WithSeason(t), SeasonName, done, SeasonCell, score);
  }

  lemma NetLikesStep(df: Table, t: Table, done: set<Name>, score: (Cell, Cell, Cell) -> Cell)
    requires Stage(df, t, done, score) && forall d :: d in done ==> IsDerived(d)
    ensures Stage(df, WithNetLikes(t), done + {NetLikes}, score)
  {
    SameGuard(df, t, done, [VideoLikeCount, VideoDislikeCount], score);
    StageStep(df, t, WithNetLikes(t), NetLikes, done, NetLikesCell, score);
  }

  lemma LikeToDislikeRatioStep(df: Table, t: Table, done: set<Name>, score: (Cell, Cell, Cell) -> Cell)
    requires Stage(df, t, done, score) && forall d :: d in done ==> IsDerived(d)
    ensures Stage(df, WithLikeToDislike(t), done + {LikeToDislikeRatio}, score)
  {
    SameGuard(df, t, done, [VideoLikeCount, VideoDislikeCount], score);
    StageStep(df, t, WithLikeToDislike(t), LikeToDislikeRatio, done, LikeToDislikeCell, score);
  }



  /** Between blocks, a guard over input columns reads as on `df`. */
  lemma SameGuard(df: Table, t: Table, done: set<Name>, cs: seq<Name>, score: (Cell, Cell, Cell) -> Cell)
    requires Stage(df, t, done, score) && forall d :: d in done ==> IsDerived(d)
    requires forall c :: c in cs ==> !IsDerived(c)
    ensures HasColumns(t, cs) == HasColumns(df, cs)
  {
    StageInputColumns(df, t, done, score);
  }

  /** At every stage some row is eligible for the score exactly when one of
      `df` is. */
  lemma StageSomeEligible(df: Table, t: Table, done: set<Name>, score: (Cell, Cell, Cell) -> Cell)
    requires Stage(df, t, done, score) && forall c :: c in done ==> IsDerived(c)
    ensures SomeEligible(t) == SomeEligible(df)
  {
    forall i | 0 <= i < |t.rows| ensures Eligible(t.rows[i]) == Eligible(df.rows[i]) {
      StageRowInputs(df, t, done, score, i);
      assert Get(t.rows[i], VideoViewCount) == Get(df.rows[i], VideoViewCount);
      assert Get(t.rows[i], VideoLikeCount) == Get(df.rows[i], VideoLikeCount);
      assert Get(t.rows[i], VideoCommentCount) == Get(df.rows[i], VideoCommentCount);
    }
  }

  /** At every stage the frame has exactly the input columns of `df`. */
  lemma StageInputColumns(df: Table, t: Table, done: set<Name>, score: (Cell, Cell, Cell) -> Cell)
    requires Stage(df, t, done, score) && forall c :: c in done ==> IsDerived(c)
    ensures forall c :: !IsDerived(c) ==> (c in t.columns <==> c in df.columns)
  {
    forall c | !IsDerived(c) ensures c in t.columns <==> c in df.columns {
      assert c !in done;
    }
  }


  /** After all blocks, the stage is exactly what `Engineered` describes. */
  lemma StageComplete(df: Table, eng: Table, done: set<Name>, score: (Cell, Cell, Cell) -> Cell)
    requires Stage(df, eng, done, score) && forall c :: IsDerived(c) ==> c in done
    ensures Engineered(df, eng, score)
  {
  }

  /** Runs the block of engineer_features that writes column `c`: the frame
      moves from the stage of the blocks in `done` to the next one. */
  method RunBlock(ghost df: Table, t: Table, c: Name, ghost done: set<Name>, score: (Cell, Cell, Cell) -> Cell)
    returns (out: Table)
    requires Stage(df, t, done, score) && IsDerived(c) && forall d :: d in done ==> IsDerived(d)
    ensures Stage(df, out, done + {c}, score)
  {
    if c == CategoryName {
      out := WithCategoryName(t);
      CategoryNameStep(df, t, done, score);
    } else if c == ViewsPerSubscriber {
      out := WithViewsPerSubscriber(t);
      ViewsPerSubscriberStep(df, t, done, score);
    } else if c == LikeRate {
      out := WithLikeRate(t);
      LikeRateStep(df, t, done, score);
    } else if c == CommentRate {
      out := WithCommentRate(t);
      CommentRateStep(df, t, done, score);
    } else if c == EngagementScore {
      out := WithEngagementScore(t, score);
      EngagementScoreStep(df, t, done, score);
    } else if c == DislikeRate {
      out := WithDislikeRate(t);
      DislikeRateStep(df, t, done, score);
    } else if c == SeasonName {
      out := WithSeason(t);
      SeasonNameStep(df, t, done, score);
    } else if c == NetLikes {
      out := WithNetLikes(t);
      NetLikesStep(df, t, done, score);
    } else {
      out := WithLikeToDislike(t);
      LikeToDislikeRatioStep(df, t, done, score);
    }
  }

  /** `engineer_features(df)`: copies the frame, then runs the guarded blocks
      in order, the comment-rate block twice. */
  method EngineerFeatures(df: Table, score: (Cell, Cell, Cell) -> Cell) returns (eng: Table)
    ensures Engineered(df, eng, score)
    ensures Valid(df) ==> Valid(eng)
  {
    eng := df;
    ghost var done: set<Name> := {};
    assert Stage(df, eng, done, score);
    eng := RunBlock(df, eng, CategoryName, done, score);
    done := done + {CategoryName};
    eng := RunBlock(df, eng, ViewsPerSubscriber, done, score);
    done := done + {ViewsPerSubscriber};
    eng := RunBlock(df, eng, LikeRate, done, score);
    done := done + {LikeRate};
    eng := RunBlock(df, eng, CommentRate, done, score);
    done := done + {CommentRate};
    eng := RunBlock(df, eng, EngagementScore, done, score);
    done := done + {EngagementScore};
    // the comment-rate block runs a second time, recomputing the same values
    eng := RunBlock(df, eng, CommentRate, done, score);
    done := done + {CommentRate};
    eng := RunBlock(df, eng, DislikeRate, done, score);
    done := done + {DislikeRate};
    eng := RunBlock(df, eng, SeasonName, done, score);
    done := done + {SeasonName};
    eng := RunBlock(df, eng, NetLikes, done, score);
    done := done + {NetLikes};
    eng := RunBlock(df, eng, LikeToDislikeRatio, done, score);
    done := done + {LikeToDislikeRatio};
    StageComplete(df, eng, done, score);
  }
}
