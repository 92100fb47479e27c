/** Tabular data as the pandas code of the dashboard sees it: a frame is an
    ordered list of column names and a sequence of rows, each row mapping
    column names to cells. The vectorised pandas operations the core uses
    (whole-column assignment, masked `.loc` assignment, boolean indexing)
    are functions here, together with the float semantics of the cell
    operations they apply. */
module Frame {

  datatype Option<+T> = None | Some(value: T)

  /** A calendar date; the time of day of a timestamp is not modelled. */
  datatype Stamp = Stamp(year: int, month: int, day: int)

  /** One cell. NaN, None and NaT are all `Missing`; `Num` is any finite
      int64 or float64 value, held exactly. */
  datatype Cell =
    | Missing
    | Num(x: real)
    | PosInf
    | NegInf
    | Text(s: string)
    | Timestamp(t: Stamp)  // a datetime64 value
    | Day(t: Stamp)        // a datetime.date object

  /** A column name. The headers the core refers to are constructors (their
      CSV spelling in the comment); every other header is `Other`. */
  datatype Name =
    | VideoPublished      // "videoPublished"
    | PublishYear         // "publishYear"
    | PublishMonth        // "publishMonth"
    | PublishDate         // "publishDate"
    | VideoCategoryId     // "videoCategoryId"
    | VideoViewCount      // "videoViewCount"
    | SubscriberCount     // "subscriberCount"
    | VideoLikeCount      // "videoLikeCount"
    | VideoDislikeCount   // "videoDislikeCount"
    | VideoCommentCount   // "VideoCommentCount"
    | ChannelName         // "channelName"
    | ChannelId           // "channelId"
    | CategoryName        // "categoryName"
    | ViewsPerSubscriber  // "views_per_subscriber"
    | LikeRate            // "like_rate"
    | CommentRate         // "comment_rate"
    | EngagementScore     // "engagement_score"
    | DislikeRate         // "dislike_rate"
    | SeasonName          // "season"
    | NetLikes            // "net_likes"
    | LikeToDislikeRatio  // "like_to_dislike_ratio"
    | Other(header: string)

  type Row = map<Name, Cell>

  datatype Table = Table(columns: seq<Name>, rows: seq<Row>)

  /** `pd.DataFrame()`: no columns and no rows. */
  const EmptyFrame: Table := Table([], [])

  /** The cell of a row under a column name; a column the row lacks reads as
      missing, as a column that `.loc` has not yet created does. */
  function Get(r: Row, c: Name): Cell {
    if c in r then r[c] else Missing
  }

  predicate HasColumn(t: Table, c: Name) {
    c in t.columns
  }

  /** `all(col in df.columns for col in cs)` */
  predicate HasColumns(t: Table, cs: seq<Name>) {
    forall c :: c in cs ==> c in t.columns
  }

  /** `df.empty`: no rows or no columns. */
  predicate IsEmpty(t: Table) {
    |t.rows| == 0 || |t.columns| == 0
  }

  predicate Distinct<T(==)>(s: seq<T>) {
    forall i, j :: 0 <= i < j < |s| ==> s[i] != s[j]
  }

  function ColumnSet(t: Table): set<Name> {
    set c | c in t.columns
  }

  /** The shape every data frame has: distinct column names, and every row
      holds exactly one cell per column. */
  predicate Valid(t: Table) {
    Distinct(t.columns) &&
    forall i :: 0 <= i < |t.rows| ==> t.rows[i].Keys == ColumnSet(t)
  }

  /** The column list after assigning to column `c`: an existing column keeps
      its place, a new one is appended. */
  function AddName(cols: seq<Name>, c: Name): (r: seq<Name>)
    ensures c in r && forall d :: d in r <==> d in cols || d == c
    ensures Distinct(cols) ==> Distinct(r)
  {
    if c in cols then cols else cols + [c]
  }

  /** `df[c] = <expression over the row>`: every row gets a new cell `f(row)`. */
  function Assign(t: Table, c: Name, f: Row -> Cell): (out: Table)
    ensures out.columns == AddName(t.columns, c)
    ensures |out.rows| == |t.rows|
    ensures forall i :: 0 <= i < |t.rows| ==> out.rows[i] == t.rows[i][c := f(t.rows[i])]
    ensures Valid(t) ==> Valid(out)
  {
    Table(AddName(t.columns, c), seq(|t.rows|, i requires 0 <= i < |t.rows| => t.rows[i][c := f(t.rows[i])]))
  }

  /** `df.loc[mask, c] = <expression>`: rows under the mask get `f(row)`; the
      others keep their cell, or get a missing one when `c` is new. */
  function AssignWhere(t: Table, c: Name, mask: Row -> bool, f: Row -> Cell): (out: Table)
    ensures out.columns == AddName(t.columns, c)
    ensures |out.rows| == |t.rows|
    ensures forall i :: 0 <= i < |t.rows| ==>
      out.rows[i] == t.rows[i][c := if mask(t.rows[i]) then f(t.rows[i]) else Get(t.rows[i], c)]
    ensures Valid(t) ==> Valid(out)
  {
    Assign(t, c, r => if mask(r) then f(r) else Get(r, c))
  }

  /** `df[c] = values` for a column computed as a whole. */
  function SetColumn(t: Table, c: Name, values: seq<Cell>): (out: Table)
    requires |values| == |t.rows|
    ensures out.columns == AddName(t.columns, c)
    ensures |out.rows| == |t.rows|
    ensures forall i :: 0 <= i < |t.rows| ==> out.rows[i] == t.rows[i][c := values[i]]
    ensures Valid(t) ==> Valid(out)
  {
    Table(AddName(t.columns, c), seq(|t.rows|, i requires 0 <= i < |t.rows| => t.rows[i][c := values[i]]))
  }

  /** `df[c]` as a sequence of cells. */
  function Column(t: Table, c: Name): (col: seq<Cell>)
    ensures |col| == |t.rows|
    ensures forall i :: 0 <= i < |t.rows| ==> col[i] == Get(t.rows[i], c)
  {
    seq(|t.rows|, i requires 0 <= i < |t.rows| => Get(t.rows[i], c))
  }

  /** `df[mask]`: boolean indexing keeps every row the mask accepts, each
      copy of it, in order, under the same columns. */
  function Where(t: Table, keep: Row -> bool): (out: Table)
    ensures out.columns == t.columns
    ensures forall r :: r in out.rows <==> r in t.rows && keep(r)
    ensures forall r :: multiset(out.rows)[r] == if keep(r) then multiset(t.rows)[r] else 0
    ensures Subseq(out.rows, t.rows)
    ensures Valid(t) ==> Valid(out)
  {
    var out := Table(t.columns, Filter(t.rows, keep));
    assert Valid(t) ==> Valid(out) by {
      if Valid(t) {
        forall i | 0 <= i < |out.rows| ensures out.rows[i].Keys == ColumnSet(out) {
          assert out.rows[i] in t.rows;
        }
      }
    }
    out
  }

  /** The elements of `s` that satisfy `p`, each as often as in `s`, in
      their original order. */
  function Filter<T(==, !new)>(s: seq<T>, p: T -> bool): (r: seq<T>)
    ensures |r| <= |s|
    ensures forall x :: x in r <==> x in s && p(x)
    ensures forall x :: multiset(r)[x] == if p(x) then multiset(s)[x] else 0
    ensures Subseq(r, s)
  {
    if s == [] then []
    else
      assert s == [s[0]] + s[1..];
      if p(s[0]) then [s[0]] + Filter(s[1..], p)
      else Filter(s[1..], p)
  }

  /** `a` is `b` with some elements dropped and the order of the rest kept. */
  ghost predicate Subseq<T>(a: seq<T>, b: seq<T>)
    decreases |b|
  {
    if a == [] then true
    else if b == [] then false
    else (a[0] == b[0] && Subseq(a[1..], b[1..])) || Subseq(a, b[1..])
  }

  lemma {:induction false} SubseqReflexive<T>(a: seq<T>)
    ensures Subseq(a, a)
  {
    if a != [] {
      SubseqReflexive(a[1..]);
    }
  }

  /** Narrowing twice is narrowing: order-preserving subsequences compose. */
  lemma {:induction false} SubseqTransitive<T>(a: seq<T>, b: seq<T>, c: seq<T>)
    requires Subseq(a, b) && Subseq(b, c)
    ensures Subseq(a, c)
    decreases |c|
  {
    if a != [] {
      assert b != [] && c != [];
      if Subseq(b, c[1..]) {
        SubseqTransitive(a, b, c[1..]);
      } else {
        assert b[0] == c[0] && Subseq(b[1..], c[1..]);
        if Subseq(a, b[1..]) {
          SubseqTransitive(a, b[1..], c[1..]);
        } else {
          assert a[0] == b[0] && Subseq(a[1..], b[1..]);
          SubseqTransitive(a[1..], b[1..], c[1..]);
        }
      }
    }
  }

  lemma {:induction false} SubseqLength<T>(a: seq<T>, b: seq<T>)
    requires Subseq(a, b)
    ensures |a| <= |b|
    decreases |b|
  {
    if a != [] {
      if Subseq(a, b[1..]) {
        SubseqLength(a, b[1..]);
      } else {
        SubseqLength(a[1..], b[1..]);
      }
    }
  }

  // Float semantics of the cell operations the core applies. A text cell
  // in arithmetic or in a comparison makes pandas raise a TypeError; these
  // operations treat it as missing.

  /** `c > k` for a number `k`: NaN compares false, +inf above everything. */
  predicate Above(c: Cell, k: real) {
    (c.Num? && c.x > k) || c.PosInf?
  }

  /** `c > 0` */
  predicate Positive(c: Cell) {
    Above(c, 0.0)
  }

  /** `c >= k` */
  predicate AtLeast(c: Cell, k: int) {
    (c.Num? && c.x >= k as real) || c.PosInf?
  }

  /** `c <= k` */
  predicate AtMost(c: Cell, k: int) {
    (c.Num? && c.x <= k as real) || c.NegInf?
  }

  /** `pd.notna(c)`: infinities and text are present, only NaN/None/NaT are not. */
  predicate Present(c: Cell) {
    !c.Missing?
  }

  predicate IsNumber(c: Cell) {
    c.Num? || c.PosInf? || c.NegInf?
  }

  /** IEEE division `a / b` (the sign of a zero is not modelled). */
  function Div(a: Cell, b: Cell): (q: Cell)
    ensures !IsNumber(a) || !IsNumber(b) ==> q == Missing
    ensures a.Num? && b.Num? && b.x != 0.0 ==> q == Num(a.x / b.x)
    ensures a.Num? && (b.PosInf? || b.NegInf?) ==> q == Num(0.0)
    ensures q.Num? <==> a.Num? && (b.Num? ==> b.x != 0.0) && IsNumber(b)
    ensures q.PosInf? <==>
      || (a.Num? && a.x > 0.0 && b == Num(0.0))
      || (a.PosInf? && b.Num? && b.x >= 0.0)
      || (a.NegInf? && b.Num? && b.x < 0.0)
    ensures q.NegInf? <==>
      || (a.Num? && a.x < 0.0 && b == Num(0.0))
      || (a.NegInf? && b.Num? && b.x >= 0.0)
      || (a.PosInf? && b.Num? && b.x < 0.0)
    ensures q == Missing <==>
      || !IsNumber(a) || !IsNumber(b)
      || (a == Num(0.0) && b == Num(0.0))
      || (!a.Num? && !b.Num?)
  {
    match (a, b)
    case (Num(x), Num(y)) =>
      if y != 0.0 then Num(x / y)
      else if x > 0.0 then PosInf
      else if x < 0.0 then NegInf
      else Missing
    case (Num(_), PosInf) => Num(0.0)
    case (Num(_), NegInf) => Num(0.0)
    case (PosInf, Num(y)) => if y >= 0.0 then PosInf else NegInf
    case (NegInf, Num(y)) => if y >= 0.0 then NegInf else PosInf
    case (_, _) => Missing
  }

  /** IEEE subtraction `a - b`. */
  function Sub(a: Cell, b: Cell): (d: Cell)
    ensures !IsNumber(a) || !IsNumber(b) ==> d == Missing
    ensures a.Num? && b.Num? ==> d == Num(a.x - b.x)
    ensures d.Num? <==> a.Num? && b.Num?
    ensures d.PosInf? <==> (a.PosInf? && (b.Num? || b.NegInf?)) || (a.Num? && b.NegInf?)
    ensures d.NegInf? <==> (a.NegInf? && (b.Num? || b.PosInf?)) || (a.Num? && b.PosInf?)
    ensures d == Missing <==> !IsNumber(a) || !IsNumber(b) || (a.PosInf? && b.PosInf?) || (a.NegInf? && b.NegInf?)
  {
    match (a, b)
    case (Num(x), Num(y)) => Num(x - y)
    case (PosInf, Num(_)) => PosInf
    case (PosInf, NegInf) => PosInf
    case (NegInf, Num(_)) => NegInf
    case (NegInf, PosInf) => NegInf
    case (Num(_), PosInf) => NegInf
    case (Num(_), NegInf) => PosInf
    case (_, _) => Missing
  }
}
