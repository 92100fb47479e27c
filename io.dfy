/** utils/io.py: `load_data`, the chunked CSV loader. The file system and the
    CSV parser are an input value (`CsvSource`: the header, the chunks the
    reader yields and how the stream ends); the seeded sampler behind
    `df.sample` and the parser behind `pd.to_datetime` are function
    parameters; the progress messages are returned as the figures they
    report. */
module Io {
  import opened Frame
  import Prep

  /** `chunk_size` */
  const ChunkSize: nat := 100000

  /** How the reader's stream ends once every chunk has been taken: normally,
      or by raising one of the errors `load_data` tells apart. */
  datatype StreamEnd = Eof | EmptyData | ParseError | OtherError

  /** What `pd.read_csv(file_path, chunksize=chunk_size)` yields. */
  datatype CsvSource = CsvSource(header: seq<Name>, chunks: seq<seq<Row>>, end: StreamEnd)

  /** The outcome of `pd.to_datetime(column, errors='coerce')`: a datetime64
      column (NaT as `None`), a column of another dtype, or an exception. */
  datatype DateConversion =
    | Converted(stamps: seq<Option<Stamp>>)
    | NotDatetime(cells: seq<Cell>)
    | Raised

  function HeaderSet(header: seq<Name>): set<Name> {
    set c | c in header
  }

  /** The reader's frames: distinct column names, and every row holds one
      cell per column. */
  predicate Sound(src: CsvSource) {
    && Distinct(src.header)
    && forall k, i :: 0 <= k < |src.chunks| && 0 <= i < |src.chunks[k]| ==>
         src.chunks[k][i].Keys == HeaderSet(src.header)
  }

  /** A conversion returns one value per input cell. */
  predicate Fits(conv: DateConversion, n: nat) {
    match conv
    case Converted(stamps) => |stamps| == n
    case NotDatetime(cells) => |cells| == n
    case Raised => true
  }

  ghost predicate KeepsLength(toDatetime: seq<Cell> -> DateConversion) {
    forall cells :: Fits(toDatetime(cells), |cells|)
  }

  /** `n` distinct row positions below `len`. */
  predicate Draws(idx: seq<nat>, len: nat, n: nat) {
    && |idx| == n
    && (forall j :: 0 <= j < |idx| ==> idx[j] < len)
    && Distinct(idx)
  }

  /** `df.sample(n, random_state=42)` picks `n` distinct rows, in some order. */
  ghost predicate ValidDraw(draw: (nat, nat) -> seq<nat>) {
    forall len: nat, n: nat :: n <= len ==> Draws(draw(len, n), len, n)
  }

  // ---------------------------------------------------------------------
  // The chunk loop

  /** Python truthiness of `sample_size`: `None` and `0` are false. */
  predicate Truthy(sampleSize: Option<int>) {
    sampleSize.Some? && sampleSize.value != 0
  }

  /** The early-stop test after `k` chunks. */
  predicate Stops(sampleSize: Option<int>, k: nat) {
    Truthy(sampleSize) && k * ChunkSize >= sampleSize.value
  }

  /** The first chunk count at which a sample of `n` rows is reached. */
  function StopAt(n: int): (k: nat)
    ensures k >= 1 && k * ChunkSize >= n
    ensures forall j :: 1 <= j < k ==> j * ChunkSize < n
  {
    if n <= ChunkSize then 1
    else
      var k := (n + ChunkSize - 1) / ChunkSize;
      assert (k - 1) * ChunkSize < n;
      k
  }

  /** How many chunks the loop takes from `src`. */
  function ChunksRead(src: CsvSource, sampleSize: Option<int>): nat {
    if Truthy(sampleSize) && StopAt(sampleSize.value) <= |src.chunks| then StopAt(sampleSize.value)
    else |src.chunks|
  }

  /** Whether the loop runs the reader to its end (no `break`). */
  predicate ReachesEnd(src: CsvSource, sampleSize: Option<int>) {
    !(Truthy(sampleSize) && StopAt(sampleSize.value) <= |src.chunks|)
  }

  /** The loop stops at the first `k` with `k * chunk_size >= sample_size`,
      and reads every chunk when the sample size is `None` or `0`. */
  lemma ChunksReadFirstStop(src: CsvSource, sampleSize: Option<int>)
    ensures ChunksRead(src, sampleSize) <= |src.chunks|
    ensures forall j :: 1 <= j < ChunksRead(src, sampleSize) ==> !Stops(sampleSize, j)
    ensures !ReachesEnd(src, sampleSize) <==> ChunksRead(src, sampleSize) >= 1 && Stops(sampleSize, ChunksRead(src, sampleSize))
    ensures !Truthy(sampleSize) ==> ChunksRead(src, sampleSize) == |src.chunks| && ReachesEnd(src, sampleSize)
  {
    if !ReachesEnd(src, sampleSize) {
      var k := StopAt(sampleSize.value);
      assert Stops(sampleSize, k);
    } else if Truthy(sampleSize) && ChunksRead(src, sampleSize) >= 1 {
      var k := ChunksRead(src, sampleSize);
      assert k < StopAt(sampleSize.value);
      assert !Stops(sampleSize, k);
    }
  }

  /** The progress figures after `k` chunks: `len(chunks) * chunk_size`. */
  function Figures(k: nat): (fs: seq<nat>)
    ensures |fs| == k
    ensures forall j :: 0 <= j < k ==> fs[j] == (j + 1) * ChunkSize
  {
    if k == 0 then [] else Figures(k - 1) + [k * ChunkSize]
  }

  function Progress(file: Option<CsvSource>, sampleSize: Option<int>): seq<nat> {
    match file
    case None => []
    case Some(src) => Figures(ChunksRead(src, sampleSize))
  }

  /** Each reported figure is larger than the one before. */
  lemma ProgressGrows(file: Option<CsvSource>, sampleSize: Option<int>, i: nat, j: nat)
    requires i < j < |Progress(file, sampleSize)|
    ensures Progress(file, sampleSize)[i] < Progress(file, sampleSize)[j]
  {
    var fs := Progress(file, sampleSize);
    assert fs[i] == (i + 1) * ChunkSize && fs[j] == (j + 1) * ChunkSize;
  }

  /** The figure counts whole chunks, so it can exceed the rows read: one
      chunk of a single row reports 100,000. */
  lemma ProgressCanExceedRows()
    ensures var src := CsvSource([VideoViewCount], [[map[VideoViewCount := Num(1.0)]]], Eof);
      Progress(Some(src), None) == [ChunkSize] && |Gathered(src, None).rows| == 1
  {
    var src := CsvSource([VideoViewCount], [[map[VideoViewCount := Num(1.0)]]], Eof);
    assert ChunksRead(src, None) == 1;
    assert src.chunks[..1] == src.chunks;
    assert Figures(1) == [ChunkSize];
  }

  // ---------------------------------------------------------------------
  // Concatenation, sampling and the date columns

  /** The number of rows in the chunks. */
  function RowCount(chunks: seq<seq<Row>>): nat {
    if |chunks| == 0 then 0 else RowCount(chunks[..|chunks| - 1]) + |chunks[|chunks| - 1]|
  }

  /** The rows of the chunks, in order. */
  function Flatten(chunks: seq<seq<Row>>): (rows: seq<Row>)
    ensures |rows| == RowCount(chunks)
    ensures |rows| == 0 <==> forall k :: 0 <= k < |chunks| ==> |chunks[k]| == 0
  {
    if |chunks| == 0 then [] else Flatten(chunks[..|chunks| - 1]) + chunks[|chunks| - 1]
  }

  /** Row `i` of chunk `k` lands after all the rows of the chunks before it:
      the concatenation keeps every row, in chunk order. */
  lemma {:induction false} FlattenOrder(chunks: seq<seq<Row>>, k: nat, i: nat)
    requires k < |chunks| && i < |chunks[k]|
    ensures RowCount(chunks[..k]) + i < |Flatten(chunks)|
    ensures Flatten(chunks)[RowCount(chunks[..k]) + i] == chunks[k][i]
  {
    var init := chunks[..|chunks| - 1];
    if k < |chunks| - 1 {
      assert init[..k] == chunks[..k];
      FlattenOrder(init, k, i);
    } else {
      assert chunks[..k] == init;
    }
  }

  /** A row is in the concatenation iff it is in one of the chunks. */
  lemma {:induction false} FlattenRows(chunks: seq<seq<Row>>, r: Row)
    ensures r in Flatten(chunks) <==> exists k :: 0 <= k < |chunks| && r in chunks[k]
  {
    if |chunks| > 0 {
      var init := chunks[..|chunks| - 1];
      FlattenRows(init, r);
      if exists k :: 0 <= k < |init| && r in init[k] {
        var k :| 0 <= k < |init| && r in init[k];
        assert chunks[k] == init[k];
      }
      if exists k :: 0 <= k < |chunks| && r in chunks[k] {
        var k :| 0 <= k < |chunks| && r in chunks[k];
        if k < |init| {
          assert init[k] == chunks[k];
        }
      }
    }
  }

  lemma {:induction false} FlattenKeys(chunks: seq<seq<Row>>, keys: set<Name>)
    requires forall k, i :: 0 <= k < |chunks| && 0 <= i < |chunks[k]| ==> chunks[k][i].Keys == keys
    ensures forall i :: 0 <= i < |Flatten(chunks)| ==> Flatten(chunks)[i].Keys == keys
  {
    if |chunks| > 0 {
      var init := chunks[..|chunks| - 1];
      FlattenKeys(init, keys);
      var rows := Flatten(chunks);
      forall i | 0 <= i < |rows| ensures rows[i].Keys == keys {
        if i >= |Flatten(init)| {
          assert rows[i] == chunks[|chunks| - 1][i - |Flatten(init)|];
        } else {
          assert rows[i] == Flatten(init)[i];
        }
      }
    }
  }

  /** `pd.concat(chunks, ignore_index=True)`: the header's columns, as many
      rows as the chunks hold, and exactly the chunks' rows. */
  function Concat(header: seq<Name>, chunks: seq<seq<Row>>): (df: Table)
    ensures df.columns == header
    ensures |df.rows| == RowCount(chunks)
    ensures forall r :: r in df.rows <==> exists k :: 0 <= k < |chunks| && r in chunks[k]
  {
    forall r ensures r in Flatten(chunks) <==> exists k :: 0 <= k < |chunks| && r in chunks[k] {
      FlattenRows(chunks, r);
    }
    Table(header, Flatten(chunks))
  }

  /** The frame the chunks read make up. */
  function Gathered(src: CsvSource, sampleSize: Option<int>): Table {
    Concat(src.header, src.chunks[..ChunksRead(src, sampleSize)])
  }

  lemma GatheredValid(src: CsvSource, sampleSize: Option<int>)
    requires Sound(src)
    ensures Valid(Gathered(src, sampleSize))
  {
    var n := ChunksRead(src, sampleSize);
    var read: seq<seq<Row>> := src.chunks[..n];
    forall k: int, i: int | 0 <= k < |read| && 0 <= i < |read[k]| ensures read[k][i].Keys == HeaderSet(src.header) {
      assert read[k] == src.chunks[k];
    }
    FlattenKeys(read, HeaderSet(src.header));
    assert ColumnSet(Gathered(src, sampleSize)) == HeaderSet(src.header);
  }

  /** `sample_size and len(df) > sample_size` */
  predicate Trims(df: Table, sampleSize: Option<int>) {
    Truthy(sampleSize) && |df.rows| > sampleSize.value
  }

  /** The elements of `s` at the positions `idx`, in the order of `idx`. */
  function Pick<T>(s: seq<T>, idx: seq<nat>): (out: seq<T>)
    requires forall j :: 0 <= j < |idx| ==> idx[j] < |s|
    ensures |out| == |idx|
    ensures forall j :: 0 <= j < |idx| ==> out[j] == s[idx[j]]
  {
    seq(|idx|, j requires 0 <= j < |idx| => s[idx[j]])
  }

  /** `df.sample(n)`: the rows at the drawn positions. */
  function Sample(df: Table, n: nat, draw: (nat, nat) -> seq<nat>): (out: Table)
    requires ValidDraw(draw) && n <= |df.rows|
    ensures out.columns == df.columns && |out.rows| == n
  {
    var idx := draw(|df.rows|, n);
    assert Draws(idx, |df.rows|, n);
    Table(df.columns, Pick(df.rows, idx))
  }

  /** Removing the element at `p` takes one copy of it out of the multiset. */
  lemma RemoveAt<T>(s: seq<T>, p: nat)
    requires p < |s|
    ensures multiset(s) == multiset(s[..p] + s[p + 1..]) + multiset{s[p]}
  {
    assert s == s[..p] + [s[p]] + s[p + 1..];
  }

  /** The positions other than `p`, renumbered for the sequence without it. */
  function Shifted(idx: seq<nat>, p: nat): (out: seq<nat>)
    ensures |out| == |idx|
    ensures forall j :: 0 <= j < |idx| ==> out[j] == if idx[j] <= p then idx[j] else idx[j] - 1
  {
    seq(|idx|, j requires 0 <= j < |idx| => if idx[j] <= p then idx[j] else idx[j] - 1)
  }

  lemma ShiftedPick<T>(s: seq<T>, idx: seq<nat>, p: nat)
    requires p < |s| && p !in idx
    requires forall j :: 0 <= j < |idx| ==> idx[j] < |s|
    ensures var rest := s[..p] + s[p + 1..];
      && (forall j :: 0 <= j < |idx| ==> Shifted(idx, p)[j] < |rest|)
      && (Distinct(idx) ==> Distinct(Shifted(idx, p)))
      && Pick(rest, Shifted(idx, p)) == Pick(s, idx)
  {
    var rest := s[..p] + s[p + 1..];
    var sh := Shifted(idx, p);
    forall j | 0 <= j < |idx| ensures sh[j] < |rest| && rest[sh[j]] == s[idx[j]] {
      assert idx[j] != p;
    }
    if Distinct(idx) {
      forall a, b | 0 <= a < b < |sh| ensures sh[a] != sh[b] {
        assert idx[a] != idx[b] && idx[a] != p && idx[b] != p;
      }
    }
  }

  /** The elements at distinct positions of `s` form a sub-multiset of it. */
  lemma {:induction false} PickSubMultiset<T>(s: seq<T>, idx: seq<nat>)
    requires Distinct(idx) && forall j :: 0 <= j < |idx| ==> idx[j] < |s|
    ensures multiset(Pick(s, idx)) <= multiset(s)
    decreases |idx|
  {
    if |idx| > 0 {
      var init := idx[..|idx| - 1];
      var p := idx[|idx| - 1];
      assert p !in init by {
        forall j | 0 <= j < |init| ensures init[j] != p {
          assert idx[j] != idx[|idx| - 1];
        }
      }
      var rest := s[..p] + s[p + 1..];
      ShiftedPick(s, init, p);
      PickSubMultiset(rest, Shifted(init, p));
      RemoveAt(s, p);
      assert Pick(s, idx) == Pick(s, init) + [s[p]];
    }
  }

  /** Every sampled row is a loaded row: the sample is a sub-multiset. */
  lemma SampleFromRows(df: Table, n: nat, draw: (nat, nat) -> seq<nat>)
    requires ValidDraw(draw) && n <= |df.rows|
    ensures multiset(Sample(df, n, draw).rows) <= multiset(df.rows)
  {
    var idx := draw(|df.rows|, n);
    assert Draws(idx, |df.rows|, n);
    PickSubMultiset(df.rows, idx);
  }

  lemma SampleValid(df: Table, n: nat, draw: (nat, nat) -> seq<nat>)
    requires ValidDraw(draw) && n <= |df.rows| && Valid(df)
    ensures Valid(Sample(df, n, draw))
  {
    var idx := draw(|df.rows|, n);
    assert Draws(idx, |df.rows|, n);
  }

  /** The rows kept: all of them, or a sample of `sample_size` when more
      were loaded (a negative size makes `df.sample` raise instead). */
  function Picked(df: Table, sampleSize: Option<int>, draw: (nat, nat) -> seq<nat>): (out: Table)
    requires ValidDraw(draw)
    requires Trims(df, sampleSize) ==> sampleSize.value >= 0
    ensures out.columns == df.columns
    ensures |out.rows| == if Trims(df, sampleSize) then sampleSize.value else |df.rows|
  {
    if Trims(df, sampleSize) then Sample(df, sampleSize.value, draw) else df
  }

  function StampCells(stamps: seq<Option<Stamp>>): seq<Cell> {
    seq(|stamps|, i requires 0 <= i < |stamps| => if stamps[i].Some? then Timestamp(stamps[i].value) else Missing)
  }

  /** `.dt.year`: NaT gives NaN. */
  function Years(stamps: seq<Option<Stamp>>): seq<Cell> {
    seq(|stamps|, i requires 0 <= i < |stamps| => if stamps[i].Some? then Num(stamps[i].value.year as real) else Missing)
  }

  function Months(stamps: seq<Option<Stamp>>): (cells: seq<Cell>)
    ensures |cells| == |stamps|
    ensures forall i :: 0 <= i < |stamps| ==>
      cells[i] == if stamps[i].Some? then Num(stamps[i].value.month as real) else Missing
  {
    seq(|stamps|, i requires 0 <= i < |stamps| => if stamps[i].Some? then Num(stamps[i].value.month as real) else Missing)
  }

  /** `.dt.date`: a date object, NaT for NaT. */
  function Dates(stamps: seq<Option<Stamp>>): seq<Cell> {
    seq(|stamps|, i requires 0 <= i < |stamps| => if stamps[i].Some? then Day(stamps[i].value) else Missing)
  }

  /** The date block: when `videoPublished` is a column, it is reassigned with
      the converted values, and the year, month and date columns are added
      only when the result has a datetime dtype; an exception leaves the
      frame as it was. */
  function WithDates(df: Table, toDatetime: seq<Cell> -> DateConversion): (out: Table)
    requires KeepsLength(toDatetime)
    ensures |out.rows| == |df.rows|
    ensures forall c :: c in df.columns ==> c in out.columns
    ensures Valid(df) ==> Valid(out)
  {
    if VideoPublished !in df.columns then df
    else
      var col := Column(df, VideoPublished);
      assert Fits(toDatetime(col), |col|);
      match toDatetime(col)
      case Raised => df
      case NotDatetime(cells) => SetColumn(df, VideoPublished, cells)
      case Converted(stamps) =>
        var published := SetColumn(df, VideoPublished, StampCells(stamps));
        var years := SetColumn(published, PublishYear, Years(stamps));
        var months := SetColumn(years, PublishMonth, Months(stamps));
        SetColumn(months, PublishDate, Dates(stamps))
  }

  /** The date columns appear exactly when `videoPublished` is a column and
      converts to a datetime dtype (or when the file already had them). */
  lemma DatesOnlyWhenConverted(df: Table, toDatetime: seq<Cell> -> DateConversion, c: Name)
    requires KeepsLength(toDatetime)
    requires c == PublishYear || c == PublishMonth || c == PublishDate
    ensures c in WithDates(df, toDatetime).columns <==>
      c in df.columns || (VideoPublished in df.columns && toDatetime(Column(df, VideoPublished)).Converted?)
  {
  }

  /** A converted month column holds the timestamp's month, or NaN for NaT. */
  lemma ConvertedMonths(df: Table, toDatetime: seq<Cell> -> DateConversion, i: nat)
    requires KeepsLength(toDatetime) && VideoPublished in df.columns && i < |df.rows|
    requires toDatetime(Column(df, VideoPublished)).Converted?
    ensures var stamp := toDatetime(Column(df, VideoPublished)).stamps[i];
      Get(WithDates(df, toDatetime).rows[i], PublishMonth) ==
        if stamp.Some? then Num(stamp.value.month as real) else Missing
  {
    var col := Column(df, VideoPublished);
    assert Fits(toDatetime(col), |col|);
  }

  /** Row i after a conversion to datetime: `videoPublished` holds the
      timestamp, `publishYear`, `publishMonth` and `publishDate` its year,
      month and date (NaN or NaT for NaT), and every other cell is kept. */
  lemma ConvertedYearsAndDates(df: Table, toDatetime: seq<Cell> -> DateConversion, i: nat)
    requires KeepsLength(toDatetime) && VideoPublished in df.columns && i < |df.rows|
    requires toDatetime(Column(df, VideoPublished)).Converted?
    ensures var stamp := toDatetime(Column(df, VideoPublished)).stamps[i];
      var row := WithDates(df, toDatetime).rows[i];
      && Get(row, VideoPublished) == (if stamp.Some? then Timestamp(stamp.value) else Missing)
      && Get(row, PublishYear) == (if stamp.Some? then Num(stamp.value.year as real) else Missing)
      && Get(row, PublishMonth) == (if stamp.Some? then Num(stamp.value.month as real) else Missing)
      && Get(row, PublishDate) == (if stamp.Some? then Day(stamp.value) else Missing)
      && row.Keys == df.rows[i].Keys + {VideoPublished, PublishYear, PublishMonth, PublishDate}
      && forall c :: c != VideoPublished && c != PublishYear && c != PublishMonth && c != PublishDate ==>
           Get(row, c) == Get(df.rows[i], c)
  {
    var col := Column(df, VideoPublished);
    assert Fits(toDatetime(col), |col|);
    var stamp := toDatetime(col).stamps[i];
    ConvertedRow(df, toDatetime, i);
    StampedRow(df.rows[i], stamp);
  }

  /** Row i of the converted frame is the old row with the four date cells set. */
  lemma ConvertedRow(df: Table, toDatetime: seq<Cell> -> DateConversion, i: nat)
    requires KeepsLength(toDatetime) && VideoPublished in df.columns && i < |df.rows|
    requires toDatetime(Column(df, VideoPublished)).Converted?
    ensures var stamp := toDatetime(Column(df, VideoPublished)).stamps[i];
      WithDates(df, toDatetime).rows[i] == Stamped(df.rows[i], stamp)
  {
    var col := Column(df, VideoPublished);
    assert Fits(toDatetime(col), |col|);
    var stamps := toDatetime(col).stamps;
    var published := SetColumn(df, VideoPublished, StampCells(stamps));
    var years := SetColumn(published, PublishYear, Years(stamps));
    var months := SetColumn(years, PublishMonth, Months(stamps));
    var dated := SetColumn(months, PublishDate, Dates(stamps));
    assert WithDates(df, toDatetime) == dated;
  }

  /** A row with `videoPublished` and the three derived cells set from one
      stamp. */
  function Stamped(r: Row, stamp: Option<Stamp>): Row {
    r[VideoPublished := if stamp.Some? then Timestamp(stamp.value) else Missing]
     [PublishYear := if stamp.Some? then Num(stamp.value.year as real) else Missing]
     [PublishMonth := if stamp.Some? then Num(stamp.value.month as real) else Missing]
     [PublishDate := if stamp.Some? then Day(stamp.value) else Missing]
  }

  lemma StampedRow(r: Row, stamp: Option<Stamp>)
    ensures var row := Stamped(r, stamp);
      && Get(row, VideoPublished) == (if stamp.Some? then Timestamp(stamp.value) else Missing)
      && Get(row, PublishYear) == (if stamp.Some? then Num(stamp.value.year as real) else Missing)
      && Get(row, PublishMonth) == (if stamp.Some? then Num(stamp.value.month as real) else Missing)
      && Get(row, PublishDate) == (if stamp.Some? then Day(stamp.value) else Missing)
      && row.Keys == r.Keys + {VideoPublished, PublishYear, PublishMonth, PublishDate}
      && forall c :: c != VideoPublished && c != PublishYear && c != PublishMonth && c != PublishDate ==>
           Get(row, c) == Get(r, c)
  {
  }

  /** Row i when `videoPublished` does not convert to datetime: it holds the
      values `to_datetime` returned, and nothing else changes; an exception
      or a missing column leaves the row as it was. The columns stay the
      same in every case. */
  lemma UnconvertedDates(df: Table, toDatetime: seq<Cell> -> DateConversion, i: nat)
    requires KeepsLength(toDatetime) && i < |df.rows|
    requires VideoPublished in df.columns ==> !toDatetime(Column(df, VideoPublished)).Converted?
    ensures WithDates(df, toDatetime).columns == df.columns
    ensures var row := WithDates(df, toDatetime).rows[i];
      if VideoPublished in df.columns && toDatetime(Column(df, VideoPublished)).NotDatetime? then
        && VideoPublished in row
        && row[VideoPublished] == toDatetime(Column(df, VideoPublished)).cells[i]
        && row.Keys == df.rows[i].Keys + {VideoPublished}
        && forall c :: c != VideoPublished ==> Get(row, c) == Get(df.rows[i], c)
      else row == df.rows[i]
  {
    var col := Column(df, VideoPublished);
    assert Fits(toDatetime(col), |col|);
  }

  // ---------------------------------------------------------------------
  // load_data

  /** The frame `load_data` returns from the concatenated chunks: `None` when
      `df.sample` raises on a negative size, and otherwise the sampled,
      date-converted and cleaned frame. */
  function Assembled(df: Table, sampleSize: Option<int>, draw: (nat, nat) -> seq<nat>,
                     toDatetime: seq<Cell> -> DateConversion): Option<Table>
    requires ValidDraw(draw) && KeepsLength(toDatetime)
  {
    if Trims(df, sampleSize) && sampleSize.value < 0 then None
    else Some(Prep.Cleaned(WithDates(Picked(df, sampleSize, draw), toDatetime)))
  }

  /** What `load_data` returns: an empty frame for a missing file or an
      empty or unparseable one, `None` for any other exception (including
      `pd.concat` of no chunks), and otherwise the assembled frame. */
  function Loaded(file: Option<CsvSource>, sampleSize: Option<int>, draw: (nat, nat) -> seq<nat>,
                  toDatetime: seq<Cell> -> DateConversion): Option<Table>
    requires ValidDraw(draw) && KeepsLength(toDatetime)
  {
    match file
    case None => Some(EmptyFrame)
    case Some(src) =>
      if ReachesEnd(src, sampleSize) && src.end != Eof then
        (if src.end == OtherError then None else Some(EmptyFrame))
      else if ChunksRead(src, sampleSize) == 0 then None
      else Assembled(Gathered(src, sampleSize), sampleSize, draw, toDatetime)
  }

  /** The `for chunk in reader` loop: appends each chunk, reports
      `len(chunks) * chunk_size`, and breaks once the sample is covered. */
  method ReadChunks(src: CsvSource, sampleSize: Option<int>)
    returns (chunks: seq<seq<Row>>, progress: seq<nat>, stopped: bool)
    ensures chunks == src.chunks[..ChunksRead(src, sampleSize)]
    ensures progress == Figures(ChunksRead(src, sampleSize))
    ensures stopped <==> !ReachesEnd(src, sampleSize)
  {
    chunks := [];
    progress := [];
    stopped := false;
    var k := 0;
    while k < |src.chunks|
      invariant 0 <= k <= |src.chunks|
      invariant chunks == src.chunks[..k] && progress == Figures(k)
      invariant forall j :: 1 <= j <= k ==> !Stops(sampleSize, j)
    {
      chunks := chunks + [src.chunks[k]];
      progress := progress + [|chunks| * ChunkSize];
      k := k + 1;
      if Stops(sampleSize, |chunks|) {
        stopped := true;
        break;
      }
    }
    ChunksReadFirstStop(src, sampleSize);
  }

  /** The date block of `load_data`, assigning the columns one by one. */
  method DeriveDates(df: Table, toDatetime: seq<Cell> -> DateConversion) returns (out: Table)
    requires KeepsLength(toDatetime)
    ensures out == WithDates(df, toDatetime)
  {
    out := df;
    if VideoPublished in out.columns {
      var col := Column(out, VideoPublished);
      assert Fits(toDatetime(col), |col|);
      match toDatetime(col) {
        case Raised =>
        case NotDatetime(cells) =>
          out := SetColumn(out, VideoPublished, cells);
        case Converted(stamps) =>
          out := SetColumn(out, VideoPublished, StampCells(stamps));
          out := SetColumn(out, PublishYear, Years(stamps));
          out := SetColumn(out, PublishMonth, Months(stamps));
          out := SetColumn(out, PublishDate, Dates(stamps));
      }
    }
  }

  /** Sampling, the date block and the cleaning loop of `load_data`. */
  method Assemble(df: Table, sampleSize: Option<int>, draw: (nat, nat) -> seq<nat>,
                  toDatetime: seq<Cell> -> DateConversion) returns (result: Option<Table>)
    requires Valid(df) && ValidDraw(draw) && KeepsLength(toDatetime)
    ensures result == Assembled(df, sampleSize, draw, toDatetime)
  {
    var picked := df;
    if Truthy(sampleSize) && |df.rows| > sampleSize.value {
      if sampleSize.value < 0 {
        return None;
      }
      SampleValid(df, sampleSize.value, draw);
      picked := Sample(df, sampleSize.value, draw);
    }
    var dated := DeriveDates(picked, toDatetime);
    var clean := Prep.CleanData(dated);
    return Some(clean);
  }

  /** `load_data(file_path, sample_size)`: reads chunks until the sample is
      covered, concatenates them, samples, derives the date columns and
      cleans sentinels and infinities column by column. */
  method LoadData(file: Option<CsvSource>, sampleSize: Option<int>, draw: (nat, nat) -> seq<nat>,
                  toDatetime: seq<Cell> -> DateConversion) returns (result: Option<Table>, progress: seq<nat>)
    requires file.Some? ==> Sound(file.value)
    requires ValidDraw(draw) && KeepsLength(toDatetime)
    ensures result == Loaded(file, sampleSize, draw, toDatetime)
    ensures progress == Progress(file, sampleSize)
  {
    if file.None? {
      return Some(EmptyFrame), [];
    }
    var src := file.value;
    var chunks, stopped;
    chunks, progress, stopped := ReadChunks(src, sampleSize);
    if !stopped && src.end != Eof {
      if src.end == OtherError {
        return None, progress;
      }
      return Some(EmptyFrame), progress;
    }
    if |chunks| == 0 {
      return None, progress;
    }
    GatheredValid(src, sampleSize);
    result := Assemble(Concat(src.header, chunks), sampleSize, draw, toDatetime);
  }

  // ---------------------------------------------------------------------
  // What load_data promises

  /** A missing file gives an empty frame and reports no progress. */
  lemma MissingFileIsEmpty(sampleSize: Option<int>, draw: (nat, nat) -> seq<nat>,
                           toDatetime: seq<Cell> -> DateConversion)
    requires ValidDraw(draw) && KeepsLength(toDatetime)
    ensures Loaded(None, sampleSize, draw, toDatetime) == Some(EmptyFrame)
    ensures Progress(None, sampleSize) == []
  {
  }

  /** A file with a header and no rows: the reader yields one empty chunk
      with the header's columns, and `load_data` returns a frame with no
      rows that keeps those columns (not the column-less empty frame),
      unless a negative sample size makes `df.sample` raise. */
  lemma HeaderOnlyFile(header: seq<Name>, sampleSize: Option<int>, draw: (nat, nat) -> seq<nat>,
                       toDatetime: seq<Cell> -> DateConversion)
    requires ValidDraw(draw) && KeepsLength(toDatetime)
    ensures var out := Loaded(Some(CsvSource(header, [[]], Eof)), sampleSize, draw, toDatetime);
      && (out.None? <==> sampleSize.Some? && sampleSize.value < 0)
      && (out.Some? ==> out.value.rows == [] && forall c :: c in header ==> c in out.value.columns)
  {
    var src := CsvSource(header, [[]], Eof);
    var n := ChunksRead(src, sampleSize);
    assert n == 1 by {
      if Truthy(sampleSize) && StopAt(sampleSize.value) <= 1 {
        assert StopAt(sampleSize.value) == 1;
      }
    }
    assert src.chunks[..n] == [[]];
    var df := Gathered(src, sampleSize);
    assert df.columns == header && df.rows == [];
  }

  /** An empty or unparseable file reached by the loop gives an empty frame;
      any other error gives `None`. */
  lemma ReaderErrors(src: CsvSource, sampleSize: Option<int>, draw: (nat, nat) -> seq<nat>,
                     toDatetime: seq<Cell> -> DateConversion)
    requires ValidDraw(draw) && KeepsLength(toDatetime)
    requires ReachesEnd(src, sampleSize) && src.end != Eof
    ensures Loaded(Some(src), sampleSize, draw, toDatetime) ==
      if src.end == OtherError then None else Some(EmptyFrame)
  {
  }

  /** An error after the loop has broken off is never reached. */
  lemma ErrorAfterStopUnseen(src: CsvSource, sampleSize: Option<int>, draw: (nat, nat) -> seq<nat>,
                             toDatetime: seq<Cell> -> DateConversion)
    requires ValidDraw(draw) && KeepsLength(toDatetime)
    requires Truthy(sampleSize) && sampleSize.value >= 0
    requires StopAt(sampleSize.value) <= |src.chunks|
    ensures Loaded(Some(src), sampleSize, draw, toDatetime).Some?
  {
  }

  lemma PickedValid(df: Table, sampleSize: Option<int>, draw: (nat, nat) -> seq<nat>)
    requires ValidDraw(draw) && Valid(df)
    requires Trims(df, sampleSize) ==> sampleSize.value >= 0
    ensures Valid(Picked(df, sampleSize, draw))
  {
    if Trims(df, sampleSize) {
      SampleValid(df, sampleSize.value, draw);
    }
  }

  /** The rows kept are loaded rows, each at most as often as it was loaded. */
  lemma PickedFromRows(df: Table, sampleSize: Option<int>, draw: (nat, nat) -> seq<nat>)
    requires ValidDraw(draw)
    requires Trims(df, sampleSize) ==> sampleSize.value >= 0
    ensures multiset(Picked(df, sampleSize, draw).rows) <= multiset(df.rows)
  {
    if Trims(df, sampleSize) {
      SampleFromRows(df, sampleSize.value, draw);
    }
  }

  /** The frame has exactly `sample_size` rows when more were loaded, and all
      the loaded rows otherwise; `None` only for a negative size that had to
      be applied. */
  lemma AssembledRows(df: Table, sampleSize: Option<int>, draw: (nat, nat) -> seq<nat>,
                      toDatetime: seq<Cell> -> DateConversion)
    requires ValidDraw(draw) && KeepsLength(toDatetime)
    ensures Assembled(df, sampleSize, draw, toDatetime).None? <==> Trims(df, sampleSize) && sampleSize.value < 0
    ensures Assembled(df, sampleSize, draw, toDatetime).Some? ==>
      |Assembled(df, sampleSize, draw, toDatetime).value.rows| ==
        if Trims(df, sampleSize) then sampleSize.value else |df.rows|
  {
  }

  /** A positive `sample_size` bounds the rows returned. */
  lemma LoadedRowBound(file: Option<CsvSource>, sampleSize: Option<int>, draw: (nat, nat) -> seq<nat>,
                       toDatetime: seq<Cell> -> DateConversion)
    requires ValidDraw(draw) && KeepsLength(toDatetime)
    requires sampleSize.Some? && sampleSize.value > 0
    requires Loaded(file, sampleSize, draw, toDatetime).Some?
    ensures |Loaded(file, sampleSize, draw, toDatetime).value.rows| <= sampleSize.value
  {
    if file.Some? {
      AssembledRows(Gathered(file.value, sampleSize), sampleSize, draw, toDatetime);
    }
  }

  /** Numeric columns of a loaded frame hold no -1, -2 or infinities. */
  lemma LoadedHasNoSentinels(src: CsvSource, sampleSize: Option<int>, draw: (nat, nat) -> seq<nat>,
                             toDatetime: seq<Cell> -> DateConversion, i: nat, c: Name)
    requires Sound(src) && ValidDraw(draw) && KeepsLength(toDatetime)
    requires Loaded(Some(src), sampleSize, draw, toDatetime).Some?
    requires var t := Loaded(Some(src), sampleSize, draw, toDatetime).value;
      i < |t.rows| && c in t.columns && Prep.IsNumericColumn(t, c)
    ensures Get(Loaded(Some(src), sampleSize, draw, toDatetime).value.rows[i], c) !in Prep.Sentinels + Prep.Infinities
  {
    var df := Gathered(src, sampleSize);
    GatheredValid(src, sampleSize);
    PickedValid(df, sampleSize, draw);
    var pre := WithDates(Picked(df, sampleSize, draw), toDatetime);
    Prep.CleanedHasNoSentinels(pre, i, c);
  }
}
