/** The reconciliation of several enriched tables into one: the tables are
    concatenated, the two date columns are coerced to dates, the rows are
    grouped by Spotify uri (groups in ascending uri order, rows within a
    group in concatenation order), every group is collapsed into one row,
    and a missing peak position finally becomes 0. */
module Merge {
  import opened Wrappers
  import opened Stats
  import opened Lexicographic

  /** A calendar day, as a day number. */
  type Date = int

  /** A date cell as read from an enriched table: empty, a date the parser
      understands, or text it does not. */
  datatype DateCell = Blank | Written(day: Date) | Garbled(text: string)

  /** A row of an enriched table. `fields` holds the Spotify columns other
      than the uri, which the merge copies; `D` is the type of the two date
      columns, cells before coercion and optional dates after. */
  datatype SongRow<D> = SongRow(
    uri: string,
    fields: seq<string>,
    onBillboard: int,
    weeksOnChart: int,
    peakPosition: Option<int>,
    firstCharted: D,
    lastCharted: D)

  type CsvRow = SongRow<DateCell>
  type Song = SongRow<Option<Date>>

  /** A row of the merged table, whose peak position is always a number. */
  datatype MergedSong = MergedSong(
    uri: string,
    fields: seq<string>,
    onBillboard: int,
    weeksOnChart: int,
    peakPosition: int,
    firstCharted: Option<Date>,
    lastCharted: Option<Date>)

  // ---------------------------------------------------------------------------
  // Concatenation

  /** The tables one after the other, each in its own row order. */
  function Concat<T>(tables: seq<seq<T>>): seq<T>
  {
    if tables == [] then [] else tables[0] + Concat(tables[1..])
  }

  /** Every table sits, unchanged and in place, between the tables read
      before it and the tables read after it. */
  lemma {:induction false} ConcatSplit<T>(tables: seq<seq<T>>, t: nat)
    requires t < |tables|
    ensures Concat(tables) == Concat(tables[..t]) + tables[t] + Concat(tables[t + 1..])
  {
    if t == 0 {
      assert tables[..0] == [];
      assert tables[1..] == tables[t + 1..];
    } else {
      var rest := tables[1..];
      ConcatSplit(rest, t - 1);
      assert rest[..t - 1] == tables[1..t];
      assert rest[t - 1] == tables[t];
      assert rest[t..] == tables[t + 1..];
      assert Concat(tables[..t]) == tables[0] + Concat(tables[1..t]) by {
        assert tables[..t][0] == tables[0] && tables[..t][1..] == tables[1..t];
      }
      var before, after := Concat(tables[1..t]), Concat(tables[t + 1..]);
      assert Concat(tables) == tables[0] + (before + tables[t] + after);
      assert tables[0] + (before + tables[t] + after) == (tables[0] + before) + tables[t] + after;
    }
  }

  /** Row `j` of table `t` is in the concatenation, after the rows of the
      tables read before it. */
  lemma ConcatRow<T>(tables: seq<seq<T>>, t: nat, j: nat)
    requires t < |tables| && j < |tables[t]|
    ensures |Concat(tables[..t])| + j < |Concat(tables)|
    ensures Concat(tables)[|Concat(tables[..t])| + j] == tables[t][j]
  {
    ConcatSplit(tables, t);
  }

  // ---------------------------------------------------------------------------
  // Date coercion

  /** A readable date becomes that date; an empty or unreadable cell becomes
      a missing date instead of an error. */
  function CoerceDate(c: DateCell): (d: Option<Date>)
    ensures d.Some? <==> c.Written?
    ensures c.Written? ==> d.value == c.day
  {
    match c
    case Written(day) => Some(day)
    case _ => None
  }

  function CoerceRow(r: CsvRow): (s: Song)
    ensures s.uri == r.uri && s.fields == r.fields
    ensures s.onBillboard == r.onBillboard && s.weeksOnChart == r.weeksOnChart
    ensures s.peakPosition == r.peakPosition
    ensures s.firstCharted == CoerceDate(r.firstCharted) && s.lastCharted == CoerceDate(r.lastCharted)
  {
    SongRow(r.uri, r.fields, r.onBillboard, r.weeksOnChart, r.peakPosition,
            CoerceDate(r.firstCharted), CoerceDate(r.lastCharted))
  }

  /** Both date columns coerced, every other column and the row order kept. */
  function CoerceDates(rows: seq<CsvRow>): (songs: seq<Song>)
    ensures |songs| == |rows|
    ensures forall i :: 0 <= i < |rows| ==> songs[i] == CoerceRow(rows[i])
  {
    seq(|rows|, i requires 0 <= i < |rows| => CoerceRow(rows[i]))
  }

  // ---------------------------------------------------------------------------
  // Grouping

  function UriSet<D(==)>(rows: seq<SongRow<D>>): set<string>
  {
    set r | r in rows :: r.uri
  }

  /** The rows with uri `u`, in their order in `rows`. */
  function Group(rows: seq<Song>, u: string): (g: seq<Song>)
    ensures forall s :: s in g <==> s in rows && s.uri == u
  {
    if rows == [] then []
    else
      var rest := Group(rows[1..], u);
      assert forall s :: s in rows <==> s == rows[0] || s in rows[1..];
      if rows[0].uri == u then [rows[0]] + rest else rest
  }

  /** The first row of a group is the first row with its uri. */
  lemma {:induction false} GroupFirst(rows: seq<Song>, u: string)
    requires |Group(rows, u)| > 0
    ensures exists i ::
      && 0 <= i < |rows| && rows[i] == Group(rows, u)[0]
      && forall j :: 0 <= j < i ==> rows[j].uri != u
  {
    if rows[0].uri != u {
      var rest := Group(rows[1..], u);
      assert Group(rows, u) == rest;
      GroupFirst(rows[1..], u);
      var i :| 0 <= i < |rows[1..]| && rows[1..][i] == rest[0] && forall j :: 0 <= j < i ==> rows[1..][j].uri != u;
      assert rows[i + 1] == rest[0];
      forall j | 0 < j < i + 1 ensures rows[j].uri != u {
        assert rows[j] == rows[1..][j - 1];
      }
    }
  }

  /** Grouping distributes over concatenation: the group of a uri in two
      tables read one after the other is its group in the first followed by
      its group in the second. */
  lemma {:induction false} GroupAppend(a: seq<Song>, b: seq<Song>, u: string)
    ensures Group(a + b, u) == Group(a, u) + Group(b, u)
  {
    if a == [] {
      assert a + b == b;
    } else {
      assert (a + b)[1..] == a[1..] + b;
      GroupAppend(a[1..], b, u);
    }
  }

  /** The distinct uris of the rows, in ascending order. */
  function SortedUris(rows: seq<Song>): (us: seq<string>)
    ensures StrictlySorted(us)
    ensures forall u :: u in us <==> u in UriSet(rows)
  {
    if rows == [] then []
    else
      var rest := SortedUris(rows[1..]);
      assert forall r :: r in rows <==> r == rows[0] || r in rows[1..];
      Insert(rest, rows[0].uri)
  }

  // ---------------------------------------------------------------------------
  // Collapsing one group

  function WeeksColumn(g: seq<Song>): seq<int>
  {
    seq(|g|, i requires 0 <= i < |g| => g[i].weeksOnChart)
  }

  /** The peak column with every value that is not strictly positive
      treated as missing. */
  function PositivePeaks(g: seq<Song>): seq<Option<int>>
  {
    seq(|g|, i requires 0 <= i < |g| =>
      if g[i].peakPosition.Some? && g[i].peakPosition.value > 0 then g[i].peakPosition else None)
  }

  function FirstColumn(g: seq<Song>): seq<Option<Date>>
  {
    seq(|g|, i requires 0 <= i < |g| => g[i].firstCharted)
  }

  function LastColumn(g: seq<Song>): seq<Option<Date>>
  {
    seq(|g|, i requires 0 <= i < |g| => g[i].lastCharted)
  }

  /** Whether some row of the group is on the chart. */
  function AnyOnBillboard(g: seq<Song>): (b: bool)
    ensures b <==> exists s :: s in g && s.onBillboard != 0
  {
    if g == [] then false
    else
      assert forall s :: s in g <==> s == g[0] || s in g[1..];
      g[0].onBillboard != 0 || AnyOnBillboard(g[1..])
  }

  predicate PositivePeak(s: Song)
  {
    s.peakPosition.Some? && s.peakPosition.value > 0
  }

  /** One group collapsed into one row: the first row, with the chart
      columns replaced by the group's aggregates (stated by
      `MergeGroupAggregates`). */
  function MergeGroup(g: seq<Song>): (merged: Song)
    requires |g| > 0
    ensures merged.uri == g[0].uri && merged.fields == g[0].fields
    ensures merged.onBillboard == 0 || merged.onBillboard == 1
    ensures merged.peakPosition.Some? ==> merged.peakPosition.value > 0
  {
    var peak := MinPresent(PositivePeaks(g));
    PeakFacts(g, peak);
    g[0].(onBillboard := if AnyOnBillboard(g) then 1 else 0,
          weeksOnChart := Sum(WeeksColumn(g)),
          peakPosition := peak,
          firstCharted := MinPresent(FirstColumn(g)),
          lastCharted := MaxPresent(LastColumn(g)))
  }

  /** The chart columns of a collapsed group: the presence flag is the OR
      of the group's flags, the weeks their sum, the peak the least strictly
      positive peak (missing when there is none), and the two dates the
      earliest and the latest present dates (missing when none is present). */
  lemma MergeGroupAggregates(g: seq<Song>)
    requires |g| > 0
    ensures var merged := MergeGroup(g);
      && merged.onBillboard == (if exists s :: s in g && s.onBillboard != 0 then 1 else 0)
      && merged.weeksOnChart == Sum(WeeksColumn(g))
      && (merged.peakPosition.None? <==> forall s :: s in g ==> !PositivePeak(s))
      && (merged.peakPosition.Some? ==>
        merged.peakPosition.value > 0 &&
        (exists s :: s in g && s.peakPosition == merged.peakPosition) &&
        forall s :: s in g && PositivePeak(s) ==> merged.peakPosition.value <= s.peakPosition.value)
      && (merged.firstCharted.None? <==> forall s :: s in g ==> s.firstCharted.None?)
      && (merged.firstCharted.Some? ==>
        (exists s :: s in g && s.firstCharted == merged.firstCharted) &&
        forall s :: s in g && s.firstCharted.Some? ==> merged.firstCharted.value <= s.firstCharted.value)
      && (merged.lastCharted.None? <==> forall s :: s in g ==> s.lastCharted.None?)
      && (merged.lastCharted.Some? ==>
        (exists s :: s in g && s.lastCharted == merged.lastCharted) &&
        forall s :: s in g && s.lastCharted.Some? ==> s.lastCharted.value <= merged.lastCharted.value)
  {
    PeakFacts(g, MinPresent(PositivePeaks(g)));
    FirstFacts(g, MinPresent(FirstColumn(g)));
    LastFacts(g, MaxPresent(LastColumn(g)));
  }

  lemma PeakFacts(g: seq<Song>, peak: Option<int>)
    requires peak == MinPresent(PositivePeaks(g))
    ensures peak.None? <==> forall s :: s in g ==> !PositivePeak(s)
    ensures peak.Some? ==>
      peak.value > 0 &&
      (exists s :: s in g && s.peakPosition == peak) &&
      forall s :: s in g && PositivePeak(s) ==> peak.value <= s.peakPosition.value
  {
    var col := PositivePeaks(g);
    assert forall i :: 0 <= i < |g| ==> (col[i].Some? <==> PositivePeak(g[i]));
    assert forall i :: 0 <= i < |g| && col[i].Some? ==> col[i] == g[i].peakPosition;
    if peak.Some? {
      var i :| 0 <= i < |col| && col[i] == Some(peak.value);
      assert g[i] in g && g[i].peakPosition == peak;
      forall s | s in g && PositivePeak(s) ensures peak.value <= s.peakPosition.value {
        var j :| 0 <= j < |g| && g[j] == s;
        assert col[j].Some?;
      }
    } else {
      forall s | s in g ensures !PositivePeak(s) {
        var j :| 0 <= j < |g| && g[j] == s;
        assert col[j].None?;
      }
    }
  }

  lemma FirstFacts(g: seq<Song>, first: Option<Date>)
    requires first == MinPresent(FirstColumn(g))
    ensures first.None? <==> forall s :: s in g ==> s.firstCharted.None?
    ensures first.Some? ==>
      (exists s :: s in g && s.firstCharted == first) &&
      forall s :: s in g && s.firstCharted.Some? ==> first.value <= s.firstCharted.value
  {
    var col := FirstColumn(g);
    if first.Some? {
      var i :| 0 <= i < |col| && col[i] == Some(first.value);
      assert g[i] in g && g[i].firstCharted == first;
      forall s | s in g && s.firstCharted.Some? ensures first.value <= s.firstCharted.value {
        var j :| 0 <= j < |g| && g[j] == s;
        assert col[j].Some?;
      }
    } else {
      forall s | s in g ensures s.firstCharted.None? {
        var j :| 0 <= j < |g| && g[j] == s;
        assert col[j].None?;
      }
    }
  }

  lemma LastFacts(g: seq<Song>, last: Option<Date>)
    requires last == MaxPresent(LastColumn(g))
    ensures last.None? <==> forall s :: s in g ==> s.lastCharted.None?
    ensures last.Some? ==>
      (exists s :: s in g && s.lastCharted == last) &&
      forall s :: s in g && s.lastCharted.Some? ==> s.lastCharted.value <= last.value
  {
    var col := LastColumn(g);
    if last.Some? {
      var i :| 0 <= i < |col| && col[i] == Some(last.value);
      assert g[i] in g && g[i].lastCharted == last;
      forall s | s in g && s.lastCharted.Some? ensures s.lastCharted.value <= last.value {
        var j :| 0 <= j < |g| && g[j] == s;
        assert col[j].Some?;
      }
    } else {
      forall s | s in g ensures s.lastCharted.None? {
        var j :| 0 <= j < |g| && g[j] == s;
        assert col[j].None?;
      }
    }
  }

  // ---------------------------------------------------------------------------
  // Grouping by uri and the final clean-up

  /** Every key of `SortedUris` has a non-empty group. */
  lemma SortedUrisHaveGroups(rows: seq<Song>)
    ensures forall k :: 0 <= k < |SortedUris(rows)| ==> |Group(rows, SortedUris(rows)[k])| > 0
  {
    var us := SortedUris(rows);
    forall k | 0 <= k < |us| ensures |Group(rows, us[k])| > 0 {
      assert us[k] in us;
      assert us[k] in UriSet(rows);
      var r :| r in rows && r.uri == us[k];
      assert r in Group(rows, us[k]);
    }
  }

  /** The sorted keys are the distinct uris, each once. */
  lemma SortedUrisCount(rows: seq<Song>)
    ensures Elements(SortedUris(rows)) == UriSet(rows)
    ensures |SortedUris(rows)| == |UriSet(rows)|
  {
    var us := SortedUris(rows);
    SortedCardinality(us);
    assert Elements(us) == UriSet(rows);
  }

  lemma UrisOfKeys(out: seq<Song>, us: seq<string>)
    requires |out| == |us|
    requires forall k :: 0 <= k < |us| ==> out[k].uri == us[k]
    ensures UriSet(out) == Elements(us)
  {
    forall x ensures x in UriSet(out) <==> x in us {
      if x in UriSet(out) {
        var r :| r in out && r.uri == x;
        var k :| 0 <= k < |out| && out[k] == r;
        assert us[k] == x;
      }
      if x in us {
        var k :| 0 <= k < |us| && us[k] == x;
        assert out[k] in out;
      }
    }
  }

  /** The collapse of the group of each key in `us`, in the order of `us`. */
  function MergeEach(rows: seq<Song>, us: seq<string>): (out: seq<Song>)
    requires forall k :: 0 <= k < |us| ==> |Group(rows, us[k])| > 0
    ensures |out| == |us|
    ensures forall k :: 0 <= k < |us| ==> out[k].uri == us[k] && out[k] == MergeGroup(Group(rows, us[k]))
    ensures UriSet(out) == Elements(us)
  {
    var out := seq(|us|, k requires 0 <= k < |us| => MergeGroup(Group(rows, us[k])));
    assert forall k :: 0 <= k < |us| ==> out[k].uri == us[k] by {
      forall k | 0 <= k < |us| ensures out[k].uri == us[k] {
        var g := Group(rows, us[k]);
        assert g[0] in g;
      }
    }
    UrisOfKeys(out, us);
    out
  }

  /** One row per distinct uri, in ascending uri order, each the collapse of
      that uri's group. */
  function GroupByUri(rows: seq<Song>): (out: seq<Song>)
    ensures |out| == |UriSet(rows)|
    ensures forall i, j :: 0 <= i < j < |out| ==> Less(out[i].uri, out[j].uri)
    ensures UriSet(out) == UriSet(rows)
    ensures forall k :: 0 <= k < |out| ==>
      |Group(rows, out[k].uri)| > 0 && out[k] == MergeGroup(Group(rows, out[k].uri))
    ensures forall k :: 0 <= k < |out| ==>
      (out[k].onBillboard == 0 || out[k].onBillboard == 1) &&
      (out[k].peakPosition.Some? ==> out[k].peakPosition.value > 0)
  {
    var us := SortedUris(rows);
    SortedUrisCount(rows);
    SortedUrisHaveGroups(rows);
    var out := MergeEach(rows, us);
    out
  }

  /** The final clean-up: a missing peak position becomes 0. */
  function Finalize(s: Song): MergedSong
  {
    MergedSong(s.uri, s.fields, s.onBillboard, s.weeksOnChart,
               if s.peakPosition.Some? then s.peakPosition.value else 0,
               s.firstCharted, s.lastCharted)
  }

  /** The shape every merged table has: strictly ascending uris (so one row
      per uri), a 0/1 presence flag and a peak position that is never
      negative. */
  predicate IsMergedTable(out: seq<MergedSong>)
  {
    (forall i, j :: 0 <= i < j < |out| ==> Less(out[i].uri, out[j].uri)) &&
    (forall k :: 0 <= k < |out| ==> (out[k].onBillboard == 0 || out[k].onBillboard == 1) && out[k].peakPosition >= 0)
  }

  /** Coercing the dates keeps the uris. */
  lemma CoercedUris(all: seq<CsvRow>)
    ensures UriSet(CoerceDates(all)) == UriSet(all)
  {
    var songs := CoerceDates(all);
    forall u ensures u in UriSet(songs) <==> u in UriSet(all) {
      if u in UriSet(all) {
        var r :| r in all && r.uri == u;
        var i :| 0 <= i < |all| && all[i] == r;
        assert songs[i] in songs;
      }
      if u in UriSet(songs) {
        var r :| r in songs && r.uri == u;
        var i :| 0 <= i < |songs| && songs[i] == r;
        assert all[i] in all;
      }
    }
  }

  function MergedUris(out: seq<MergedSong>): set<string>
  {
    set r | r in out :: r.uri
  }

  /** Every collapsed row cleaned up, in order. */
  function FinalizeEach(merged: seq<Song>): (out: seq<MergedSong>)
    requires forall i, j :: 0 <= i < j < |merged| ==> Less(merged[i].uri, merged[j].uri)
    requires forall k :: 0 <= k < |merged| ==>
      (merged[k].onBillboard == 0 || merged[k].onBillboard == 1) &&
      (merged[k].peakPosition.Some? ==> merged[k].peakPosition.value > 0)
    ensures IsMergedTable(out)
    ensures |out| == |merged|
    ensures forall k :: 0 <= k < |out| ==> out[k].uri == merged[k].uri && out[k] == Finalize(merged[k])
    ensures MergedUris(out) == UriSet(merged)
  {
    var out := seq(|merged|, k requires 0 <= k < |merged| => Finalize(merged[k]));
    forall x ensures x in MergedUris(out) <==> x in UriSet(merged) {
      if x in MergedUris(out) {
        var r :| r in out && r.uri == x;
        var k :| 0 <= k < |out| && out[k] == r;
        assert merged[k] in merged;
      }
      if x in UriSet(merged) {
        var r :| r in merged && r.uri == x;
        var k :| 0 <= k < |merged| && merged[k] == r;
        assert out[k] in out;
      }
    }
    out
  }

  /** The whole reconciliation of the concatenated rows. */
  function MergeRows(all: seq<CsvRow>): (out: seq<MergedSong>)
    ensures IsMergedTable(out)
    ensures |out| == |UriSet(all)|
    ensures MergedUris(out) == UriSet(all)
  {
    var songs := CoerceDates(all);
    var merged := GroupByUri(songs);
    CoercedUris(all);
    var out := FinalizeEach(merged);
    out
  }

  /** The enriched tables, in the order they are read, merged into one.
      With no table at all there is nothing to concatenate and the script
      stops with an error (None); otherwise the result is the merge of the
      concatenation, even when every table is empty. */
  function MergeTables(tables: seq<seq<CsvRow>>): (out: Option<seq<MergedSong>>)
    ensures out.None? <==> tables == []
    ensures out.Some? ==> IsMergedTable(out.value)
    ensures out.Some? ==> |out.value| == |UriSet(Concat(tables))|
    ensures out.Some? ==> MergedUris(out.value) == UriSet(Concat(tables))
  {
    if tables == [] then None else Some(MergeRows(Concat(tables)))
  }

  // ---------------------------------------------------------------------------
  // The merged row of one uri, column by column

  /** Rows of the concatenation and members of a group correspond. */
  lemma GroupMembers(all: seq<CsvRow>, u: string)
    ensures forall i :: 0 <= i < |all| && all[i].uri == u ==> CoerceRow(all[i]) in Group(CoerceDates(all), u)
    ensures forall s :: s in Group(CoerceDates(all), u) ==> exists i :: 0 <= i < |all| && all[i].uri == u && s == CoerceRow(all[i])
  {
    var songs := CoerceDates(all);
    forall i | 0 <= i < |all| && all[i].uri == u ensures CoerceRow(all[i]) in Group(songs, u) {
      assert songs[i] in songs;
    }
  }

  /** The merged row of the `k`-th uri is the collapse of that uri's group. */
  lemma MergedRowIsGroup(all: seq<CsvRow>, k: nat)
    requires k < |MergeRows(all)|
    ensures var songs := CoerceDates(all); var u := MergeRows(all)[k].uri;
      |Group(songs, u)| > 0 && MergeRows(all)[k] == Finalize(MergeGroup(Group(songs, u)))
  {
  }

  /** Every column other than the chart columns comes from the first row of
      the uri in concatenation order. */
  lemma MergedRowCopiesFirst(all: seq<CsvRow>, k: nat)
    requires k < |MergeRows(all)|
    ensures var row := MergeRows(all)[k];
      exists i :: 0 <= i < |all| && all[i].uri == row.uri && all[i].fields == row.fields &&
        forall j :: 0 <= j < i ==> all[j].uri != row.uri
  {
    var row := MergeRows(all)[k];
    var songs := CoerceDates(all);
    MergedRowIsGroup(all, k);
    var g := Group(songs, row.uri);
    GroupFirst(songs, row.uri);
    var i :| 0 <= i < |songs| && songs[i] == g[0] && forall j :: 0 <= j < i ==> songs[j].uri != row.uri;
    assert all[i].fields == row.fields;
    assert forall j :: 0 <= j < i ==> all[j].uri != row.uri by {
      forall j | 0 <= j < i ensures all[j].uri != row.uri {
        assert songs[j].uri == all[j].uri;
      }
    }
  }

  /** The presence flag is 1 exactly when some row of the uri is on the chart. */
  lemma MergedOnBillboard(all: seq<CsvRow>, k: nat)
    requires k < |MergeRows(all)|
    ensures var row := MergeRows(all)[k];
      row.onBillboard == (if exists i :: 0 <= i < |all| && all[i].uri == row.uri && all[i].onBillboard != 0 then 1 else 0)
  {
    var row := MergeRows(all)[k];
    MergedRowIsGroup(all, k);
    GroupMembers(all, row.uri);
    var g := Group(CoerceDates(all), row.uri);
    MergeGroupAggregates(g);
    if exists i :: 0 <= i < |all| && all[i].uri == row.uri && all[i].onBillboard != 0 {
      var i :| 0 <= i < |all| && all[i].uri == row.uri && all[i].onBillboard != 0;
      assert CoerceRow(all[i]) in g;
    }
  }

  /** The weeks of the rows with uri `u`, in row order. */
  function UriWeeks(all: seq<CsvRow>, u: string): seq<int>
  {
    if all == [] then []
    else (if all[0].uri == u then [all[0].weeksOnChart] else []) + UriWeeks(all[1..], u)
  }

  lemma {:induction false} UriWeeksOfGroup(all: seq<CsvRow>, u: string)
    ensures WeeksColumn(Group(CoerceDates(all), u)) == UriWeeks(all, u)
  {
    if all != [] {
      UriWeeksOfGroup(all[1..], u);
      GroupWeeksStep(all, u);
    }
  }

  lemma GroupWeeksStep(all: seq<CsvRow>, u: string)
    requires all != []
    ensures WeeksColumn(Group(CoerceDates(all), u)) ==
      (if all[0].uri == u then [all[0].weeksOnChart] else []) + WeeksColumn(Group(CoerceDates(all[1..]), u))
  {
    var songs := CoerceDates(all);
    assert songs[1..] == CoerceDates(all[1..]);
    assert songs[0] == CoerceRow(all[0]);
    GroupStep(songs, u);
    var head := if songs[0].uri == u then [songs[0]] else [];
    WeeksColumnAppend(head, Group(songs[1..], u));
    assert WeeksColumn(head) == (if all[0].uri == u then [all[0].weeksOnChart] else []);
  }

  lemma GroupStep(rows: seq<Song>, u: string)
    requires rows != []
    ensures Group(rows, u) == (if rows[0].uri == u then [rows[0]] else []) + Group(rows[1..], u)
  {
  }

  lemma WeeksColumnAppend(x: seq<Song>, y: seq<Song>)
    ensures WeeksColumn(x + y) == WeeksColumn(x) + WeeksColumn(y)
  {
    assert forall i :: 0 <= i < |x| ==> (x + y)[i] == x[i];
    assert forall i :: |x| <= i < |x| + |y| ==> (x + y)[i] == y[i - |x|];
  }

  /** The weeks on chart of a merged row are the sum of its uri's weeks. */
  lemma MergedWeeks(all: seq<CsvRow>, k: nat)
    requires k < |MergeRows(all)|
    ensures var row := MergeRows(all)[k];
      row.weeksOnChart == Sum(UriWeeks(all, row.uri))
  {
    MergedRowIsGroup(all, k);
    MergeGroupAggregates(Group(CoerceDates(all), MergeRows(all)[k].uri));
    UriWeeksOfGroup(all, MergeRows(all)[k].uri);
  }

  /** The weeks of a uri in two tables read one after the other add up. */
  lemma {:induction false} WeeksAdditive(a: seq<CsvRow>, b: seq<CsvRow>, u: string)
    ensures Sum(UriWeeks(a + b, u)) == Sum(UriWeeks(a, u)) + Sum(UriWeeks(b, u))
  {
    UriWeeksAppend(a, b, u);
    SumAppend(UriWeeks(a, u), UriWeeks(b, u));
  }

  lemma {:induction false} UriWeeksAppend(a: seq<CsvRow>, b: seq<CsvRow>, u: string)
    ensures UriWeeks(a + b, u) == UriWeeks(a, u) + UriWeeks(b, u)
  {
    if a == [] {
      assert a + b == b;
    } else {
      var head := if a[0].uri == u then [a[0].weeksOnChart] else [];
      assert (a + b)[0] == a[0] && (a + b)[1..] == a[1..] + b;
      UriWeeksAppend(a[1..], b, u);
      assert UriWeeks(a + b, u) == head + UriWeeks(a[1..] + b, u);
      assert UriWeeks(a, u) == head + UriWeeks(a[1..], u);
      assert head + (UriWeeks(a[1..], u) + UriWeeks(b, u)) == (head + UriWeeks(a[1..], u)) + UriWeeks(b, u);
    }
  }

  predicate PositivePeakCell(r: CsvRow)
  {
    r.peakPosition.Some? && r.peakPosition.value > 0
  }

  /** The peak position is the least strictly positive peak of the uri's
      rows, or 0 when it has none. */
  lemma MergedPeak(all: seq<CsvRow>, k: nat)
    requires k < |MergeRows(all)|
    ensures var row := MergeRows(all)[k];
      row.peakPosition >= 0 &&
      (row.peakPosition == 0 <==> forall i :: 0 <= i < |all| && all[i].uri == row.uri ==> !PositivePeakCell(all[i])) &&
      (row.peakPosition > 0 ==>
        (exists i :: 0 <= i < |all| && all[i].uri == row.uri && all[i].peakPosition == Some(row.peakPosition)) &&
        forall i :: 0 <= i < |all| && all[i].uri == row.uri && PositivePeakCell(all[i]) ==> row.peakPosition <= all[i].peakPosition.value)
  {
    var row := MergeRows(all)[k];
    MergedRowIsGroup(all, k);
    GroupMembers(all, row.uri);
    var g := Group(CoerceDates(all), row.uri);
    MergeGroupAggregates(g);
    var m := MergeGroup(g);
    forall i | 0 <= i < |all| && all[i].uri == row.uri ensures PositivePeakCell(all[i]) <==> PositivePeak(CoerceRow(all[i])) {
    }
    if m.peakPosition.Some? {
      var s :| s in g && s.peakPosition == m.peakPosition;
      var i :| 0 <= i < |all| && all[i].uri == row.uri && s == CoerceRow(all[i]);
      assert all[i].peakPosition == Some(row.peakPosition);
    } else {
      forall i | 0 <= i < |all| && all[i].uri == row.uri ensures !PositivePeakCell(all[i]) {
        assert CoerceRow(all[i]) in g;
      }
    }
  }

  /** The first-charted date is the earliest readable first date of the
      uri's rows, missing when none is readable. */
  lemma MergedFirstCharted(all: seq<CsvRow>, k: nat)
    requires k < |MergeRows(all)|
    ensures var row := MergeRows(all)[k];
      (row.firstCharted.None? <==> forall i :: 0 <= i < |all| && all[i].uri == row.uri ==> !all[i].firstCharted.Written?) &&
      (row.firstCharted.Some? ==>
        (exists i :: 0 <= i < |all| && all[i].uri == row.uri && all[i].firstCharted == Written(row.firstCharted.value)) &&
        forall i :: 0 <= i < |all| && all[i].uri == row.uri && all[i].firstCharted.Written? ==> row.firstCharted.value <= all[i].firstCharted.day)
  {
    var row := MergeRows(all)[k];
    MergedRowIsGroup(all, k);
    GroupMembers(all, row.uri);
    var g := Group(CoerceDates(all), row.uri);
    MergeGroupAggregates(g);
    if row.firstCharted.Some? {
      var s :| s in g && s.firstCharted == row.firstCharted;
      var i :| 0 <= i < |all| && all[i].uri == row.uri && s == CoerceRow(all[i]);
      assert all[i].firstCharted == Written(row.firstCharted.value);
      forall i | 0 <= i < |all| && all[i].uri == row.uri && all[i].firstCharted.Written?
        ensures row.firstCharted.value <= all[i].firstCharted.day
      {
        assert CoerceRow(all[i]) in g;
      }
    } else {
      forall i | 0 <= i < |all| && all[i].uri == row.uri ensures !all[i].firstCharted.Written? {
        assert CoerceRow(all[i]) in g;
      }
    }
  }

  /** The last-charted date is the latest readable last date of the uri's
      rows, missing when none is readable. */
  lemma MergedLastCharted(all: seq<CsvRow>, k: nat)
    requires k < |MergeRows(all)|
    ensures var row := MergeRows(all)[k];
      (row.lastCharted.None? <==> forall i :: 0 <= i < |all| && all[i].uri == row.uri ==> !all[i].lastCharted.Written?) &&
      (row.lastCharted.Some? ==>
        (exists i :: 0 <= i < |all| && all[i].uri == row.uri && all[i].lastCharted == Written(row.lastCharted.value)) &&
        forall i :: 0 <= i < |all| && all[i].uri == row.uri && all[i].lastCharted.Written? ==> all[i].lastCharted.day <= row.lastCharted.value)
  {
    var row := MergeRows(all)[k];
    MergedRowIsGroup(all, k);
    GroupMembers(all, row.uri);
    var g := Group(CoerceDates(all), row.uri);
    MergeGroupAggregates(g);
    if row.lastCharted.Some? {
      var s :| s in g && s.lastCharted == row.lastCharted;
      var i :| 0 <= i < |all| && all[i].uri == row.uri && s == CoerceRow(all[i]);
      assert all[i].lastCharted == Written(row.lastCharted.value);
      forall i | 0 <= i < |all| && all[i].uri == row.uri && all[i].lastCharted.Written?
        ensures all[i].lastCharted.day <= row.lastCharted.value
      {
        assert CoerceRow(all[i]) in g;
      }
    } else {
      forall i | 0 <= i < |all| && all[i].uri == row.uri ensures !all[i].lastCharted.Written? {
        assert CoerceRow(all[i]) in g;
      }
    }
  }

  // ---------------------------------------------------------------------------
  // Collapsing singleton groups, and merging a merged table again

  /** A group of one row collapses to that row, a missing peak becoming 0. */
  lemma SingletonGroup(s: Song)
    requires s.onBillboard == 0 || s.onBillboard == 1
    requires s.peakPosition.Some? ==> s.peakPosition.value >= 0
    ensures Finalize(MergeGroup([s])) ==
      MergedSong(s.uri, s.fields, s.onBillboard, s.weeksOnChart,
                 if s.peakPosition.Some? then s.peakPosition.value else 0,
                 s.firstCharted, s.lastCharted)
  {
    MergeGroupAggregates([s]);
    assert WeeksColumn([s]) == [s.weeksOnChart];
    assert Sum([s.weeksOnChart]) == s.weeksOnChart + Sum([]);
  }

  /** A date written back to a table: empty when missing. */
  function DateCellOf(d: Option<Date>): (c: DateCell)
    ensures CoerceDate(c) == d
  {
    if d.Some? then Written(d.value) else Blank
  }

  /** A merged table written out and read back as an enriched table. */
  function Reread(out: seq<MergedSong>): (rows: seq<CsvRow>)
    ensures |rows| == |out|
    ensures forall i :: 0 <= i < |out| ==>
      CoerceRow(rows[i]) == SongRow(out[i].uri, out[i].fields, out[i].onBillboard, out[i].weeksOnChart,
                                    Some(out[i].peakPosition), out[i].firstCharted, out[i].lastCharted)
  {
    seq(|out|, i requires 0 <= i < |out| =>
      SongRow(out[i].uri, out[i].fields, out[i].onBillboard, out[i].weeksOnChart,
              Some(out[i].peakPosition), DateCellOf(out[i].firstCharted), DateCellOf(out[i].lastCharted)))
  }

  lemma GroupAbsent(rows: seq<Song>, u: string)
    requires forall i :: 0 <= i < |rows| ==> rows[i].uri != u
    ensures Group(rows, u) == []
  {
  }

  /** With pairwise distinct uris, the group of a row's uri is that row alone. */
  lemma {:induction false} GroupOfDistinct(rows: seq<Song>, k: nat)
    requires k < |rows|
    requires forall i, j :: 0 <= i < j < |rows| ==> rows[i].uri != rows[j].uri
    ensures Group(rows, rows[k].uri) == [rows[k]]
  {
    var u := rows[k].uri;
    if k == 0 {
      assert forall i :: 0 <= i < |rows[1..]| ==> rows[1..][i].uri != u by {
        forall i | 0 <= i < |rows[1..]| ensures rows[1..][i].uri != u {
          assert rows[1..][i] == rows[i + 1];
        }
      }
      GroupAbsent(rows[1..], u);
    } else {
      assert rows[0].uri != u;
      assert rows[1..][k - 1] == rows[k];
      assert forall i, j :: 0 <= i < j < |rows[1..]| ==> rows[1..][i].uri != rows[1..][j].uri by {
        forall i, j | 0 <= i < j < |rows[1..]| ensures rows[1..][i].uri != rows[1..][j].uri {
          assert rows[1..][i] == rows[i + 1] && rows[1..][j] == rows[j + 1];
        }
      }
      GroupOfDistinct(rows[1..], k - 1);
    }
  }

  /** A merged table read back has one row per uri, in the table's order. */
  lemma RereadRows(out: seq<MergedSong>)
    requires IsMergedTable(out)
    ensures var songs := CoerceDates(Reread(out));
      && |songs| == |out|
      && (forall i :: 0 <= i < |out| ==>
            songs[i] == SongRow(out[i].uri, out[i].fields, out[i].onBillboard, out[i].weeksOnChart,
                                Some(out[i].peakPosition), out[i].firstCharted, out[i].lastCharted))
      && (forall i, j :: 0 <= i < j < |songs| ==> songs[i].uri != songs[j].uri)
  {
    var songs := CoerceDates(Reread(out));
    forall i, j | 0 <= i < j < |songs| ensures songs[i].uri != songs[j].uri {
      if songs[i].uri == songs[j].uri {
        LessIrreflexive(out[i].uri);
      }
    }
  }

  lemma SameElements(a: seq<string>, b: seq<string>)
    requires Elements(a) == Elements(b)
    ensures forall x :: x in a <==> x in b
  {
    forall x ensures x in a <==> x in b {
      assert x in a <==> x in Elements(a);
    }
  }

  /** The uri column. */
  function Uris(rows: seq<Song>): (us: seq<string>)
    ensures |us| == |rows|
    ensures forall i :: 0 <= i < |rows| ==> us[i] == rows[i].uri
  {
    seq(|rows|, i requires 0 <= i < |rows| => rows[i].uri)
  }

  /** Two tables with strictly ascending uris and the same uris have the
      same uri column. */
  lemma SameSortedUris(a: seq<Song>, b: seq<Song>)
    requires forall i, j :: 0 <= i < j < |a| ==> Less(a[i].uri, a[j].uri)
    requires forall i, j :: 0 <= i < j < |b| ==> Less(b[i].uri, b[j].uri)
    requires UriSet(a) == UriSet(b)
    ensures Uris(a) == Uris(b)
  {
    UrisOfKeys(a, Uris(a));
    UrisOfKeys(b, Uris(b));
    SameElements(Uris(a), Uris(b));
    SortedUnique(Uris(a), Uris(b));
  }

  /** Grouping rows whose uris already ascend keeps their uris in place. */
  lemma GroupByUriOfSorted(rows: seq<Song>)
    requires forall i, j :: 0 <= i < j < |rows| ==> Less(rows[i].uri, rows[j].uri)
    ensures |GroupByUri(rows)| == |rows|
    ensures forall k :: 0 <= k < |rows| ==> GroupByUri(rows)[k].uri == rows[k].uri
  {
    var merged := GroupByUri(rows);
    SameSortedUris(merged, rows);
    assert Uris(merged) == Uris(rows);
  }

  /** Merging a table that is already merged (as read back from its file)
      changes nothing: every uri is alone in its group, and its peak, which
      is never negative, survives the filter on positive peaks or comes back
      as the 0 it was. */
  lemma RemergeIsIdentity(out: seq<MergedSong>)
    requires IsMergedTable(out)
    ensures MergeTables([Reread(out)]) == Some(out)
  {
    var rows := Reread(out);
    assert Concat([rows]) == rows by {
      assert [rows][1..] == [];
      assert rows + [] == rows;
    }
    RemergeRows(out);
  }

  /** The rows of a merged table read back merge into that table. */
  lemma RemergeRows(out: seq<MergedSong>)
    requires IsMergedTable(out)
    ensures MergeRows(Reread(out)) == out
  {
    var rows := Reread(out);
    var songs := CoerceDates(rows);
    RereadRows(out);
    GroupByUriOfSorted(songs);
    var merged := GroupByUri(songs);
    var result := MergeRows(rows);
    assert |result| == |out|;
    forall k | 0 <= k < |out| ensures result[k] == out[k] {
      GroupOfDistinct(songs, k);
      SingletonGroup(songs[k]);
      assert result[k] == Finalize(merged[k]);
    }
  }

  // ---------------------------------------------------------------------------
  // Examples

  /** Two listings of one song, on the chart for 3 and 5 weeks with peaks 4
      and 1, merge into one row on the chart for 8 weeks with peak 1. */
  lemma TwoListingsOfOneSong(a: Song, b: Song)
    requires a.uri == b.uri
    requires a.onBillboard == 1 && a.weeksOnChart == 3 && a.peakPosition == Some(4)
    requires b.onBillboard == 1 && b.weeksOnChart == 5 && b.peakPosition == Some(1)
    ensures var row := Finalize(MergeGroup([a, b]));
      row.onBillboard == 1 && row.weeksOnChart == 8 && row.peakPosition == 1
  {
    MergeGroupAggregates([a, b]);
    assert WeeksColumn([a, b]) == [3, 5];
    assert Sum([3, 5]) == 3 + Sum([5]);
    assert Sum([5]) == 5 + Sum([]);
    assert b in [a, b];
  }

  /** Listings that never charted (no peak, or a peak of 0) merge into a row
      that is off the chart with peak 0. */
  lemma UnchartedListings(a: Song, b: Song)
    requires a.uri == b.uri
    requires a.onBillboard == 0 && a.peakPosition == None
    requires b.onBillboard == 0 && b.peakPosition == Some(0)
    ensures var row := Finalize(MergeGroup([a, b]));
      row.onBillboard == 0 && row.peakPosition == 0
  {
    MergeGroupAggregates([a, b]);
  }
}
