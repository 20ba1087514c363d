/** The enrichment join of scripts/dataset/enrich_spotify_with_billboard.py:
    every Spotify track row (after dropping rows without a track or artist
    name) is looked up by its normalised (track, artist) key among the
    Billboard chart entries grouped by normalised (title, performer), and
    gets one output row with the chart statistics of its group. */
module Enrichment {
  import opened Wrappers
  import opened Stats
  import opened Normalizer

  /** A chart week, as a day number: only its order matters here. */
  type Date = int

  /** A row of the Spotify table. `track` and `artist` may be missing
      (None); `features` stands for every other column, carried unchanged. */
  datatype SpotifyRow = SpotifyRow(track: Option<string>, artist: Option<string>, uri: string, features: seq<string>)

  /** A row of the Billboard table: one weekly chart observation. The title
      and the performer may be missing (None): nothing drops those rows. */
  datatype ChartRow = ChartRow(title: Option<string>, performer: Option<string>, chartWeek: Date, peakPos: int)

  /** A Spotify row with the track_norm and artist_norm columns added. */
  datatype KeyedTrack = KeyedTrack(row: SpotifyRow, trackNorm: string, artistNorm: string)

  /** A Billboard row with the title_norm and performer_norm columns added. */
  datatype KeyedEntry = KeyedEntry(entry: ChartRow, titleNorm: string, performerNorm: string)

  /** A normalised (title, performer) or (track, artist) pair. */
  type Key = (string, string)

  /** An output row: the keyed input row and the five chart columns. */
  datatype EnrichedRow = EnrichedRow(
    track: KeyedTrack,
    onBillboard: int,
    weeksOnChart: nat,
    peakPosition: Option<int>,
    firstCharted: Option<Date>,
    lastCharted: Option<Date>)

  predicate Complete(r: SpotifyRow)
  {
    r.track.Some? && r.artist.Some?
  }

  /** dropna(subset=["track", "artist"]): keeps, in order, exactly the rows
      that have both names. */
  function DropIncomplete(rows: seq<SpotifyRow>): (kept: seq<SpotifyRow>)
    ensures |kept| <= |rows|
    ensures forall i :: 0 <= i < |kept| ==> Complete(kept[i])
    ensures forall r :: r in kept <==> r in rows && Complete(r)
    ensures (forall i :: 0 <= i < |rows| ==> Complete(rows[i])) ==> kept == rows
  {
    if rows == [] then []
    else
      var rest := DropIncomplete(rows[1..]);
      var kept := if Complete(rows[0]) then [rows[0]] + rest else rest;
      assert forall r :: r in rows <==> r == rows[0] || r in rows[1..];
      assert forall r :: r in kept <==> (Complete(rows[0]) && r == rows[0]) || r in rest;
      assert forall i :: 0 <= i < |kept| ==> Complete(kept[i]);
      kept
  }

  /** dropna works row by row: a row is kept exactly when it is complete ... */
  lemma DropIncompleteSingle(r: SpotifyRow)
    ensures DropIncomplete([r]) == if Complete(r) then [r] else []
  {
    assert [r][1..] == [];
  }

  /** ... and the rows kept from two tables read in turn are the rows kept
      from the first followed by those kept from the second, so the kept
      rows keep their order and their repetitions. */
  lemma {:induction false} DropIncompleteAppend(x: seq<SpotifyRow>, y: seq<SpotifyRow>)
    ensures DropIncomplete(x + y) == DropIncomplete(x) + DropIncomplete(y)
  {
    if x == [] {
      assert x + y == y;
    } else {
      assert (x + y)[0] == x[0] && (x + y)[1..] == x[1..] + y;
      DropIncompleteAppend(x[1..], y);
    }
  }

  /** The track_norm and artist_norm columns (lines 25-26). The normaliser
      is a parameter, so that the join is reasoned about independently of
      it; `EnrichTable` passes `Normalize`. */
  function KeyTracks(rows: seq<SpotifyRow>, norm: string -> string): (keyed: seq<KeyedTrack>)
    requires forall i :: 0 <= i < |rows| ==> Complete(rows[i])
    ensures |keyed| == |rows|
    ensures forall i :: 0 <= i < |rows| ==>
      Complete(rows[i]) &&
      keyed[i].row == rows[i] &&
      keyed[i].trackNorm == norm(rows[i].track.value) &&
      keyed[i].artistNorm == norm(rows[i].artist.value)
  {
    seq(|rows|, i requires 0 <= i < |rows| && Complete(rows[i]) =>
      KeyedTrack(rows[i], norm(rows[i].track.value), norm(rows[i].artist.value)))
  }

  /** What str() makes of a cell before normalising it: the text itself,
      or "nan" for a missing cell. */
  function CellText(c: Option<string>): (t: string)
    ensures c.Some? ==> t == c.value
    ensures c.None? ==> t == "nan"
  {
    if c.Some? then c.value else "nan"
  }

  /** The title_norm and performer_norm columns (lines 28-29). A missing
      title or performer is normalised as the text "nan". */
  function KeyEntries(rows: seq<ChartRow>, norm: string -> string): (keyed: seq<KeyedEntry>)
    ensures |keyed| == |rows|
    ensures forall i :: 0 <= i < |rows| ==>
      keyed[i].entry == rows[i] &&
      keyed[i].titleNorm == norm(CellText(rows[i].title)) &&
      keyed[i].performerNorm == norm(CellText(rows[i].performer))
  {
    seq(|rows|, i requires 0 <= i < |rows| =>
      KeyedEntry(rows[i], norm(CellText(rows[i].title)), norm(CellText(rows[i].performer))))
  }

  function TrackKey(t: KeyedTrack): Key
  {
    (t.trackNorm, t.artistNorm)
  }

  function EntryKey(e: KeyedEntry): Key
  {
    (e.titleNorm, e.performerNorm)
  }

  /** The positions of the chart entries whose key is `k`. */
  function MatchingPositions(chart: seq<KeyedEntry>, k: Key): set<nat>
  {
    set i: nat | i < |chart| && EntryKey(chart[i]) == k
  }

  /** The chart entries whose key is `k`, in chart order: the group that
      get_group returns. */
  function Matches(chart: seq<KeyedEntry>, k: Key): (m: seq<KeyedEntry>)
    ensures forall e :: e in m <==> e in chart && EntryKey(e) == k
  {
    if chart == [] then []
    else
      var n := |chart| - 1;
      var init, last := chart[..n], chart[n];
      var m0 := Matches(init, k);
      assert chart == init + [last];
      assert forall e :: e in chart <==> e in init || e == last;
      if EntryKey(last) == k then m0 + [last] else m0
  }

  /** The size of a group is the number of chart rows with its key. */
  lemma {:induction false} MatchCount(chart: seq<KeyedEntry>, k: Key)
    ensures |Matches(chart, k)| == |MatchingPositions(chart, k)|
  {
    if chart == [] {
      assert MatchingPositions(chart, k) == {};
    } else {
      var n := |chart| - 1;
      MatchCount(chart[..n], k);
      PositionsStep(chart, k);
    }
  }

  /** Adding a chart row adds its position when its key is `k`. */
  lemma PositionsStep(chart: seq<KeyedEntry>, k: Key)
    requires chart != []
    ensures var n := |chart| - 1;
      && n !in MatchingPositions(chart[..n], k)
      && MatchingPositions(chart, k) ==
           MatchingPositions(chart[..n], k) + (if EntryKey(chart[n]) == k then {n} else {})
  {
    var n := |chart| - 1;
    var init := chart[..n];
    var before, after := MatchingPositions(init, k), MatchingPositions(chart, k);
    var added: set<nat> := if EntryKey(chart[n]) == k then {n} else {};
    forall i | i in after ensures i in before + added {
      if i < n { assert chart[i] == init[i]; }
    }
    forall i | i in before + added ensures i in after {
      if i < n { assert chart[i] == init[i]; }
    }
  }

  /** groupby(["title_norm", "performer_norm"]) (line 32): a map from every
      key that occurs in the chart to its group. */
  function GroupIndex(chart: seq<KeyedEntry>): (g: map<Key, seq<KeyedEntry>>)
    ensures forall k :: k in g <==> Matches(chart, k) != []
    ensures forall k :: k in g ==> g[k] == Matches(chart, k)
  {
    if chart == [] then map[]
    else
      var n := |chart| - 1;
      var g0 := GroupIndex(chart[..n]);
      var k := EntryKey(chart[n]);
      g0[k := (if k in g0 then g0[k] else []) + [chart[n]]]
  }

  function Peaks(m: seq<KeyedEntry>): seq<int>
  {
    seq(|m|, i requires 0 <= i < |m| => m[i].entry.peakPos)
  }

  function Weeks(m: seq<KeyedEntry>): seq<Date>
  {
    seq(|m|, i requires 0 <= i < |m| => m[i].entry.chartWeek)
  }

  /** The output row the loop appends for one keyed track (lines 42-66):
      the group of the track's key decides between the matched and the
      unmatched row. What the row means is stated by EnrichRowStatistics. */
  function EnrichRow(t: KeyedTrack, chart: seq<KeyedEntry>): (e: EnrichedRow)
    ensures e.track == t
  {
    var m := Matches(chart, TrackKey(t));
    if m == [] then
      EnrichedRow(t, 0, 0, None, None, None)
    else
      EnrichedRow(t, 1, |m|, Some(Min(Peaks(m))), Some(Min(Weeks(m))), Some(Max(Weeks(m))))
  }

  /** An output row is flagged exactly when some chart entry has the track's
      key; it counts the entries with that key, and carries the best peak and
      the first and last chart weeks among them, each a value of one of those
      entries; an unmatched row is 0 / 0 / None / None / None. */
  lemma EnrichRowStatistics(t: KeyedTrack, chart: seq<KeyedEntry>)
    ensures var e := EnrichRow(t, chart);
      (e.onBillboard == 0 || e.onBillboard == 1) &&
      (e.onBillboard == 1 <==> exists c :: c in chart && EntryKey(c) == TrackKey(t)) &&
      e.weeksOnChart == |MatchingPositions(chart, TrackKey(t))| &&
      (e.onBillboard == 0 ==>
        e.weeksOnChart == 0 && e.peakPosition == None && e.firstCharted == None && e.lastCharted == None) &&
      (e.onBillboard == 1 ==>
        e.peakPosition.Some? && e.firstCharted.Some? && e.lastCharted.Some? &&
        e.firstCharted.value <= e.lastCharted.value)
    ensures var e := EnrichRow(t, chart);
      e.peakPosition.Some? ==>
        (exists c :: c in chart && EntryKey(c) == TrackKey(t) && c.entry.peakPos == e.peakPosition.value) &&
        (forall c :: c in chart && EntryKey(c) == TrackKey(t) ==> e.peakPosition.value <= c.entry.peakPos)
    ensures var e := EnrichRow(t, chart);
      e.firstCharted.Some? ==>
        (exists c :: c in chart && EntryKey(c) == TrackKey(t) && c.entry.chartWeek == e.firstCharted.value) &&
        (forall c :: c in chart && EntryKey(c) == TrackKey(t) ==> e.firstCharted.value <= c.entry.chartWeek)
    ensures var e := EnrichRow(t, chart);
      e.lastCharted.Some? ==>
        (exists c :: c in chart && EntryKey(c) == TrackKey(t) && c.entry.chartWeek == e.lastCharted.value) &&
        (forall c :: c in chart && EntryKey(c) == TrackKey(t) ==> c.entry.chartWeek <= e.lastCharted.value)
  {
    var m := Matches(chart, TrackKey(t));
    MatchCount(chart, TrackKey(t));
    if m != [] {
      GroupStatistics(m);
    } else {
      assert MatchingPositions(chart, TrackKey(t)) == {};
    }
  }

  /** The minimum and maximum of a group's columns are values of its entries
      and bound every entry. */
  lemma GroupStatistics(m: seq<KeyedEntry>)
    requires |m| > 0
    ensures exists c :: c in m && c.entry.peakPos == Min(Peaks(m))
    ensures forall c :: c in m ==> Min(Peaks(m)) <= c.entry.peakPos
    ensures exists c :: c in m && c.entry.chartWeek == Min(Weeks(m))
    ensures forall c :: c in m ==> Min(Weeks(m)) <= c.entry.chartWeek
    ensures exists c :: c in m && c.entry.chartWeek == Max(Weeks(m))
    ensures forall c :: c in m ==> c.entry.chartWeek <= Max(Weeks(m))
  {
    var p, f, l := Min(Peaks(m)), Min(Weeks(m)), Max(Weeks(m));
    var i :| 0 <= i < |m| && Peaks(m)[i] == p;
    assert m[i] in m;
    var j :| 0 <= j < |m| && Weeks(m)[j] == f;
    assert m[j] in m;
    var h :| 0 <= h < |m| && Weeks(m)[h] == l;
    assert m[h] in m;
    forall c | c in m
      ensures p <= c.entry.peakPos && f <= c.entry.chartWeek && c.entry.chartWeek <= l
    {
      var x :| 0 <= x < |m| && m[x] == c;
      assert Peaks(m)[x] == c.entry.peakPos && Weeks(m)[x] == c.entry.chartWeek;
    }
  }

  /** The enriched table: one row per keyed track, in order. */
  function EnrichAll(tracks: seq<KeyedTrack>, chart: seq<KeyedEntry>): (out: seq<EnrichedRow>)
    ensures |out| == |tracks|
    ensures forall i :: 0 <= i < |tracks| ==> out[i] == EnrichRow(tracks[i], chart)
  {
    seq(|tracks|, i requires 0 <= i < |tracks| => EnrichRow(tracks[i], chart))
  }

  /** One pass of the loop body (lines 38-66): look the track's key up in
      the grouped chart and build the matched or the unmatched row. */
  method EnrichOne(t: KeyedTrack, groups: map<Key, seq<KeyedEntry>>, ghost chart: seq<KeyedEntry>)
    returns (out: EnrichedRow)
    requires groups == GroupIndex(chart)
    ensures out == EnrichRow(t, chart)
  {
    var key := (t.trackNorm, t.artistNorm);
    var matched := if key in groups then groups[key] else [];
    assert matched == Matches(chart, TrackKey(t));
    if matched != [] {
      out := EnrichedRow(t, 1, |matched|,
                         Some(Min(Peaks(matched))), Some(Min(Weeks(matched))), Some(Max(Weeks(matched))));
    } else {
      out := EnrichedRow(t, 0, 0, None, None, None);
    }
  }

  /** The loop of lines 37-66: looks every keyed track up in the grouped
      chart and appends one output row for it. */
  method EnrichLoop(tracks: seq<KeyedTrack>, chart: seq<KeyedEntry>) returns (enriched: seq<EnrichedRow>)
    ensures |enriched| == |tracks|
    ensures forall i :: 0 <= i < |tracks| ==> enriched[i] == EnrichRow(tracks[i], chart)
  {
    var groups := GroupIndex(chart);
    enriched := [];
    for i := 0 to |tracks|
      invariant |enriched| == i
      invariant forall j :: 0 <= j < i ==> enriched[j] == EnrichRow(tracks[j], chart)
    {
      var out := EnrichOne(tracks[i], groups, chart);
      enriched := enriched + [out];
    }
  }

  /** The script from line 12 to line 66: drop the rows without names, add
      the normalised columns, and enrich every kept row, in order. */
  method EnrichTable(spotify: seq<SpotifyRow>, billboard: seq<ChartRow>) returns (enriched: seq<EnrichedRow>)
    ensures enriched == EnrichAll(KeyTracks(DropIncomplete(spotify), Normalize), KeyEntries(billboard, Normalize))
  {
    var tracks := KeyTracks(DropIncomplete(spotify), Normalize);
    var chart := KeyEntries(billboard, Normalize);
    enriched := EnrichLoop(tracks, chart);
  }

  /** Matching is exact equality of the normalised names: an entry of the
      Billboard table is in a track's group exactly when its normalised title
      and performer equal the track's normalised track and artist names. */
  lemma MatchIsNormalizedEquality(r: SpotifyRow, billboard: seq<ChartRow>, j: nat)
    requires Complete(r) && j < |billboard|
    ensures var t := KeyTracks([r], Normalize)[0];
      KeyEntries(billboard, Normalize)[j] in Matches(KeyEntries(billboard, Normalize), TrackKey(t)) <==>
      Normalize(CellText(billboard[j].title)) == Normalize(r.track.value) &&
      Normalize(CellText(billboard[j].performer)) == Normalize(r.artist.value)
  {
    var chart := KeyEntries(billboard, Normalize);
    assert chart[j] in chart;
  }

  /** A chart row whose title and performer are both missing is keyed as
      "nan" / "nan", so it lands in the group of a Spotify track called
      "Nan" by an artist called "Nan". (A Spotify cell "NaN" itself is read
      as missing by read_csv and dropped, so "Nan" is a name that reaches
      the join.) */
  lemma MissingNamesMatchNan(r: SpotifyRow, c: ChartRow)
    requires r.track == Some("Nan") && r.artist == Some("Nan")
    requires c.title.None? && c.performer.None?
    ensures var chart := KeyEntries([c], Normalize);
      chart[0] in Matches(chart, TrackKey(KeyTracks([r], Normalize)[0]))
  {
    NanKey();
    var chart := KeyEntries([c], Normalize);
    assert chart[0] in chart;
  }

  /** Three chart entries of one song with peaks
      5, 2 and 10 give three weeks and a peak of 2. */
  lemma ThreeWeeksPeakTwo(t: KeyedTrack, a: KeyedEntry, b: KeyedEntry, c: KeyedEntry)
    requires EntryKey(a) == EntryKey(b) == EntryKey(c) == TrackKey(t)
    requires a.entry.peakPos == 5 && b.entry.peakPos == 2 && c.entry.peakPos == 10
    ensures EnrichRow(t, [a, b, c]).onBillboard == 1
    ensures EnrichRow(t, [a, b, c]).weeksOnChart == 3
    ensures EnrichRow(t, [a, b, c]).peakPosition == Some(2)
  {
    var chart, k := [a, b, c], TrackKey(t);
    assert chart[..1] == [a] && [a][..0] == [] && chart[..2] == [a, b] && [a, b][..1] == [a];
    assert Matches([], k) == [];
    assert Matches([a], k) == [a];
    assert Matches([a, b], k) == [a, b];
    assert Matches(chart, k) == chart;
    assert Peaks(chart) == [5, 2, 10];
    assert Min([2, 10]) == 2;
  }
}
