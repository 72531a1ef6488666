/**
 * `get_dated_tracks` and `get_month_year`: saved tracks are grouped into a
 * year -> month -> tracks mapping keyed by fixed-offset substrings of
 * `added_at`; a bucket holds at most `MaxSongsInPlaylist` tracks and a
 * track whose bucket is full is dropped.
 *
 * The functions take the cap as a parameter; the method uses the
 * source's constant.
 */
module Bucketizer {
  import opened JsBuiltins
  import opened Spotify
  import opened MapSums

  /** `MAX_SONGS_IN_PLAYLIST`: the most tracks a playlist of the service may hold. */
  const MaxSongsInPlaylist: nat := 10000

  /** The result of `get_month_year`. */
  datatype MonthYear = MonthYear(month: JsString, year: JsString)

  /** The `dated_tracks` object: year -> month -> the stored `track.track` objects. */
  type DatedTracks = map<JsString, map<JsString, seq<Track>>>

  /**
   * `get_month_year(date)`: the year is `date.substring(0, 4)` and the month
   * `date.substring(5, 7)`; on a short string `substring` clamps, so the
   * keys are then shorter but no error is raised.
   */
  function GetMonthYear(date: JsString): (r: MonthYear)
    ensures r.year == date[..Clamp(4, |date|)]
    ensures r.month == date[Clamp(5, |date|)..Clamp(7, |date|)]
    ensures |date| >= 7 ==> r == MonthYear(date[5..7], date[..4])
  {
    assert |Utf16("2016-")| == 5 && |Utf16("2016-10")| == 7 && |Utf16("")| == 0 && |Utf16("2016")| == 4 by {
      Utf16Narrow("2016-");
      Utf16Narrow("2016-10");
      Utf16Narrow("2016");
    }
    MonthYear(Substring(date, |Utf16("2016-")|, |Utf16("2016-10")|), Substring(date, |Utf16("")|, |Utf16("2016")|))
  }

  /** A timestamp laid out as year, one separator, month, then anything gives back that year and month. */
  lemma GetMonthYearOfTimestamp(year: JsString, sep: CodeUnit, month: JsString, rest: JsString)
    requires |year| == 4 && |month| == 2
    ensures GetMonthYear(year + [sep] + month + rest) == MonthYear(month, year)
  {
    var date := year + [sep] + month + rest;
    assert date[..4] == year;
    assert date[5..7] == month;
  }

  /** The example of the source's comment: "2016-10-24T15:03:07Z" is month "10" of year "2016". */
  lemma GetMonthYearExample()
    ensures GetMonthYear(Utf16("2016-10-24T15:03:07Z")) == MonthYear(Utf16("10"), Utf16("2016"))
  {
    var year, month, rest := Utf16("2016"), Utf16("10"), Utf16("-24T15:03:07Z");
    assert |year| == 4 && |month| == 2 by {
      Utf16Narrow("2016");
      Utf16Narrow("10");
    }
    assert Utf16("2016-10-24T15:03:07Z") == year + Utf16("-") + month + rest by {
      assert "2016-10-24T15:03:07Z" == "2016" + "-" + "10" + "-24T15:03:07Z";
      Utf16Concat("2016" + "-" + "10", "-24T15:03:07Z");
      Utf16Concat("2016" + "-", "10");
      Utf16Concat("2016", "-");
    }
    assert Utf16("-") == ['-' as int as CodeUnit];
    GetMonthYearOfTimestamp(year, '-' as int as CodeUnit, month, rest);
  }

  /** The bucket key of a saved track. */
  function Key(saved: SavedTrack): MonthYear
  {
    GetMonthYear(saved.addedAt)
  }

  predicate HasBucket(dated: DatedTracks, key: MonthYear)
  {
    key.year in dated && key.month in dated[key.year]
  }

  /** The tracks stored under `key`, or none when there is no such bucket. */
  function Bucket(dated: DatedTracks, key: MonthYear): seq<Track>
  {
    if HasBucket(dated, key) then dated[key.year][key.month] else []
  }

  /**
   * One iteration of the `forEach` in `get_dated_tracks`: create the year
   * and month entries when missing, then push `saved.track` unless the
   * bucket already holds `cap` tracks.
   */
  function Insert(dated: DatedTracks, saved: SavedTrack, cap: nat): (r: DatedTracks)
    ensures HasBucket(r, GetMonthYear(saved.addedAt))
  {
    var added := GetMonthYear(saved.addedAt);
    var d1 := if added.year in dated then dated else dated[added.year := map[]];
    var d2 := if added.month in d1[added.year] then d1
              else d1[added.year := d1[added.year][added.month := []]];
    var bucket := d2[added.year][added.month];
    if |bucket| >= cap then d2
    else d2[added.year := d2[added.year][added.month := bucket + [saved.track]]]
  }

  /** `get_dated_tracks` as a fold of `Insert` over the tracks in order: no bucket ever exceeds the cap. */
  function Bucketize(tracks: seq<SavedTrack>, cap: nat): (r: DatedTracks)
    ensures forall key :: |Bucket(r, key)| <= cap
    decreases |tracks|
  {
    if tracks == [] then map[]
    else
      var previous := Bucketize(tracks[..|tracks| - 1], cap);
      InsertBuckets(previous, tracks[|tracks| - 1], cap);
      Insert(previous, tracks[|tracks| - 1], cap)
  }

  /** The `track` objects of the saved tracks whose key is `key`, in input order. */
  function Matching(tracks: seq<SavedTrack>, key: MonthYear): seq<Track>
    decreases |tracks|
  {
    if tracks == [] then []
    else
      var last := tracks[|tracks| - 1];
      Matching(tracks[..|tracks| - 1], key) + (if Key(last) == key then [last.track] else [])
  }

  /** The first `n` elements of `s` (all of them when there are fewer). */
  function Take<T>(s: seq<T>, n: nat): (r: seq<T>)
    ensures |r| == if |s| <= n then |s| else n
    ensures r == s[..|r|]
  {
    if |s| <= n then s else s[..n]
  }

  /**
   * Each bucket holds exactly the first `cap` tracks saved in its month, in
   * the order they were listed: kept tracks are appended after earlier ones,
   * and the ones beyond the cap are the ones dropped.
   */
  lemma {:induction false} BucketContents(tracks: seq<SavedTrack>, cap: nat, key: MonthYear)
    ensures Bucket(Bucketize(tracks, cap), key) == Take(Matching(tracks, key), cap)
    decreases |tracks|
  {
    if tracks != [] {
      var prefix, last := tracks[..|tracks| - 1], tracks[|tracks| - 1];
      BucketContents(prefix, cap, key);
      InsertBuckets(Bucketize(prefix, cap), last, cap);
      var m := Matching(prefix, key);
      if Key(last) == key && |m| < cap {
        assert Take(m + [last.track], cap) == m + [last.track];
      }
    }
  }

  /** Some track of the list was saved in the month `key`. */
  predicate SavedIn(tracks: seq<SavedTrack>, key: MonthYear)
  {
    exists i :: 0 <= i < |tracks| && Key(tracks[i]) == key
  }

  lemma SavedInSnoc(prefix: seq<SavedTrack>, last: SavedTrack, key: MonthYear)
    ensures SavedIn(prefix + [last], key) <==> SavedIn(prefix, key) || Key(last) == key
  {
    var tracks := prefix + [last];
    if SavedIn(tracks, key) {
      var i :| 0 <= i < |tracks| && Key(tracks[i]) == key;
      if i < |prefix| { assert Key(prefix[i]) == key; }
    }
    if SavedIn(prefix, key) {
      var i :| 0 <= i < |prefix| && Key(prefix[i]) == key;
      assert Key(tracks[i]) == key;
    }
    if Key(last) == key {
      assert Key(tracks[|prefix|]) == key;
    }
  }

  /** There is a bucket for a key exactly when some track was saved in that month. */
  lemma {:induction false} BucketKeys(tracks: seq<SavedTrack>, cap: nat, key: MonthYear)
    ensures HasBucket(Bucketize(tracks, cap), key) <==> SavedIn(tracks, key)
    decreases |tracks|
  {
    if tracks != [] {
      var prefix, last := tracks[..|tracks| - 1], tracks[|tracks| - 1];
      assert prefix + [last] == tracks;
      BucketKeys(prefix, cap, key);
      SavedInSnoc(prefix, last, key);
      assert Bucketize(tracks, cap) == Insert(Bucketize(prefix, cap), last, cap);
      InsertBuckets(Bucketize(prefix, cap), last, cap);
    }
  }

  /** No bucket exceeds the cap, and with a positive cap no bucket is empty. */
  lemma BucketsWithinCap(tracks: seq<SavedTrack>, cap: nat, key: MonthYear)
    requires HasBucket(Bucketize(tracks, cap), key)
    ensures |Bucket(Bucketize(tracks, cap), key)| <= cap
    ensures cap > 0 ==> |Bucket(Bucketize(tracks, cap), key)| > 0
  {
    BucketContents(tracks, cap, key);
    BucketKeys(tracks, cap, key);
    var i :| 0 <= i < |tracks| && Key(tracks[i]) == key;
    MatchingContains(tracks, key, i);
  }

  /** A track saved in month `key` makes `Matching` for that key non-empty. */
  lemma {:induction false} MatchingContains(tracks: seq<SavedTrack>, key: MonthYear, i: nat)
    requires i < |tracks| && Key(tracks[i]) == key
    ensures |Matching(tracks, key)| > 0
    decreases |tracks|
  {
    if i < |tracks| - 1 {
      var prefix := tracks[..|tracks| - 1];
      assert prefix[i] == tracks[i];
      MatchingContains(prefix, key, i);
    }
  }

  /** The month -> bucket-size map of one year. */
  ghost function Sizes(months: map<JsString, seq<Track>>): map<JsString, nat>
  {
    map month | month in months :: |months[month]|
  }

  /** The year -> stored-track-count map. */
  ghost function YearSizes(dated: DatedTracks): map<JsString, nat>
  {
    map year | year in dated :: SumValues(Sizes(dated[year]))
  }

  /** The number of tracks stored in all buckets. */
  ghost function Size(dated: DatedTracks): nat
  {
    SumValues(YearSizes(dated))
  }

  /** The months of `key.year` (none when the year has no entry yet). */
  function MonthsOf(dated: DatedTracks, year: JsString): map<JsString, seq<Track>>
  {
    if year in dated then dated[year] else map[]
  }

  /** `Insert` replaces at most the one bucket of its track's key. */
  lemma InsertShape(dated: DatedTracks, saved: SavedTrack, cap: nat)
    ensures
      var key := Key(saved);
      var b := Bucket(dated, key);
      Insert(dated, saved, cap)
        == dated[key.year := MonthsOf(dated, key.year)[key.month := if |b| < cap then b + [saved.track] else b]]
  {
    var key := Key(saved);
    var y, m := key.year, key.month;
    var b := Bucket(dated, key);
    var months := MonthsOf(dated, y);
    var d1 := if y in dated then dated else dated[y := map[]];
    var d2 := if m in d1[y] then d1 else d1[y := d1[y][m := []]];
    assert d1[y] == months;
    assert d2 == dated[y := d2[y]];
    assert d2[y] == if m in months then months else months[m := []];
    assert d2[y][m] == b;
    if |b| >= cap {
      if m in months {
        assert months[m := b] == months;
        if y in dated {
          assert dated[y := months] == dated;
        }
      }
    } else {
      assert d2[y][m := b + [saved.track]] == months[m := b + [saved.track]];
    }
  }

  lemma SizesUpdate(months: map<JsString, seq<Track>>, month: JsString, b: seq<Track>)
    ensures Sizes(months[month := b]) == Sizes(months)[month := |b|]
  {
  }

  lemma YearSizesUpdate(dated: DatedTracks, year: JsString, months: map<JsString, seq<Track>>)
    ensures YearSizes(dated[year := months]) == YearSizes(dated)[year := SumValues(Sizes(months))]
  {
  }

  /**
   * `Insert` adds its track's bucket if missing, appends the track to that
   * bucket exactly when it holds fewer than `cap` tracks, and leaves every
   * other bucket alone; a full existing bucket leaves the whole map alone.
   */
  lemma InsertBuckets(dated: DatedTracks, saved: SavedTrack, cap: nat)
    ensures forall key :: HasBucket(Insert(dated, saved, cap), key) <==> HasBucket(dated, key) || key == Key(saved)
    ensures forall key :: Bucket(Insert(dated, saved, cap), key) ==
              if key == Key(saved) && |Bucket(dated, key)| < cap
              then Bucket(dated, key) + [saved.track]
              else Bucket(dated, key)
    ensures HasBucket(dated, Key(saved)) && |Bucket(dated, Key(saved))| >= cap ==> Insert(dated, saved, cap) == dated
  {
    InsertShape(dated, saved, cap);
    var key := Key(saved);
    if HasBucket(dated, key) && |Bucket(dated, key)| >= cap {
      assert MonthsOf(dated, key.year)[key.month := Bucket(dated, key)] == dated[key.year];
    }
  }

  /** `Insert` stores one more track exactly when the track's bucket is below the cap. */
  lemma InsertSize(dated: DatedTracks, saved: SavedTrack, cap: nat)
    ensures Size(Insert(dated, saved, cap)) == Size(dated) + (if |Bucket(dated, Key(saved))| < cap then 1 else 0)
  {
    var key := Key(saved);
    var y, m := key.year, key.month;
    var b := Bucket(dated, key);
    var nb := if |b| < cap then b + [saved.track] else b;
    var months := MonthsOf(dated, y);
    InsertShape(dated, saved, cap);
    SizesUpdate(months, m, nb);
    SumValuesUpdate(Sizes(months), m, |nb|);
    assert m in Sizes(months) ==> Sizes(months)[m] == |b|;
    assert m !in Sizes(months) ==> |b| == 0;
    YearSizesUpdate(dated, y, months[m := nb]);
    SumValuesUpdate(YearSizes(dated), y, SumValues(Sizes(months[m := nb])));
    if y !in dated {
      assert Sizes(months) == map[];
    }
  }

  /** No month has more tracks than the cap. */
  predicate NoOverflow(tracks: seq<SavedTrack>, cap: nat)
  {
    forall i :: 0 <= i < |tracks| ==> |Matching(tracks, Key(tracks[i]))| <= cap
  }

  /** How `NoOverflow` of a list grows by one track. */
  lemma NoOverflowSnoc(prefix: seq<SavedTrack>, last: SavedTrack, cap: nat)
    ensures NoOverflow(prefix + [last], cap) <==> NoOverflow(prefix, cap) && |Matching(prefix, Key(last))| < cap
  {
    var tracks := prefix + [last];
    var kx := Key(last);
    assert tracks[..|tracks| - 1] == prefix;
    forall key ensures Matching(tracks, key) == Matching(prefix, key) + (if key == kx then [last.track] else []) {
    }
    if NoOverflow(tracks, cap) {
      assert |Matching(tracks, Key(tracks[|tracks| - 1]))| <= cap;
      forall i | 0 <= i < |prefix| ensures |Matching(prefix, Key(prefix[i]))| <= cap {
        assert tracks[i] == prefix[i];
        assert |Matching(tracks, Key(tracks[i]))| <= cap;
      }
    }
    if NoOverflow(prefix, cap) && |Matching(prefix, kx)| < cap {
      forall i | 0 <= i < |tracks| ensures |Matching(tracks, Key(tracks[i]))| <= cap {
        if i < |prefix| {
          assert tracks[i] == prefix[i];
          assert |Matching(prefix, Key(prefix[i]))| <= cap;
        }
      }
    }
  }

  lemma SizeOfEmpty()
    ensures Size(map[]) == 0
  {
    assert YearSizes(map[]) == map[];
  }

  /** One more track is stored exactly when its month's bucket was below the cap. */
  lemma StoredCountStep(prefix: seq<SavedTrack>, last: SavedTrack, cap: nat)
    ensures Size(Bucketize(prefix + [last], cap)) ==
              Size(Bucketize(prefix, cap)) + (if |Matching(prefix, Key(last))| < cap then 1 else 0)
  {
    var tracks := prefix + [last];
    var before := Bucketize(prefix, cap);
    assert tracks[..|tracks| - 1] == prefix;
    assert Bucketize(tracks, cap) == Insert(before, last, cap);
    InsertSize(before, last, cap);
    BucketContents(prefix, cap, Key(last));
    assert |Bucket(before, Key(last))| < cap <==> |Matching(prefix, Key(last))| < cap;
  }

  /**
   * At most as many tracks are stored as were listed, and all of them are
   * stored exactly when no month has more tracks than the cap.
   */
  lemma {:induction false} StoredCount(tracks: seq<SavedTrack>, cap: nat)
    ensures Size(Bucketize(tracks, cap)) <= |tracks|
    ensures Size(Bucketize(tracks, cap)) == |tracks| <==> NoOverflow(tracks, cap)
    decreases |tracks|
  {
    if tracks == [] {
      SizeOfEmpty();
    } else {
      var prefix, last := tracks[..|tracks| - 1], tracks[|tracks| - 1];
      assert prefix + [last] == tracks;
      StoredCount(prefix, cap);
      StoredCountStep(prefix, last, cap);
      NoOverflowSnoc(prefix, last, cap);
    }
  }

  /** With a cap of 2, a third track of the same month is dropped. */
  lemma ThirdTrackDropped(a: Track, b: Track, c: Track, date: JsString)
    ensures Bucket(Bucketize([SavedTrack(a, date), SavedTrack(b, date), SavedTrack(c, date)], 2), GetMonthYear(date)) == [a, b]
  {
    var tracks := [SavedTrack(a, date), SavedTrack(b, date), SavedTrack(c, date)];
    var key := GetMonthYear(date);
    BucketContents(tracks, 2, key);
    assert tracks[..2] == [SavedTrack(a, date), SavedTrack(b, date)];
    assert tracks[..2][..1] == [SavedTrack(a, date)];
    assert [SavedTrack(a, date)][..0] == [];
    assert Matching(tracks[..2][..1], key) == [a];
    assert Matching(tracks[..2], key) == [a, b];
    assert Matching(tracks, key) == [a, b, c];
  }

  /** `BucketContents` and `BucketsWithinCap` for every key at once. */
  lemma AllBuckets(tracks: seq<SavedTrack>, cap: nat)
    ensures forall key :: Bucket(Bucketize(tracks, cap), key) == Take(Matching(tracks, key), cap)
    ensures forall key :: HasBucket(Bucketize(tracks, cap), key) ==> |Bucket(Bucketize(tracks, cap), key)| <= cap
    ensures cap > 0 ==> forall key :: HasBucket(Bucketize(tracks, cap), key) ==> |Bucket(Bucketize(tracks, cap), key)| > 0
  {
    forall key ensures Bucket(Bucketize(tracks, cap), key) == Take(Matching(tracks, key), cap) {
      BucketContents(tracks, cap, key);
    }
    forall key | HasBucket(Bucketize(tracks, cap), key)
      ensures |Bucket(Bucketize(tracks, cap), key)| <= cap
      ensures cap > 0 ==> |Bucket(Bucketize(tracks, cap), key)| > 0
    {
      BucketsWithinCap(tracks, cap, key);
    }
  }

  /**
   * `get_dated_tracks(tracks)`: the `forEach` loop filling `dated_tracks`.
   * The result is the fold `Bucketize`, so every bucket holds the first
   * `MaxSongsInPlaylist` tracks of its month in input order, and buckets
   * exist exactly for the months some track was saved in.
   */
  method GetDatedTracks(tracks: seq<SavedTrack>) returns (datedTracks: DatedTracks)
    ensures datedTracks == Bucketize(tracks, MaxSongsInPlaylist)
    ensures forall key :: Bucket(datedTracks, key) == Take(Matching(tracks, key), MaxSongsInPlaylist)
    ensures forall key :: HasBucket(datedTracks, key) ==> 0 < |Bucket(datedTracks, key)| <= MaxSongsInPlaylist
  {
    datedTracks := map[];
    for i := 0 to |tracks|
      invariant datedTracks == Bucketize(tracks[..i], MaxSongsInPlaylist)
    {
      var track := tracks[i];
      ghost var before := datedTracks;
      var added := GetMonthYear(track.addedAt);
      if added.year !in datedTracks {
        datedTracks := datedTracks[added.year := map[]];
      }
      if added.month !in datedTracks[added.year] {
        datedTracks := datedTracks[added.year := datedTracks[added.year][added.month := []]];
      }
      if |datedTracks[added.year][added.month]| >= MaxSongsInPlaylist {
        // the source logs that the month is over the limit and drops the track
      } else {
        var bucket := datedTracks[added.year][added.month];
        datedTracks := datedTracks[added.year := datedTracks[added.year][added.month := bucket + [track.track]]];
      }
      assert datedTracks == Insert(before, track, MaxSongsInPlaylist);
      assert tracks[..i + 1][..i] == tracks[..i];
    }
    assert tracks[..|tracks|] == tracks;
    AllBuckets(tracks, MaxSongsInPlaylist);
  }
}
