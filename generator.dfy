/**
 * The two flows of the playlist code: generating one playlist per month of
 * saved tracks (`generate_playlists`, `all_tracks_fetched`,
 * `create_and_populate_playlist`), and unfollowing the generated ones
 * (`unfollow_all_playlists`, `all_playlists_fetched`, `unfollow_playlist`).
 *
 * The per-month and per-playlist request chains run concurrently in the
 * source; here the fan-out is the set (or list) of chains to start, and each
 * chain is modelled on its own with its own replies.
 */
module Generator {
  import opened Wrappers
  import opened JsBuiltins
  import opened Auth
  import opened Spotify
  import opened Pagination
  import opened Bucketizer
  import opened Populator
  import opened Retry
  import opened Classifier

  /** The name a month's playlist is created with, `month + " " + year`: it reads back as the month, a space and the year. */
  function PlaylistName(key: MonthYear): (r: JsString)
    ensures |r| == |key.month| + 1 + |key.year|
    ensures r[..|key.month|] == key.month && r[|key.month|] == ' ' as int as CodeUnit
    ensures r[|key.month| + 1..] == key.year
  {
    Utf16Narrow(" ");
    key.month + Utf16(" ") + key.year
  }

  /** One `create_and_populate_playlist` call that `all_tracks_fetched` starts. */
  datatype PlannedPlaylist = PlannedPlaylist(name: JsString, tracks: seq<Track>)

  /** `all_tracks_fetched`: one playlist per (year, month) bucket, named after it and holding its tracks. */
  function MonthlyPlaylists(dated: DatedTracks): (r: set<PlannedPlaylist>)
    ensures forall key :: HasBucket(dated, key) ==> PlannedPlaylist(PlaylistName(key), Bucket(dated, key)) in r
    ensures forall p :: p in r ==> exists key :: HasBucket(dated, key) && p == PlannedPlaylist(PlaylistName(key), Bucket(dated, key))
  {
    set year, month | year in dated && month in dated[year] ::
      PlannedPlaylist(PlaylistName(MonthYear(month, year)), dated[year][month])
  }

  /** The `track` objects of the saved tracks, in order. */
  function TracksOf(saved: seq<SavedTrack>): (r: seq<Track>)
    ensures |r| == |saved|
    ensures forall i :: 0 <= i < |r| ==> r[i] == saved[i].track
  {
    if saved == [] then [] else TracksOf(saved[..|saved| - 1]) + [saved[|saved| - 1].track]
  }

  /**
   * `generate_playlists`: fetch the saved tracks page by page, bucket them by
   * month and plan one playlist per bucket; nothing is planned when the
   * fetch chain stalls.
   */
  function GeneratePlaylists(responses: seq<Response<SavedTrack>>): (r: Option<set<PlannedPlaylist>>)
    ensures r.Some? ==> forall p :: p in r.value ==> |p.tracks| <= MaxSongsInPlaylist
  {
    match GetNextBatchOfItems([], responses)
    case Stalled => None
    case Finished(items, _) => Some(MonthlyPlaylists(Bucketize(items, MaxSongsInPlaylist)))
  }

  /** When page `t` is the first without `next`, the plan is that of the saved tracks of pages 0..t, in page order. */
  lemma GeneratePlaylistsAtTerminalPage(responses: seq<Response<SavedTrack>>, t: nat)
    requires TerminalAt(responses, t)
    ensures GeneratePlaylists(responses) == Some(MonthlyPlaylists(Bucketize(AllItems(responses[..t + 1]), MaxSongsInPlaylist)))
  {
    FinishesAtTerminalPage([], responses, t);
    assert [] + AllItems(responses[..t + 1]) == AllItems(responses[..t + 1]);
  }

  /** Playlists are planned exactly when the pages up to one without `next` are all delivered; otherwise none is created. */
  lemma GeneratePlaylistsPlansIffTerminal(responses: seq<Response<SavedTrack>>)
    ensures GeneratePlaylists(responses).Some? <==> exists t: nat :: TerminalAt(responses, t)
  {
    FinishedIffTerminal([], responses);
  }

  /** Every planned playlist holds between 1 and `MaxSongsInPlaylist` tracks, all saved in the month it is named after. */
  lemma PlannedPlaylistsWithinCap(saved: seq<SavedTrack>, p: PlannedPlaylist)
    requires p in MonthlyPlaylists(Bucketize(saved, MaxSongsInPlaylist))
    ensures 0 < |p.tracks| <= MaxSongsInPlaylist
    ensures exists key :: p.name == PlaylistName(key) && p.tracks == Take(Matching(saved, key), MaxSongsInPlaylist)
  {
    var dated := Bucketize(saved, MaxSongsInPlaylist);
    var year, month :| year in dated && month in dated[year] &&
      p == PlannedPlaylist(PlaylistName(MonthYear(month, year)), dated[year][month]);
    var key := MonthYear(month, year);
    BucketsWithinCap(saved, MaxSongsInPlaylist, key);
    BucketContents(saved, MaxSongsInPlaylist, key);
  }

  /** When every track is saved in month `key`, all of them match that key, in order. */
  lemma {:induction false} SingleMonthMatching(saved: seq<SavedTrack>, key: MonthYear)
    requires forall i :: 0 <= i < |saved| ==> Key(saved[i]) == key
    ensures Matching(saved, key) == TracksOf(saved)
    decreases |saved|
  {
    if saved != [] {
      var prefix := saved[..|saved| - 1];
      SingleMonthMatching(prefix, key);
      assert TracksOf(saved) == TracksOf(prefix) + [saved[|saved| - 1].track];
    }
  }

  /** When every track is saved in month `key`, no other month has a bucket. */
  lemma SingleMonthBuckets(saved: seq<SavedTrack>, cap: nat, key: MonthYear)
    requires forall i :: 0 <= i < |saved| ==> Key(saved[i]) == key
    ensures forall k :: k != key ==> !HasBucket(Bucketize(saved, cap), k)
  {
    forall k | k != key ensures !HasBucket(Bucketize(saved, cap), k) {
      BucketKeys(saved, cap, k);
    }
  }

  /** A map with a bucket for `key` and for no other key plans exactly the one playlist of that bucket. */
  lemma SingleBucketPlan(dated: DatedTracks, key: MonthYear)
    requires HasBucket(dated, key)
    requires forall k :: k != key ==> !HasBucket(dated, k)
    ensures MonthlyPlaylists(dated) == {PlannedPlaylist(PlaylistName(key), Bucket(dated, key))}
  {
    var planned := PlannedPlaylist(PlaylistName(key), Bucket(dated, key));
    forall p | p in MonthlyPlaylists(dated) ensures p == planned {
      var year, month :| year in dated && month in dated[year] &&
        p == PlannedPlaylist(PlaylistName(MonthYear(month, year)), dated[year][month]);
      assert HasBucket(dated, MonthYear(month, year));
    }
    assert planned in MonthlyPlaylists(dated) by {
      assert planned == PlannedPlaylist(PlaylistName(MonthYear(key.month, key.year)), dated[key.year][key.month]);
    }
  }

  /** Tracks all saved in one month, no more than fit in a playlist, plan exactly one playlist holding them all. */
  lemma {:induction false} OneMonthPlan(saved: seq<SavedTrack>, key: MonthYear)
    requires 0 < |saved| <= MaxSongsInPlaylist
    requires forall i :: 0 <= i < |saved| ==> Key(saved[i]) == key
    ensures MonthlyPlaylists(Bucketize(saved, MaxSongsInPlaylist)) == {PlannedPlaylist(PlaylistName(key), TracksOf(saved))}
  {
    var dated := Bucketize(saved, MaxSongsInPlaylist);
    SingleMonthMatching(saved, key);
    SingleMonthBuckets(saved, MaxSongsInPlaylist, key);
    BucketContents(saved, MaxSongsInPlaylist, key);
    assert HasBucket(dated, key) by {
      BucketKeys(saved, MaxSongsInPlaylist, key);
      assert Key(saved[0]) == key;
    }
    SingleBucketPlan(dated, key);
  }

  /** 120 URIs go out as two requests, of 100 and 20. */
  lemma ChunksOf120<T>(s: seq<T>)
    requires |s| == 120
    ensures Chunks(s, MaxTracksToAddToPlaylist) == [s[..100], s[100..]]
  {
    assert Chunks(s[100..], MaxTracksToAddToPlaylist) == [s[100..]];
  }

  /**
   * The end-to-end example: 120 tracks all saved in October 2016 plan exactly
   * one playlist, "10 2016", holding all of them, and populating it sends two
   * add-tracks requests of 100 and 20 URIs.
   */
  lemma OctoberOf2016(saved: seq<SavedTrack>, playlistId: string, userId: string, accessToken: string,
                      sent: seq<AddTracksRequest>)
    requires |saved| == 120
    requires forall i :: 0 <= i < |saved| ==> |saved[i].addedAt| >= 7 && saved[i].addedAt[..7] == Utf16("2016-10")
    requires playlistId != ""
    requires IsPopulation(sent, Some(playlistId), TracksOf(saved), userId, accessToken)
    ensures MonthlyPlaylists(Bucketize(saved, MaxSongsInPlaylist)) == {PlannedPlaylist(Utf16("10 2016"), TracksOf(saved))}
    ensures |sent| == 2 && |sent[0].uris| == 100 && |sent[1].uris| == 20
  {
    var key := MonthYear(Utf16("10"), Utf16("2016"));
    forall i | 0 <= i < |saved| ensures Key(saved[i]) == key {
      KeyOfOctober2016(saved[i]);
    }
    OneMonthPlan(saved, key);
    NameOfOctober2016();
    ChunksOf120(Uris(TracksOf(saved)));
  }

  /** October 2016's playlist is named "10 2016". */
  lemma NameOfOctober2016()
    ensures PlaylistName(MonthYear(Utf16("10"), Utf16("2016"))) == Utf16("10 2016")
  {
    assert "10 2016" == "10" + " " + "2016";
    NameParts("10", "2016");
  }

  /** "2016-10" is the year "2016", a `-` and the month "10". */
  lemma OctoberPrefix()
    ensures Utf16("2016-10") == Utf16("2016") + ['-' as int as CodeUnit] + Utf16("10")
    ensures |Utf16("2016")| == 4 && |Utf16("10")| == 2
  {
    assert "2016-10" == "2016" + "-" + "10";
    Utf16Concat("2016" + "-", "10");
    Utf16Concat("2016", "-");
    assert Utf16("-") == ['-' as int as CodeUnit];
    Utf16Narrow("2016");
    Utf16Narrow("10");
  }

  /** A timestamp starting "2016-10" is month "10" of year "2016". */
  lemma KeyOfOctober2016(saved: SavedTrack)
    requires |saved.addedAt| >= 7 && saved.addedAt[..7] == Utf16("2016-10")
    ensures Key(saved) == MonthYear(Utf16("10"), Utf16("2016"))
  {
    var date := saved.addedAt;
    OctoberPrefix();
    assert date == Utf16("2016") + ['-' as int as CodeUnit] + Utf16("10") + date[7..] by {
      assert date == date[..7] + date[7..];
    }
    GetMonthYearOfTimestamp(Utf16("2016"), '-' as int as CodeUnit, Utf16("10"), date[7..]);
  }

  /**
   * `create_and_populate_playlist(name, tracks, token)`, driven by the
   * replies its attempts receive: every attempt is the same create request;
   * a success populates the created playlist once with the id in the reply,
   * and any other ending adds no tracks.
   */
  method CreateAndPopulatePlaylist(playlistName: JsString, tracks: seq<Track>, accessToken: string, userId: string,
                                   replies: seq<Reply<Option<string>>>)
    returns (creates: seq<CreatePlaylistRequest>, outcome: Outcome<Option<string>>, adds: seq<AddTracksRequest>)
    ensures IsRun(replies, |creates|, outcome)
    ensures forall j :: 0 <= j < |creates| ==>
              creates[j] == CreatePlaylistRequest(AuthHeader(accessToken), playlistName, true, Description)
    ensures outcome.Succeeded? ==> IsPopulation(adds, outcome.body, tracks, userId, accessToken)
    ensures !outcome.Succeeded? ==> adds == []
  {
    var request := CreatePlaylistRequest(AuthHeader(accessToken), playlistName, true, Description);
    creates, outcome := RunWithRetry(request, replies);
    if outcome.Succeeded? {
      adds := PopulatePlaylist(outcome.body, tracks, userId, accessToken);
    } else {
      adds := [];
    }
  }

  /**
   * `unfollow_playlist(playlist, token)`: the same retry policy around a
   * `DELETE` of the user's follow of the playlist.
   */
  method UnfollowPlaylist(playlist: Playlist, accessToken: string, userId: string, replies: seq<Reply<()>>)
    returns (deletes: seq<UnfollowRequest>, outcome: Outcome<()>)
    ensures IsRun(replies, |deletes|, outcome)
    ensures forall j :: 0 <= j < |deletes| ==>
              deletes[j] == UnfollowRequest(AuthHeader(accessToken), userId, playlist.id)
  {
    var request := UnfollowRequest(AuthHeader(accessToken), userId, playlist.id);
    deletes, outcome := RunWithRetry(request, replies);
  }

  /** The elements of `s` that `accept` holds of, in their order in `s`: the `forEach` with an `if` of `all_playlists_fetched`. */
  function Select<T(!new)>(s: seq<T>, accept: T -> bool): (r: seq<T>)
    ensures forall x :: x in r <==> x in s && accept(x)
    ensures |r| <= |s|
    decreases |s|
  {
    if s == [] then []
    else
      var rest := Select(s[1..], accept);
      assert forall x :: x in s <==> x == s[0] || x in s[1..];
      if accept(s[0]) then [s[0]] + rest else rest
  }

  /** An accepted element is selected once per occurrence, and a rejected one never. */
  lemma {:induction false} SelectCounts<T(!new)>(s: seq<T>, accept: T -> bool, x: T)
    ensures multiset(Select(s, accept))[x] == if accept(x) then multiset(s)[x] else 0
    decreases |s|
  {
    if s != [] {
      var head, rest := s[0], s[1..];
      SelectCounts(rest, accept, x);
      assert s == [head] + rest;
      var kept := if accept(head) then [head] else [];
      assert Select(s, accept) == kept + Select(rest, accept);
      assert multiset(Select(s, accept)) == multiset(kept) + multiset(Select(rest, accept));
    }
  }

  /** Selection keeps the listing order: selecting from a list split in two selects from each part, the first part's first. */
  lemma {:induction false} SelectConcat<T(!new)>(a: seq<T>, b: seq<T>, accept: T -> bool)
    ensures Select(a + b, accept) == Select(a, accept) + Select(b, accept)
    decreases |a|
  {
    if a == [] {
      assert a + b == b;
    } else {
      assert (a + b)[0] == a[0];
      assert (a + b)[1..] == a[1..] + b;
      SelectConcat(a[1..], b, accept);
      var kept := if accept(a[0]) then [a[0]] else [];
      assert Select(a + b, accept) == kept + Select(a[1..] + b, accept);
      assert Select(a, accept) == kept + Select(a[1..], accept);
    }
  }

  /**
   * `all_playlists_fetched`: the listed playlists to unfollow, in listing
   * order, using the corrected classifier.
   */
  function PlaylistsToUnfollow(playlists: seq<Playlist>, myUserId: string): (r: seq<Playlist>)
    ensures forall p :: p in r <==> p in playlists && PlaylistIsGeneratedByThisIntended(p, myUserId)
    ensures |r| <= |playlists|
  {
    Select(playlists, p => PlaylistIsGeneratedByThisIntended(p, myUserId))
  }

  /** A listed playlist is unfollowed once per time it is listed when the corrected test accepts it, and never otherwise. */
  lemma PlaylistsToUnfollowCounts(playlists: seq<Playlist>, myUserId: string, p: Playlist)
    ensures multiset(PlaylistsToUnfollow(playlists, myUserId))[p] ==
              if PlaylistIsGeneratedByThisIntended(p, myUserId) then multiset(playlists)[p] else 0
  {
    SelectCounts(playlists, q => PlaylistIsGeneratedByThisIntended(q, myUserId), p);
  }

  /** The playlists are unfollowed in listing order: those of an earlier page before those of a later one. */
  lemma PlaylistsToUnfollowInOrder(earlier: seq<Playlist>, later: seq<Playlist>, myUserId: string)
    ensures PlaylistsToUnfollow(earlier + later, myUserId)
              == PlaylistsToUnfollow(earlier, myUserId) + PlaylistsToUnfollow(later, myUserId)
  {
    SelectConcat(earlier, later, q => PlaylistIsGeneratedByThisIntended(q, myUserId));
  }

  /** `unfollow_all_playlists`: fetch the playlists page by page and select the generated ones; nothing when the fetch stalls. */
  function UnfollowAllPlaylists(responses: seq<Response<Playlist>>, myUserId: string): (r: Option<seq<Playlist>>)
    ensures r.Some? ==> forall p :: p in r.value ==> p.ownerId == myUserId && |p.name| == 7
  {
    match GetNextBatchOfItems([], responses)
    case Stalled => None
    case Finished(items, _) => Some(PlaylistsToUnfollow(items, myUserId))
  }

  /** When page `t` is the first without `next`, the playlists unfollowed are the generated ones among those of pages 0..t. */
  lemma UnfollowAllPlaylistsAtTerminalPage(responses: seq<Response<Playlist>>, myUserId: string, t: nat)
    requires TerminalAt(responses, t)
    ensures UnfollowAllPlaylists(responses, myUserId) == Some(PlaylistsToUnfollow(AllItems(responses[..t + 1]), myUserId))
  {
    FinishesAtTerminalPage([], responses, t);
    assert [] + AllItems(responses[..t + 1]) == AllItems(responses[..t + 1]);
  }

  /** Playlists are unfollowed exactly when the pages up to one without `next` are all delivered; otherwise none is. */
  lemma UnfollowAllPlaylistsIffTerminal(responses: seq<Response<Playlist>>, myUserId: string)
    ensures UnfollowAllPlaylists(responses, myUserId).Some? <==> exists t: nat :: TerminalAt(responses, t)
  {
    FinishedIffTerminal([], responses);
  }

  /**
   * A playlist this tool created for a bucket of a month "01".."12" of a year
   * 2000..2020 is found again by the cleanup when it is listed.
   */
  lemma CleanupFindsGeneratedPlaylist(playlists: seq<Playlist>, myUserId: string, id: string, month: string, year: int)
    requires month in MonthTokens && 2000 <= year <= 2020
    requires Playlist(id, PlaylistName(MonthYear(Utf16(month), Utf16(IntToString(year)))), myUserId) in playlists
    ensures Playlist(id, PlaylistName(MonthYear(Utf16(month), Utf16(IntToString(year)))), myUserId)
              in PlaylistsToUnfollow(playlists, myUserId)
  {
    IntendedRecognisesGeneratedNames(id, month, year, myUserId);
  }
}
