/**
 * `populate_playlist`: the URIs of a month's tracks are buffered and sent to
 * `add_tracks_to_playlist` whenever the buffer reaches
 * `MaxTracksToAddToPlaylist`, with a final flush of what is left. The calls
 * are recorded as the `AddTracksRequest`s they would send.
 */
module Populator {
  import opened Wrappers
  import opened Auth
  import opened Spotify

  /** `MAX_TRACKS_TO_ADD_TO_PLAYLIST`: the most URIs one add-tracks request may carry. */
  const MaxTracksToAddToPlaylist: nat := 100

  /** The `uri` of every track, in order. */
  function Uris(tracks: seq<Track>): (r: seq<string>)
    ensures |r| == |tracks|
    ensures forall i :: 0 <= i < |r| ==> r[i] == tracks[i].uri
  {
    if tracks == [] then [] else [tracks[0].uri] + Uris(tracks[1..])
  }

  /** The elements of all the chunks, one chunk after the other. */
  function Flatten<T>(chunks: seq<seq<T>>): seq<T>
    decreases |chunks|
  {
    if chunks == [] then [] else chunks[0] + Flatten(chunks[1..])
  }

  lemma {:induction false} FlattenSnoc<T>(chunks: seq<seq<T>>, c: seq<T>)
    ensures Flatten(chunks + [c]) == Flatten(chunks) + c
    decreases |chunks|
  {
    if chunks == [] {
      assert [] + [c] == [c];
      assert Flatten([c]) == c + Flatten([c][1..]);
    } else {
      assert (chunks + [c])[1..] == chunks[1..] + [c];
      FlattenSnoc(chunks[1..], c);
    }
  }

  /** Every chunk holds between 1 and `n` elements and every chunk but the last exactly `n`. */
  predicate WellSized<T>(chunks: seq<seq<T>>, n: nat)
  {
    (forall j :: 0 <= j < |chunks| ==> 1 <= |chunks[j]| <= n) &&
    (forall j :: 0 <= j < |chunks| - 1 ==> |chunks[j]| == n)
  }

  /** `s` cut into consecutive chunks of `n`, the last one holding the remainder. */
  function Chunks<T>(s: seq<T>, n: nat): (r: seq<seq<T>>)
    requires n > 0
    ensures Flatten(r) == s
    ensures WellSized(r, n)
    decreases |s|
  {
    if s == [] then []
    else if |s| <= n then [s]
    else
      var rest := Chunks(s[n..], n);
      assert Flatten([s[..n]] + rest) == s[..n] + Flatten(rest);
      [s[..n]] + rest
  }

  /** A cut into well-sized chunks is unique: any such cut of `s` is `Chunks(s, n)`. */
  lemma {:induction false} ChunksUnique<T>(chunks: seq<seq<T>>, s: seq<T>, n: nat)
    requires n > 0
    requires Flatten(chunks) == s && WellSized(chunks, n)
    ensures chunks == Chunks(s, n)
    decreases |chunks|
  {
    if chunks != [] {
      var rest := chunks[1..];
      assert WellSized(rest, n) by {
        forall j | 0 <= j < |rest| ensures 1 <= |rest[j]| <= n { assert rest[j] == chunks[j + 1]; }
        forall j | 0 <= j < |rest| - 1 ensures |rest[j]| == n { assert rest[j] == chunks[j + 1]; }
      }
      if rest == [] {
        assert s == chunks[0];
      } else {
        assert |chunks[0]| == n;
        assert |Flatten(rest)| > 0 by { assert |rest[0]| >= 1; assert Flatten(rest) == rest[0] + Flatten(rest[1..]); }
        assert s[..n] == chunks[0] && s[n..] == Flatten(rest);
        ChunksUnique(rest, s[n..], n);
      }
    }
  }

  /** A run of full chunks followed by a buffer of fewer than `n` is chunked as those full chunks, then the buffer if non-empty. */
  lemma {:induction false} ChunksOfFullThenBuffer<T>(full: seq<seq<T>>, buffer: seq<T>, n: nat)
    requires n > 0
    requires forall j :: 0 <= j < |full| ==> |full[j]| == n
    requires |buffer| < n
    ensures Chunks(Flatten(full) + buffer, n) == full + (if buffer == [] then [] else [buffer])
  {
    var cs := full + (if buffer == [] then [] else [buffer]);
    if buffer == [] {
      assert Flatten(full) + buffer == Flatten(full);
      assert cs == full;
    } else {
      FlattenSnoc(full, buffer);
    }
    assert WellSized(cs, n) by {
      forall j | 0 <= j < |cs| ensures 1 <= |cs[j]| <= n {
        if j < |full| { assert cs[j] == full[j]; }
      }
      forall j | 0 <= j < |cs| - 1 ensures |cs[j]| == n {
        assert cs[j] == full[j];
      }
    }
    ChunksUnique(cs, Flatten(full) + buffer, n);
  }

  /** 250 URIs go out as chunks of 100, 100 and 50, in order. */
  lemma ChunksOf250<T>(s: seq<T>)
    requires |s| == 250
    ensures Chunks(s, 100) == [s[..100], s[100..200], s[200..]]
  {
    assert s[100..][..100] == s[100..200];
    assert s[100..][100..] == s[200..];
    assert Chunks(s[200..], 100) == [s[200..]];
    assert Chunks(s[100..], 100) == [s[100..200]] + [s[200..]];
  }

  /** The guard of `populate_playlist`: the id is neither `null` nor `""`. */
  predicate ValidPlaylistId(playlistId: Option<string>)
  {
    playlistId.Some? && playlistId.value != ""
  }

  /** One add-tracks request per chunk, for the given header, user and playlist. */
  function Requests(header: string, userId: string, playlistId: string, chunks: seq<seq<string>>)
    : (r: seq<AddTracksRequest>)
    ensures |r| == |chunks|
    ensures forall j :: 0 <= j < |r| ==> r[j] == AddTracksRequest(header, userId, playlistId, chunks[j])
    decreases |chunks|
  {
    if chunks == [] then []
    else [AddTracksRequest(header, userId, playlistId, chunks[0])] + Requests(header, userId, playlistId, chunks[1..])
  }

  lemma RequestsSnoc(header: string, userId: string, playlistId: string, chunks: seq<seq<string>>, c: seq<string>)
    ensures Requests(header, userId, playlistId, chunks + [c]) ==
              Requests(header, userId, playlistId, chunks) + [AddTracksRequest(header, userId, playlistId, c)]
  {
    var lhs := Requests(header, userId, playlistId, chunks + [c]);
    var rhs := Requests(header, userId, playlistId, chunks) + [AddTracksRequest(header, userId, playlistId, c)];
    assert |lhs| == |rhs|;
    forall j | 0 <= j < |lhs| ensures lhs[j] == rhs[j] {
      assert (chunks + [c])[j] == if j < |chunks| then chunks[j] else c;
    }
  }

  lemma UrisSnoc(tracks: seq<Track>, i: nat)
    requires i < |tracks|
    ensures Uris(tracks[..i + 1]) == Uris(tracks[..i]) + [tracks[i].uri]
  {
    var lhs, rhs := Uris(tracks[..i + 1]), Uris(tracks[..i]) + [tracks[i].uri];
    assert |lhs| == |rhs|;
    forall j | 0 <= j < |lhs| ensures lhs[j] == rhs[j] {
      assert tracks[..i + 1][j] == tracks[j];
    }
  }

  /**
   * The requests a population sends: none for an invalid id; otherwise one
   * per chunk of the tracks' URIs, in order, each for this user, playlist
   * and token.
   */
  predicate IsPopulation(sent: seq<AddTracksRequest>, playlistId: Option<string>, tracks: seq<Track>,
                         userId: string, accessToken: string)
  {
    if !ValidPlaylistId(playlistId) then sent == []
    else sent == Requests(AuthHeader(accessToken), userId, playlistId.value,
                          Chunks(Uris(tracks), MaxTracksToAddToPlaylist))
  }

  /** The URIs of each request. */
  function UrisPerRequest(sent: seq<AddTracksRequest>): (r: seq<seq<string>>)
    ensures |r| == |sent|
    ensures forall j :: 0 <= j < |r| ==> r[j] == sent[j].uris
  {
    if sent == [] then [] else [sent[0].uris] + UrisPerRequest(sent[1..])
  }

  /**
   * A population's requests carry, taken together, every track's URI once
   * in input order, between 1 and 100 per request and exactly 100 in all
   * but the last; with an invalid id nothing is sent.
   */
  lemma PopulationSendsAllUris(sent: seq<AddTracksRequest>, playlistId: Option<string>, tracks: seq<Track>,
                               userId: string, accessToken: string)
    requires IsPopulation(sent, playlistId, tracks, userId, accessToken)
    ensures !ValidPlaylistId(playlistId) ==> sent == []
    ensures ValidPlaylistId(playlistId) ==> Flatten(UrisPerRequest(sent)) == Uris(tracks)
    ensures WellSized(UrisPerRequest(sent), MaxTracksToAddToPlaylist)
    ensures forall j :: 0 <= j < |sent| ==> sent[j].playlistId == playlistId.value && sent[j].userId == userId
  {
    if ValidPlaylistId(playlistId) {
      assert UrisPerRequest(sent) == Chunks(Uris(tracks), MaxTracksToAddToPlaylist);
    }
  }

  /**
   * `populate_playlist(playlist_id, tracks, ...)`, with the user id that
   * `get_my_user_id` reads from the page given as `userId`; returns the
   * `add_tracks_to_playlist` calls it makes, in the order it makes them.
   */
  method PopulatePlaylist(playlistId: Option<string>, tracks: seq<Track>, userId: string, accessToken: string)
    returns (sent: seq<AddTracksRequest>)
    ensures IsPopulation(sent, playlistId, tracks, userId, accessToken)
  {
    sent := [];
    if playlistId.None? || playlistId.value == "" {
      // the source logs "Error: invalid playlist id" and returns
      return;
    }
    var id := playlistId.value;
    var header := AuthHeader(accessToken);
    var trackUris: seq<string> := [];
    ghost var full: seq<seq<string>> := [];
    for i := 0 to |tracks|
      invariant sent == Requests(header, userId, id, full)
      invariant forall j :: 0 <= j < |full| ==> |full[j]| == MaxTracksToAddToPlaylist
      invariant Flatten(full) + trackUris == Uris(tracks[..i])
      invariant |trackUris| < MaxTracksToAddToPlaylist
    {
      UrisSnoc(tracks, i);
      assert Flatten(full) + (trackUris + [tracks[i].uri]) == Uris(tracks[..i + 1]);
      trackUris := trackUris + [tracks[i].uri];
      if |trackUris| >= MaxTracksToAddToPlaylist {
        FlattenSnoc(full, trackUris);
        RequestsSnoc(header, userId, id, full, trackUris);
        sent := sent + [AddTracksRequest(header, userId, id, trackUris)];
        full := full + [trackUris];
        trackUris := [];
        assert Flatten(full) + trackUris == Flatten(full);
      }
    }
    assert tracks[..|tracks|] == tracks;
    ghost var chunks := full + (if trackUris == [] then [] else [trackUris]);
    assert Chunks(Uris(tracks), MaxTracksToAddToPlaylist) == chunks by {
      ChunksOfFullThenBuffer(full, trackUris, MaxTracksToAddToPlaylist);
    }
    if |trackUris| > 0 {
      RequestsSnoc(header, userId, id, full, trackUris);
      sent := sent + [AddTracksRequest(header, userId, id, trackUris)];
    } else {
      assert chunks == full;
    }
    assert sent == Requests(header, userId, id, chunks);
  }
}
