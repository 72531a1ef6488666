/**
 * The records of the music service's Web API that the playlist code reads
 * and the requests it sends, reduced to the fields the code uses.
 */
module Spotify {
  import opened JsBuiltins

  /** A track object; the code only reads its `uri`. */
  datatype Track = Track(uri: string)

  /**
   * An item of the saved-tracks listing: `{"track": {...}, "added_at": "2016-10-24T15:03:07Z"}`.
   * The timestamp is cut at code-unit offsets, so it is held as a JavaScript string.
   */
  datatype SavedTrack = SavedTrack(track: Track, addedAt: JsString)

  /**
   * An item of the playlists listing: its `id`, `name` and `owner.id`. The
   * name's length and offsets are measured, so it is held as a JavaScript string.
   */
  datatype Playlist = Playlist(id: string, name: JsString, ownerId: string)

  /** The fixed description every generated playlist is created with. */
  const Description: string := "Created by monthly playlists generator: https://github.com/adam-binks/website"

  /** `POST /me/playlists` with body `{name, public: true, description}`. */
  datatype CreatePlaylistRequest = CreatePlaylistRequest(
    authorization: string, name: JsString, isPublic: bool, description: string)

  /** `POST /users/{user_id}/playlists/{playlist_id}/tracks` with body `{uris}`. */
  datatype AddTracksRequest = AddTracksRequest(
    authorization: string, userId: string, playlistId: string, uris: seq<string>)

  /** `DELETE /users/{user_id}/playlists/{playlist_id}/followers`. */
  datatype UnfollowRequest = UnfollowRequest(
    authorization: string, userId: string, playlistId: string)
}
