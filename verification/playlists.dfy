/** The playlist record every component reads. */
module Playlists {
  import opened Wrappers
  import opened Json

  /** A playlist as listed: its stable id, display name, version token and free-text description. */
  datatype Playlist = Playlist(id: string, name: string, snapshotId: string, description: Option<string>)

  /** The name of the playlist whose description stores the metadata record. */
  const MetadataPlaylistName: string := "reverse_playlist_metadata"

  /**
   `JSON.parse(he.decode(description))` behind the `if (description)` guard,
   with `parse` standing for the entity decoding and the parse together
   (`None` where `JSON.parse` throws). An absent or empty description is not
   parsed at all.
   */
  function ParsedDescription(p: Playlist, parse: string -> Option<Json>): (r: Option<Json>)
    ensures (p.description.None? || p.description.value == "") ==> r.None?
    ensures p.description.Some? && p.description.value != "" ==> r == parse(p.description.value)
  {
    match p.description
    case None => None
    case Some(d) => if d == "" then None else parse(d)
  }
}
