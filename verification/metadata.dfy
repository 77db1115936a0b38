/**
 The metadata record the program keeps in the description of its own
 `reverse_playlist_metadata` playlist: finding that playlist, reading the
 record, and writing the global hash back into it.
 */
module Metadata {
  import opened Wrappers
  import opened Json
  import opened Playlists
  import Fingerprint

  /** `playlists.find(element => element.name === 'reverse_playlist_metadata')`. */
  function FindMetadataPlaylist(ps: seq<Playlist>): (r: Option<Playlist>)
    ensures r.None? <==> forall i :: 0 <= i < |ps| ==> ps[i].name != MetadataPlaylistName
    ensures r.Some? ==>
              exists i :: 0 <= i < |ps| && ps[i] == r.value && ps[i].name == MetadataPlaylistName
                          && forall k :: 0 <= k < i ==> ps[k].name != MetadataPlaylistName
  {
    if ps == [] then None
    else if ps[0].name == MetadataPlaylistName then Some(ps[0])
    else
      var r := FindMetadataPlaylist(ps[1..]);
      assert forall k :: 1 <= k < |ps| ==> ps[k] == ps[1..][k - 1];
      if r.Some? then
        var i :| 0 <= i < |ps[1..]| && ps[1..][i] == r.value && ps[1..][i].name == MetadataPlaylistName
                 && forall k :: 0 <= k < i ==> ps[1..][k].name != MetadataPlaylistName;
        assert ps[i + 1] == r.value;
        r
      else r
  }

  /**
   `getMetadataPlaylistDescription`: the parsed description, or the empty
   record `{}` when the description is absent, empty or does not parse.
   */
  function MetadataDescription(meta: Playlist, parse: string -> Option<Json>): (r: Json)
    ensures (meta.description.None? || meta.description.value == "" || parse(meta.description.value).None?) ==>
              r == JObject(map[])
    ensures meta.description.Some? && meta.description.value != "" && parse(meta.description.value).Some? ==>
              r == parse(meta.description.value).value
  {
    match ParsedDescription(meta, parse)
    case None => JObject(map[])
    case Some(record) => record
  }

  /**
   The record `updatePlaylistSnapshotHash` serializes: the stored record with
   `global_hash` set to the fingerprint of `synced`, every other field kept.
   */
  function UpdatedRecord(meta: Playlist, synced: seq<Playlist>, parse: string -> Option<Json>, md5: string -> string)
    : (r: Result<Json, TypeError>)
    ensures var record := MetadataDescription(meta, parse);
            && (r.Err? <==> !record.JObject? && !record.JArray?)
            && (record.JArray? ==> r == Ok(record))
            && (record.JObject? ==>
                  && r.Ok? && r.value.JObject?
                  && r.value.fields.Keys == record.fields.Keys + {KeyName(GlobalHash)}
                  && r.value.fields[KeyName(GlobalHash)] == JString(Fingerprint.ComputeSnapshotHash(synced, md5).hash)
                  && forall k :: k in record.fields && k != KeyName(GlobalHash) ==> r.value.fields[k] == record.fields[k])
  {
    var record := MetadataDescription(meta, parse);
    var hash := Fingerprint.ComputeSnapshotHash(synced, md5).hash;
    Assign(record, GlobalHash, JString(hash))
  }

  /** `updatePlaylistSnapshotHash`: the description text sent to `playlists.edit`, `stringify` standing for `JSON.stringify`. */
  function UpdateSnapshotHash(
    meta: Playlist, synced: seq<Playlist>, parse: string -> Option<Json>, stringify: Json -> string, md5: string -> string)
    : (r: Result<string, TypeError>)
    ensures r.Ok? <==> UpdatedRecord(meta, synced, parse, md5).Ok?
    ensures r.Ok? ==> r.value == stringify(UpdatedRecord(meta, synced, parse, md5).value)
  {
    match UpdatedRecord(meta, synced, parse, md5)
    case Err(e) => Err(e)
    case Ok(record) => Ok(stringify(record))
  }

  /** A metadata playlist without a usable description gets a record holding the global hash alone. */
  lemma FirstUpdateStoresOnlyHash(meta: Playlist, synced: seq<Playlist>, parse: string -> Option<Json>, md5: string -> string)
    requires meta.description.None? || meta.description.value == "" || parse(meta.description.value).None?
    ensures UpdatedRecord(meta, synced, parse, md5)
            == Ok(JObject(map[KeyName(GlobalHash) := JString(Fingerprint.ComputeSnapshotHash(synced, md5).hash)]))
  {
  }

  /**
   Reading back what an update wrote: provided the serialized record parses
   back to itself, the next read finds the new hash under `global_hash`.
   */
  lemma UpdateThenRead(
    meta: Playlist, synced: seq<Playlist>, parse: string -> Option<Json>, stringify: Json -> string, md5: string -> string)
    requires MetadataDescription(meta, parse).JObject?
    requires var text := stringify(UpdatedRecord(meta, synced, parse, md5).value);
             text != "" && parse(text) == Some(UpdatedRecord(meta, synced, parse, md5).value)
    ensures var written := UpdateSnapshotHash(meta, synced, parse, stringify, md5);
            && written.Ok?
            && Lookup(MetadataDescription(meta.(description := Some(written.value)), parse), GlobalHash)
               == Ok(Some(JString(Fingerprint.ComputeSnapshotHash(synced, md5).hash)))
  {
  }
}
