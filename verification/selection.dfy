/**
 `getPlaylistsToUpdate`: keep the playlists whose description opts in,
 fingerprint them, and return nothing when the stored fingerprint matches.
 */
module Selection {
  import opened Wrappers
  import opened Json
  import opened Playlists
  import opened Fingerprint
  import opened Metadata

  /**
   The filter callback: the description exists, parses, and its
   `reverse_playlist_enabled` is strictly `true`; every throw is caught as `false`.
   */
  predicate Enabled(p: Playlist, parse: string -> Option<Json>): (r: bool)
    ensures r <==> && ParsedDescription(p, parse).Some?
                   && ParsedDescription(p, parse).value.JObject?
                   && KeyName(ReversePlaylistEnabled) in ParsedDescription(p, parse).value.fields
                   && ParsedDescription(p, parse).value.fields[KeyName(ReversePlaylistEnabled)] == JBool(true)
  {
    match ParsedDescription(p, parse)
    case None => false
    case Some(description) => Lookup(description, ReversePlaylistEnabled) == Ok(Some(JBool(true)))
  }

  /** `playlists.filter(...)`: the opted-in playlists, in listing order. */
  function EligiblePlaylists(ps: seq<Playlist>, parse: string -> Option<Json>): (r: seq<Playlist>)
    ensures forall p :: p in r <==> p in ps && Enabled(p, parse)
    ensures |r| <= |ps|
  {
    if ps == [] then []
    else
      assert forall p :: p in ps <==> p == ps[0] || p in ps[1..];
      (if Enabled(ps[0], parse) then [ps[0]] else []) + EligiblePlaylists(ps[1..], parse)
  }

  /** The filter keeps listing order: filtering a concatenation concatenates the filtered parts. */
  lemma {:induction false} EligibleDistributes(a: seq<Playlist>, b: seq<Playlist>, parse: string -> Option<Json>)
    ensures EligiblePlaylists(a + b, parse) == EligiblePlaylists(a, parse) + EligiblePlaylists(b, parse)
  {
    if a != [] {
      assert (a + b)[1..] == a[1..] + b;
      EligibleDistributes(a[1..], b, parse);
    } else {
      assert a + b == b;
    }
  }

  /** The stored `global_hash` is the fingerprint of `eligible`. */
  predicate StoredHashMatches(record: Json, eligible: seq<Playlist>, md5: string -> string) {
    Lookup(record, GlobalHash) == Ok(Some(JString(ComputeSnapshotHash(eligible, md5).hash)))
  }

  /**
   `getPlaylistsToUpdate` after the listing and the metadata playlist are
   fetched: `[]` when the stored hash matches, otherwise the opted-in
   playlists in id order (the hash computation sorted them in place). Reading
   `global_hash` from a `null` record throws.
   */
  function PlaylistsToUpdate(
    playlists: seq<Playlist>, meta: Playlist, parse: string -> Option<Json>, md5: string -> string)
    : (r: Result<seq<Playlist>, TypeError>)
    ensures var record := MetadataDescription(meta, parse);
            var eligible := EligiblePlaylists(playlists, parse);
            && (r.Err? <==> record.JNull?)
            && (r.Ok? && StoredHashMatches(record, eligible, md5) ==> r.value == [])
            && (r.Ok? && !StoredHashMatches(record, eligible, md5) ==>
                  multiset(r.value) == multiset(eligible) && IdSorted(r.value))
  {
    var record := MetadataDescription(meta, parse);
    var list := EligiblePlaylists(playlists, parse);
    var computed := ComputeSnapshotHash(list, md5);
    match Lookup(record, GlobalHash)
    case Err(e) => Err(e)
    case Ok(stored) => if stored == Some(JString(computed.hash)) then Ok([]) else Ok(computed.sorted)
  }

  /**
   Skip on the next run: once the hash of `synced` is written into an object
   record that reads back intact, a run whose opted-in playlists are the
   same playlists, in any listing order, returns `[]`.
   */
  lemma SkipAfterUpdate(
    playlists: seq<Playlist>, synced: seq<Playlist>, meta: Playlist,
    parse: string -> Option<Json>, stringify: Json -> string, md5: string -> string)
    requires MetadataDescription(meta, parse).JObject?
    requires var text := stringify(UpdatedRecord(meta, synced, parse, md5).value);
             text != "" && parse(text) == Some(UpdatedRecord(meta, synced, parse, md5).value)
    requires multiset(EligiblePlaylists(playlists, parse)) == multiset(synced)
    requires IdsIdentify(synced)
    ensures var written := UpdateSnapshotHash(meta, synced, parse, stringify, md5);
            && written.Ok?
            && PlaylistsToUpdate(playlists, meta.(description := Some(written.value)), parse, md5) == Ok([])
  {
    var eligible := EligiblePlaylists(playlists, parse);
    HashIgnoresListingOrder(synced, eligible, md5);
    UpdateThenRead(meta, synced, parse, stringify, md5);
  }

  /**
   The example of the four playlists: opted in, opted out, no description,
   and a description that does not parse; only the first is kept.
   */
  lemma SelectsOnlyOptedIn(on: Playlist, off: Playlist, bare: Playlist, broken: Playlist, parse: string -> Option<Json>)
    requires on.description.Some? && on.description.value != ""
    requires parse(on.description.value) == Some(JObject(map[KeyName(ReversePlaylistEnabled) := JBool(true)]))
    requires off.description.Some? && off.description.value != ""
    requires parse(off.description.value) == Some(JObject(map[KeyName(ReversePlaylistEnabled) := JBool(false)]))
    requires bare.description.None?
    requires broken.description.Some? && parse(broken.description.value).None?
    ensures EligiblePlaylists([on, off, bare, broken], parse) == [on]
  {
    assert [on, off, bare, broken][1..] == [off, bare, broken];
    assert [off, bare, broken][1..] == [bare, broken];
    assert [bare, broken][1..] == [broken];
    assert Enabled(on, parse);
    assert !Enabled(off, parse);
    assert !Enabled(bare, parse);
    assert !Enabled(broken, parse);
    assert EligiblePlaylists([broken], parse) == [];
    assert EligiblePlaylists([bare, broken], parse) == [];
    assert EligiblePlaylists([off, bare, broken], parse) == [];
  }
}
