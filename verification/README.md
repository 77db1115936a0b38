# Reverse-playlist sync, modelled in Dafny

This project models the core of `src/server.ts`. That program keeps a user's
Spotify playlists ordered with the most recently added track first. It has
four parts, and each is a Dafny module:

- **Reorder** (`reorder.dfy`) models `processPlaylist`.
  - It tags every fetched track with its position and sorts the tags by
    date added, newest first.
  - It then repeatedly finds the first position whose tag is not its own
    index. It asks for that entry to be moved there (`reorderItems` with
    `rangeStart`/`insertBefore`), mirrors the move on its in-memory copy
    with two `splice` calls, and re-sorts.
- **Fingerprint** (`fingerprint.dfy`) models `computePlaylistSnapshotHash`:
  - sort the playlists by id;
  - join their snapshot ids with `,`;
  - digest the text with MD5.
- **Metadata** (`metadata.dfy`, with `json.dfy` and `playlists.dfy`) models
  the record kept in the description of the `reverse_playlist_metadata`
  playlist:
  - finding that playlist;
  - reading the record, where an absent, empty or unparseable description
    gives `{}`;
  - writing `global_hash` back.
- **Selection** (`selection.dfy`) models `getPlaylistsToUpdate`:
  - keep the playlists whose description parses to a value whose
    `reverse_playlist_enabled` is exactly `true`;
  - return `[]` when the stored `global_hash` equals the fingerprint of that
    list.

Foreign code is passed in as function-valued parameters, with no assumptions
about it:

- `md5` stands for MD5;
- `parse` stands for `he.decode` followed by `JSON.parse`, with `None` where
  the parse throws;
- `stringify` stands for `JSON.stringify`.

The remote calls are left out. The model starts from the tracks or
playlists they return and ends with the requests and the text they would
send.

The reorder proof works as follows:

- `IsStableOrder` is a reference definition of the target order. It is the
  index permutation ordered by later date first, with equal dates kept in
  their current order.
- `StableOrderUnique` shows that such an order is unique. So the insertion
  sort used here agrees with any stable sort, including the engine's own
  `Array.prototype.sort`.
- Each backward move relabels that order (`MoveRelabelsStableOrder`). So the
  sorted view of the tracks never changes, and each move settles one more
  position. That gives termination, at most n−1 moves, and a final list
  equal to the stable newest-first sort.

## Model

| member | source | states |
|---|---|---|
| `Reorder.ProcessPlaylist` | src/server.ts:114-142 | The final tracks are the stable newest-first sort of the input and a permutation of it. Their position i holds the input entry the stable order puts at i. There are at most n−1 requests, each with `0 <= insertBefore < rangeStart < n`. Replaying the requests on the input gives the final tracks. An input already newest-first issues no request. The ghost `lastSnapshot` is the original snapshot id followed by one link per request, in order. |
| `Reorder.Tag` | src/server.ts:121 | Every track gets a tag carrying its own position, its `addedAt` time and its name; one tag per track. |
| `Reorder.IndexDateTracks` | src/server.ts:121 | The sorted tags are a permutation of the position tags, and they are ordered: later date first, equal dates by ascending index. |
| `Reorder.SortIsStable` | src/server.ts:121 | Sorting tags listed in ascending index order with the comparator `b.date - a.date` yields the stable order: newest first, ties kept in input order. |
| `Reorder.InsertKeepsOrdered` | src/server.ts:121 | Inserting a tag whose index precedes all others into an ordered list keeps it ordered. |
| `Reorder.SortByDateDesc` | src/server.ts:121 | The sort returns a permutation of its input, of the same length. |
| `Reorder.Order` | src/server.ts:121 | The indices the sorted tags carry form the stable order of the tracks. Every position appears exactly once, ordered by `Precedes`. |
| `Reorder.StableOrderUnique` | src/server.ts:121 | Two index lists that are both stable orders of the same tracks are equal, so every stable sort gives the same result. |
| `Reorder.SortedTracks` | src/server.ts:121 | The tracks arranged by the stable order keep their length and read newest first. |
| `Reorder.SortedIffIdentity` | src/server.ts:127-132 | The tracks are already newest first if and only if the stable order is the identity, that is, the scan finds no mismatch. |
| `Reorder.FindMismatch` | src/server.ts:128-130 | Returns -1 exactly when every tag sits at its own index. Otherwise it returns the first position whose tag index differs, with every earlier position matching. |
| `Reorder.MismatchReadsOrder` | src/server.ts:128-133 | The scan of the sorted tags reads the stable order: -1 if and only if that order is the identity. Otherwise it is the first position the order does not fix, and `foundItem.index` is the index that belongs there. |
| `Reorder.FirstMismatchIsBehind` | src/server.ts:132-135 | When the positions before `found` are settled, the entry that belongs at `found` sits strictly after it, so `rangeStart > insertBefore`. |
| `Reorder.Remove` | src/server.ts:137 | `splice(rangeStart, 1)` leaves one entry fewer. |
| `Reorder.RemoveShifts` | src/server.ts:137 | After `splice(i, 1)` the entries before `i` are unchanged, the later ones move one place left, and exactly the entry at `i` is gone from the multiset. |
| `Reorder.InsertAt` | src/server.ts:138 | `splice(insertBefore, 0, item)` adds one entry and puts `item` at `insertBefore`. |
| `Reorder.InsertAtShifts` | src/server.ts:138 | After `splice(i, 0, x)` the entries before `i` are unchanged, the rest move one place right, and the multiset gains exactly `x`. |
| `Reorder.ApplyMove` | src/server.ts:137-138 | The two splices keep the length of the tracks and put the removed item at `insertBefore`. |
| `Reorder.ApplyMovePermutes` | src/server.ts:137-138 | The two splices neither lose nor duplicate a track: the result is a permutation of the tracks. |
| `Reorder.ApplyMoveBackward` | src/server.ts:137-138 | For a backward move, positions outside `insertBefore..rangeStart` are unchanged and the range shifts one place right. |
| `Reorder.ApplyMoveForward` | src/server.ts:137-138 | The general splice pair, for completeness, though the loop only issues backward moves. For a forward move, positions outside `rangeStart..insertBefore` are unchanged and the range shifts one place left. |
| `Reorder.ApplyMoveShift` | src/server.ts:137-138 | The entry at index m ends up at `Shift(m, insertBefore, rangeStart)` after a backward move. |
| `Reorder.MoveRelabelsStableOrder` | src/server.ts:137-139 | After the move, the stable order of the new tracks is the old one with every index relabelled by `Shift`. |
| `Reorder.MoveKeepsArrangement` | src/server.ts:137-139 | The moved tracks arranged by the relabelled order are the tracks arranged by the old order. |
| `Reorder.ReorderStep` | src/server.ts:132-139 | One iteration moves backward, leaves the sorted view of the tracks unchanged, and settles every position up to and including `found`. |
| `Reorder.ThreeTrackExample` | src/server.ts:121-141 | Tracks added at times 3, 1, 2: the first scan stops at 1 with index 2, the single request is `{rangeStart: 2, insertBefore: 1}`, and the next scan finds nothing. |
| `Fingerprint.IdLessTransitive` | src/server.ts:97 | The stand-in for `localeCompare` is transitive; with `IdLessTotal`, `IdLessAsymmetric` and `IdLessIrreflexive` it is a strict total order. |
| `Fingerprint.InsertByIdKeepsSorted` | src/server.ts:97 | Inserting into an id-sorted list keeps it id-sorted. |
| `Fingerprint.SortById` | src/server.ts:97 | The in-place sort returns a permutation of the playlists, sorted by id. |
| `Fingerprint.IdSortedUnique` | src/server.ts:97 | Two id-sorted lists holding the same playlists, with no id shared by two of them, are equal. |
| `Fingerprint.ComputeSnapshotHash` | src/server.ts:96-102 | The caller's list ends up a permutation of itself, sorted by id. The hash is `md5` of the snapshot ids of that sorted list joined with `,`, so the empty list hashes to `md5("")`. |
| `Fingerprint.HashIgnoresListingOrder` | src/server.ts:96-102 | Two listings of the same playlists, with no id shared by two of them, give the same sorted list and the same hash. |
| `Fingerprint.SnapshotIds` | src/server.ts:97-100 | The mapped list has one entry per playlist, its snapshot id, in the same order. |
| `Fingerprint.Join` | src/server.ts:101 | `join(',')` of no pieces is empty. Otherwise it starts with the first piece, and with two or more pieces a comma follows the first. |
| `Fingerprint.HashInput` | src/server.ts:97-101 | The digested text of no playlists is empty, and that of one playlist is its snapshot id alone. |
| `Fingerprint.JoinSplit` | src/server.ts:101 | Splitting a text at commas and joining the pieces with `,` gives the text back. |
| `Fingerprint.SplitJoin` | src/server.ts:101 | Joining one or more comma-free pieces with `,` and splitting at commas gives the pieces back. |
| `Fingerprint.HashInputRecoversSnapshots` | src/server.ts:97-101 | The digested text determines the snapshot ids in id order, for a non-empty list whose snapshot ids hold no comma. |
| `Fingerprint.SameHashInputSameSnapshots` | src/server.ts:97-101 | Equal digested texts mean equal snapshot-id sequences in id order, under the same conditions. |
| `Fingerprint.IdsNotDigested` | src/server.ts:97-99 | Playlist ids are not part of the digested text: two one-playlist lists that differ only in id digest the same text. |
| `Json.Lookup` | src/server.ts:76 | Reading a property throws exactly on `null`. An object yields its own field or `undefined`; arrays and primitives yield `undefined`. |
| `Json.Assign` | src/server.ts:109 | Writing throws exactly on `null` and primitives. An array serializes unchanged. An object gains or replaces that one field and keeps every other. |
| `Json.AssignThenLookup` | src/server.ts:109 | Reading back a property written into an object yields the value written; the other property reads as before. |
| `Playlists.ParsedDescription` | src/server.ts:53-55 | An absent or empty description is not parsed. Otherwise the result is the decode-and-parse of the text. |
| `Metadata.FindMetadataPlaylist` | src/server.ts:31-33 | The result is `None` exactly when no playlist is named `reverse_playlist_metadata`. Otherwise it is the first playlist with that name. |
| `Metadata.MetadataDescription` | src/server.ts:50-62 | An absent, empty or unparseable description gives `{}`. Otherwise the result is the parsed value. |
| `Metadata.UpdatedRecord` | src/server.ts:104-109 | Setting `global_hash` throws exactly when the record is neither an object nor an array, and leaves an array record unchanged. An object record gets `global_hash` set to the fingerprint of the synced playlists and keeps every other field. |
| `Metadata.UpdateSnapshotHash` | src/server.ts:104-111 | The description sent is the serialization of the updated record, and it exists exactly when the update does not throw. |
| `Metadata.FirstUpdateStoresOnlyHash` | src/server.ts:104-111 | A metadata playlist without a usable description gets the record `{global_hash: hash}` and nothing else. |
| `Metadata.UpdateThenRead` | src/server.ts:104-111 | If the serialized record parses back to itself, the next read of the metadata finds the new hash under `global_hash`. |
| `Selection.Enabled` | src/server.ts:70-81 | The filter callback accepts a playlist exactly when its description is present, parses to an object, and that object's `reverse_playlist_enabled` is the boolean `true`; every other case, throws included, is `false`. |
| `Selection.EligiblePlaylists` | src/server.ts:69-82 | A playlist is kept exactly when it is listed and its description parses to a value whose `reverse_playlist_enabled` is exactly `true`. |
| `Selection.EligibleDistributes` | src/server.ts:69-82 | The filter keeps listing order: filtering a concatenation concatenates the filtered parts. |
| `Selection.SelectsOnlyOptedIn` | src/server.ts:69-82 | Of playlists opted in, opted out, without description, and with an unparseable description, only the first is kept. |
| `Selection.PlaylistsToUpdate` | src/server.ts:64-94 | A `null` record throws; this is exactly the error case. A stored hash equal to the fingerprint of the eligible playlists gives `[]`. Otherwise the result is the eligible playlists sorted by id. |
| `Selection.SkipAfterUpdate` | src/server.ts:84-111 | After the hash of the synced playlists is written into an object record that reads back intact, a run whose eligible playlists are the same ones (any order, ids distinct) returns `[]`. |

## Left out

- The Express routes, the OAuth exchange, the client credentials and `generateRandomString` (src/server.ts:9-21, 144-203) are left out. They are I/O and randomness around the core.
- The paginated track fetch (src/server.ts:116-119) is left out. `ProcessPlaylist` starts from the fetched tracks.
- The `reorderItems` request (src/server.ts:135) is left out. It is recorded as a `Move` in the request log, together with a ghost `SnapshotToken` chain standing for the returned snapshot ids. The remote playlist itself is not modelled, so the token is not checked against it.
- Creating the metadata playlist when none exists (src/server.ts:35-45) is a remote call and is left out. `FindMetadataPlaylist` returns `None` in that case.
- MD5, `he.decode`, `JSON.parse` and `JSON.stringify` are function parameters with no stated properties. `UpdateThenRead` and `SkipAfterUpdate` require that the serialized record parses back to itself.
- `IdLess` is a code-point lexicographic order standing for `localeCompare`, whose locale collation is not modelled. The proofs use only its strict-total-order laws.
- `Track.addedAt` is an integer timestamp. Parsing `addedAt` into a `Date`, and the `NaN` comparator values an unparseable date would produce, are not modelled.
- JSON numbers are integers in `Json.Json`. Lookup and assignment cover only the two property names the program uses.
- `Reorder.ApplyMove` requires both positions to be in range. `splice`'s clamping of out-of-range positions is not modelled; the loop only ever issues in-range positions.
- The callback (src/server.ts:188-196) is left out because it is concurrency. It starts `processPlaylist` for every selected playlist without awaiting it. When the list is non-empty, it then writes the hash of the list, whether or not the reorders succeed. `SkipAfterUpdate` states the skip for the playlists whose hash was written.
- `Fingerprint.HashIgnoresListingOrder` requires that no two different playlists share an id. Otherwise the comparator cannot order them, and two listings may sort them differently.

## Behaviour that follows the code

- The fingerprint digests only the snapshot ids, in id order; the playlist ids are not digested (`IdsNotDigested`). Two different playlist sets whose sorted snapshot ids coincide therefore hash alike.
- A metadata record that parses to an array accepts the `global_hash` write, but serializes without it, so its hash is never stored. A record that parses to a primitive other than `null` makes the write throw, since the compiled module runs in strict mode. A `null` record makes both the read (src/server.ts:86) and the write throw.
- When the stored hash matches, `getPlaylistsToUpdate` returns `[]`. Otherwise it returns the opted-in playlists in id order, because `computePlaylistSnapshotHash` sorts the filtered list in place.
