/**
 `computePlaylistSnapshotHash`: sort the playlists by id, join their
 snapshot ids with commas and digest the text.
 */
module Fingerprint {
  import opened Wrappers
  import opened Playlists

  // ---------------------------------------------------------------------------
  // The id order
  // ---------------------------------------------------------------------------

  /** Stand-in for `a.localeCompare(b) < 0`: lexicographic order on character codes. */
  predicate IdLess(a: string, b: string)
    decreases |a|
  {
    if |a| == 0 then |b| > 0
    else if |b| == 0 then false
    else if a[0] != b[0] then a[0] < b[0]
    else IdLess(a[1..], b[1..])
  }

  lemma {:induction false} IdLessIrreflexive(a: string)
    ensures !IdLess(a, a)
    decreases |a|
  {
    if |a| > 0 {
      IdLessIrreflexive(a[1..]);
    }
  }

  lemma {:induction false} IdLessTotal(a: string, b: string)
    ensures a == b || IdLess(a, b) || IdLess(b, a)
    decreases |a|
  {
    if |a| > 0 && |b| > 0 && a[0] == b[0] {
      IdLessTotal(a[1..], b[1..]);
      if a[1..] == b[1..] {
        assert a == [a[0]] + a[1..] && b == [b[0]] + b[1..];
      }
    }
  }

  lemma {:induction false} IdLessAsymmetric(a: string, b: string)
    ensures IdLess(a, b) ==> !IdLess(b, a)
    decreases |a|
  {
    if |a| > 0 && |b| > 0 && a[0] == b[0] {
      IdLessAsymmetric(a[1..], b[1..]);
    }
  }

  lemma {:induction false} IdLessTransitive(a: string, b: string, c: string)
    requires IdLess(a, b) && IdLess(b, c)
    ensures IdLess(a, c)
    decreases |a|
  {
    if |a| > 0 && a[0] == b[0] && b[0] == c[0] {
      IdLessTransitive(a[1..], b[1..], c[1..]);
    }
  }

  /** `b` does not sort before `a`: `a.localeCompare(b) <= 0`. */
  predicate IdAtMost(a: string, b: string) {
    !IdLess(b, a)
  }

  lemma IdAtMostTransitive(a: string, b: string, c: string)
    requires IdAtMost(a, b) && IdAtMost(b, c)
    ensures IdAtMost(a, c)
  {
    IdLessTotal(a, b);
    IdLessTotal(b, c);
    if IdLess(a, b) && IdLess(b, c) {
      IdLessTransitive(a, b, c);
      IdLessAsymmetric(a, c);
    } else if a == b && b == c {
      IdLessIrreflexive(a);
    }
  }

  ghost predicate IdSorted(ps: seq<Playlist>) {
    forall i, k :: 0 <= i < k < |ps| ==> IdAtMost(ps[i].id, ps[k].id)
  }

  /** No two different playlists of `ps` share an id. */
  ghost predicate IdsIdentify(ps: seq<Playlist>) {
    forall x, y | x in ps && y in ps :: x.id == y.id ==> x == y
  }

  // ---------------------------------------------------------------------------
  // The in-place sort
  // ---------------------------------------------------------------------------

  /** Puts `x`, which came before every element of `sorted`, in front of the first element whose id is not smaller. */
  function InsertById(x: Playlist, sorted: seq<Playlist>): (r: seq<Playlist>)
    ensures multiset(r) == multiset(sorted) + multiset{x}
  {
    if sorted == [] || IdAtMost(x.id, sorted[0].id) then [x] + sorted
    else
      assert sorted == [sorted[0]] + sorted[1..];
      [sorted[0]] + InsertById(x, sorted[1..])
  }

  lemma ConsIdSorted(x: Playlist, t: seq<Playlist>)
    requires IdSorted(t)
    requires forall k :: 0 <= k < |t| ==> IdAtMost(x.id, t[k].id)
    ensures IdSorted([x] + t)
  {
    var r := [x] + t;
    assert forall k :: 1 <= k < |r| ==> r[k] == t[k - 1];
  }

  lemma {:induction false} InsertByIdKeepsSorted(x: Playlist, sorted: seq<Playlist>)
    requires IdSorted(sorted)
    ensures IdSorted(InsertById(x, sorted))
    decreases |sorted|
  {
    if sorted == [] || IdAtMost(x.id, sorted[0].id) {
      forall k | 0 <= k < |sorted| ensures IdAtMost(x.id, sorted[k].id) {
        if k > 0 {
          IdAtMostTransitive(x.id, sorted[0].id, sorted[k].id);
        }
      }
      ConsIdSorted(x, sorted);
    } else {
      var rest := sorted[1..];
      assert forall k :: 0 <= k < |rest| ==> rest[k] == sorted[k + 1];
      InsertByIdKeepsSorted(x, rest);
      var t := InsertById(x, rest);
      IdLessAsymmetric(sorted[0].id, x.id);
      forall k | 0 <= k < |t| ensures IdAtMost(sorted[0].id, t[k].id) {
        assert t[k] in multiset(t);
        if t[k] != x {
          assert t[k] in multiset(rest);
          var m :| 0 <= m < |rest| && rest[m] == t[k];
          assert sorted[m + 1] == t[k];
        }
      }
      ConsIdSorted(sorted[0], t);
    }
  }

  /** `playlists.sort((a, b) => a.id.localeCompare(b.id))`: a stable sort by id. */
  function SortById(ps: seq<Playlist>): (r: seq<Playlist>)
    ensures multiset(r) == multiset(ps)
    ensures |r| == |ps|
    ensures IdSorted(r)
  {
    if ps == [] then []
    else
      assert ps == [ps[0]] + ps[1..];
      var rest := SortById(ps[1..]);
      InsertByIdKeepsSorted(ps[0], rest);
      InsertById(ps[0], rest)
  }

  /** Two id-sorted non-empty lists holding the same playlists, no two different ones sharing an id, start alike. */
  lemma IdSortedHeads(a: seq<Playlist>, b: seq<Playlist>)
    requires IdSorted(a) && IdSorted(b)
    requires multiset(a) == multiset(b)
    requires IdsIdentify(a)
    requires |a| > 0 && |b| > 0
    ensures a[0] == b[0]
  {
    assert a[0] in multiset(b);
    var k :| 0 <= k < |b| && b[k] == a[0];
    assert b[0] in multiset(a);
    var k' :| 0 <= k' < |a| && a[k'] == b[0];
    IdLessIrreflexive(a[0].id);
    IdLessIrreflexive(b[0].id);
    assert IdAtMost(b[0].id, a[0].id) by {
      if k > 0 {
        assert IdAtMost(b[0].id, b[k].id);
      }
    }
    assert IdAtMost(a[0].id, b[0].id) by {
      if k' > 0 {
        assert IdAtMost(a[0].id, a[k'].id);
      }
    }
    IdLessTotal(a[0].id, b[0].id);
    assert b[0] in a;
  }

  lemma IdSortedTail(a: seq<Playlist>)
    requires |a| > 0
    requires IdSorted(a)
    ensures IdSorted(a[1..])
    ensures multiset(a[1..]) == multiset(a) - multiset{a[0]}
  {
    assert a == [a[0]] + a[1..];
    assert multiset(a) == multiset{a[0]} + multiset(a[1..]);
    assert forall i, j :: 0 <= i < j < |a[1..]| ==> a[1..][i] == a[i + 1] && a[1..][j] == a[j + 1];
  }

  lemma IdsIdentifyTail(a: seq<Playlist>)
    requires |a| > 0
    requires IdsIdentify(a)
    ensures IdsIdentify(a[1..])
  {
    forall x, y | x in a[1..] && y in a[1..] ensures x.id == y.id ==> x == y {
      assert x in a && y in a;
    }
  }

  /** Two id-sorted lists holding the same playlists, no two different ones sharing an id, are equal. */
  lemma {:induction false} IdSortedUnique(a: seq<Playlist>, b: seq<Playlist>)
    requires IdSorted(a) && IdSorted(b)
    requires multiset(a) == multiset(b)
    requires IdsIdentify(a)
    ensures a == b
    decreases |a|
  {
    assert |a| == |multiset(a)| == |multiset(b)| == |b|;
    if a != [] {
      IdSortedHeads(a, b);
      IdSortedTail(a);
      IdSortedTail(b);
      IdsIdentifyTail(a);
      IdSortedUnique(a[1..], b[1..]);
      assert a == [a[0]] + a[1..] && b == [b[0]] + b[1..];
    }
  }

  // ---------------------------------------------------------------------------
  // Join and its inverse
  // ---------------------------------------------------------------------------

  /** `parts.join(',')`. */
  function Join(parts: seq<string>): (r: string)
    ensures parts == [] ==> r == ""
    ensures |parts| >= 1 ==> parts[0] <= r
    ensures |parts| >= 2 ==> |parts[0]| < |r| && r[|parts[0]|] == ','
  {
    if |parts| == 0 then ""
    else if |parts| == 1 then parts[0]
    else parts[0] + "," + Join(parts[1..])
  }

  /** `text.split(',')`: the comma-free pieces between commas. */
  function Split(text: string): (parts: seq<string>)
    ensures |parts| >= 1
  {
    if text == [] then [""]
    else
      var rest := Split(text[1..]);
      if text[0] == ',' then [""] + rest
      else [[text[0]] + rest[0]] + rest[1..]
  }

  /** Joining the pieces of a split gives back the text. */
  lemma {:induction false} JoinSplit(text: string)
    ensures Join(Split(text)) == text
  {
    if text != [] {
      var rest := Split(text[1..]);
      JoinSplit(text[1..]);
      if text[0] == ',' {
        assert ([""] + rest)[1..] == rest;
      } else {
        var parts := [[text[0]] + rest[0]] + rest[1..];
        if |rest| > 1 {
          assert parts[1..] == rest[1..];
          assert Join(rest) == rest[0] + "," + Join(rest[1..]);
        }
      }
      assert text == [text[0]] + text[1..];
    }
  }

  lemma {:induction false} SplitCommaFree(x: string, tail: seq<string>, after: string)
    requires ',' !in x
    requires Split(after) == tail
    ensures Split(x + "," + after) == [x] + tail
    ensures Split(x) == [x]
    decreases |x|
  {
    if x != [] {
      SplitCommaFree(x[1..], tail, after);
      assert (x + "," + after)[1..] == x[1..] + "," + after;
      assert [x[0]] + x[1..] == x;
    } else {
      assert ("" + "," + after)[1..] == after;
    }
  }

  /** Splitting a join of at least one comma-free piece gives back the pieces. */
  lemma {:induction false} SplitJoin(parts: seq<string>)
    requires |parts| >= 1
    requires forall i :: 0 <= i < |parts| ==> ',' !in parts[i]
    ensures Split(Join(parts)) == parts
  {
    if |parts| == 1 {
      SplitCommaFree(parts[0], Split(""), "");
    } else {
      SplitJoin(parts[1..]);
      SplitCommaFree(parts[0], parts[1..], Join(parts[1..]));
    }
  }

  // ---------------------------------------------------------------------------
  // The fingerprint
  // ---------------------------------------------------------------------------

  /** `.map(x => x.snapshotID)`. */
  function SnapshotIds(ps: seq<Playlist>): (ids: seq<string>)
    ensures |ids| == |ps|
    ensures forall i :: 0 <= i < |ps| ==> ids[i] == ps[i].snapshotId
  {
    seq(|ps|, i requires 0 <= i < |ps| => ps[i].snapshotId)
  }

  /** The text that gets digested: the snapshot ids in id order, comma-separated; the ids themselves are left out. */
  function HashInput(ps: seq<Playlist>): (text: string)
    ensures ps == [] ==> text == ""
    ensures |ps| == 1 ==> text == ps[0].snapshotId
  {
    Join(SnapshotIds(SortById(ps)))
  }

  /** The caller's list after the in-place sort, and the digest. */
  datatype SnapshotHash = SnapshotHash(sorted: seq<Playlist>, hash: string)

  /** `computePlaylistSnapshotHash` with `md5` standing for `MD5(text).toString()`. */
  function ComputeSnapshotHash(ps: seq<Playlist>, md5: string -> string): (r: SnapshotHash)
    ensures multiset(r.sorted) == multiset(ps)
    ensures IdSorted(r.sorted)
    ensures r.hash == md5(Join(SnapshotIds(r.sorted)))
    ensures ps == [] ==> r.hash == md5("")
  {
    SnapshotHash(SortById(ps), md5(HashInput(ps)))
  }

  /**
   The fingerprint does not depend on the order the playlists were listed in:
   two listings of the same playlists, no two sharing an id, sort alike and
   hash alike.
   */
  lemma HashIgnoresListingOrder(a: seq<Playlist>, b: seq<Playlist>, md5: string -> string)
    requires multiset(a) == multiset(b)
    requires IdsIdentify(a)
    ensures ComputeSnapshotHash(a, md5) == ComputeSnapshotHash(b, md5)
  {
    var sa, sb := SortById(a), SortById(b);
    forall x, y | x in sa && y in sa ensures x.id == y.id ==> x == y {
      assert x in multiset(a) && y in multiset(a);
    }
    IdSortedUnique(sa, sb);
  }

  /**
   The digested text determines the snapshot ids in id order, provided there
   is at least one playlist and no snapshot id contains a comma.
   */
  lemma HashInputRecoversSnapshots(ps: seq<Playlist>)
    requires |ps| >= 1
    requires forall p | p in ps :: ',' !in p.snapshotId
    ensures Split(HashInput(ps)) == SnapshotIds(SortById(ps))
  {
    var sorted := SortById(ps);
    forall i | 0 <= i < |sorted| ensures ',' !in SnapshotIds(sorted)[i] {
      assert sorted[i] in multiset(ps);
    }
    SplitJoin(SnapshotIds(sorted));
  }

  /** Consequently equal digested texts mean equal snapshot ids in id order. */
  lemma SameHashInputSameSnapshots(a: seq<Playlist>, b: seq<Playlist>)
    requires |a| >= 1 && |b| >= 1
    requires forall p | p in a :: ',' !in p.snapshotId
    requires forall p | p in b :: ',' !in p.snapshotId
    requires HashInput(a) == HashInput(b)
    ensures SnapshotIds(SortById(a)) == SnapshotIds(SortById(b))
  {
    HashInputRecoversSnapshots(a);
    HashInputRecoversSnapshots(b);
  }

  /** The playlist ids are not part of the digested text: renaming an id leaves the text unchanged. */
  lemma IdsNotDigested(snapshot: string)
    ensures HashInput([Playlist("a", "", snapshot, None)]) == HashInput([Playlist("b", "", snapshot, None)])
  {
  }
}
