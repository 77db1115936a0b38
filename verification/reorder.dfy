/**
 The reorder engine of `processPlaylist`: tag every track with its position,
 sort the tags most-recently-added first (stable), and repeatedly move the
 first misplaced track back to the position it belongs at, until the tags
 read 0, 1, 2, ... again.
 */
module Reorder {
  import opened Wrappers

  /** A fetched playlist entry; `addedAt` is its insertion time in milliseconds. */
  datatype Track = Track(addedAt: int, name: string)

  /** The `{index, date, name}` record the engine sorts. */
  datatype IndexedDate = IndexedDate(index: int, date: int, name: string)

  /** One `reorderItems` request: the single item at `rangeStart` goes before `insertBefore`. */
  datatype Move = Move(rangeStart: int, insertBefore: int)

  /** The playlist version token: the original one, or the one a move returned. */
  datatype SnapshotToken = Original(id: string) | AfterMove(previous: SnapshotToken, move: Move)

  // ---------------------------------------------------------------------------
  // Reference definition of the desired order
  // ---------------------------------------------------------------------------

  /** Entry `a` belongs before entry `b`: added later, or added at the same time and currently earlier. */
  predicate Precedes(s: seq<Track>, a: int, b: int) {
    && 0 <= a < |s|
    && 0 <= b < |s|
    && (s[a].addedAt > s[b].addedAt || (s[a].addedAt == s[b].addedAt && a < b))
  }

  /**
   `p` lists every current index of `s` exactly once, ordered by `Precedes`:
   the stable most-recent-first order, `p[i]` being the index that belongs at position `i`.
   */
  ghost predicate IsStableOrder(s: seq<Track>, p: seq<int>) {
    && |p| == |s|
    && (forall i :: 0 <= i < |p| ==> 0 <= p[i] < |s|)
    && (forall m :: 0 <= m < |s| ==> m in p)
    && (forall i, k :: 0 <= i < k < |p| ==> Precedes(s, p[i], p[k]))
  }

  /** Tracks read most recent first. */
  ghost predicate NonIncreasing(s: seq<Track>) {
    forall i, k :: 0 <= i < k < |s| ==> s[i].addedAt >= s[k].addedAt
  }

  function Identity(n: nat): seq<int> {
    seq(n, i => i)
  }

  /** The entries of `s` in the order the index list `p` names them. */
  function Arrange(s: seq<Track>, p: seq<int>): seq<Track>
    requires forall i :: 0 <= i < |p| ==> 0 <= p[i] < |s|
  {
    seq(|p|, i requires 0 <= i < |p| => s[p[i]])
  }

  /** A stable order is unique: any stable sort of `s` yields the same index list. */
  lemma StableOrderUnique(s: seq<Track>, p: seq<int>, q: seq<int>)
    requires IsStableOrder(s, p)
    requires IsStableOrder(s, q)
    ensures p == q
  {
    var i := 0;
    while i < |p|
      invariant 0 <= i <= |p|
      invariant forall j :: 0 <= j < i ==> p[j] == q[j]
    {
      assert q[i] in p;
      var k :| 0 <= k < |p| && p[k] == q[i];
      assert p[i] in q;
      var k' :| 0 <= k' < |q| && q[k'] == p[i];
      assert k >= i;
      assert k' >= i;
      assert p[i] == q[i];
      i := i + 1;
    }
  }

  /** A stable order never names one index twice. */
  lemma StableOrderInjective(s: seq<Track>, p: seq<int>, i: int, k: int)
    requires IsStableOrder(s, p)
    requires 0 <= i < |p| && 0 <= k < |p|
    requires p[i] == p[k]
    ensures i == k
  {
    assert !Precedes(s, p[i], p[i]);
  }

  /** The tracks are already most recent first exactly when the stable order is the identity. */
  lemma {:induction false} SortedIffIdentity(s: seq<Track>, p: seq<int>)
    requires IsStableOrder(s, p)
    ensures NonIncreasing(s) <==> p == Identity(|s|)
  {
    var id := Identity(|s|);
    if NonIncreasing(s) {
      forall m | 0 <= m < |s| ensures m in id {
        assert id[m] == m;
      }
      assert IsStableOrder(s, id);
      StableOrderUnique(s, p, id);
    }
    if p == id {
      forall i, k | 0 <= i < k < |s| ensures s[i].addedAt >= s[k].addedAt {
        assert Precedes(s, p[i], p[k]);
      }
    }
  }

  // ---------------------------------------------------------------------------
  // The sort the engine runs
  // ---------------------------------------------------------------------------

  /** `tracks.map((x, index) => {index, date, name})`. */
  function Tag(tracks: seq<Track>): (t: seq<IndexedDate>)
    ensures |t| == |tracks|
    ensures forall i :: 0 <= i < |t| ==> t[i].index == i && t[i].date == tracks[i].addedAt && t[i].name == tracks[i].name
  {
    seq(|tracks|, i requires 0 <= i < |tracks| => IndexedDate(i, tracks[i].addedAt, tracks[i].name))
  }

  /** Strict order of the sorted tags: later date first, equal dates by index. */
  predicate Before(a: IndexedDate, b: IndexedDate) {
    a.date > b.date || (a.date == b.date && a.index < b.index)
  }

  ghost predicate Ordered(t: seq<IndexedDate>) {
    forall i, k :: 0 <= i < k < |t| ==> Before(t[i], t[k])
  }

  /**
   Inserts `x`, which came before every element of `sorted` in the input,
   in front of the first element whose date it is not earlier than
   (the comparator `b.date - a.date` keeps `x` first on ties).
   */
  function Insert(x: IndexedDate, sorted: seq<IndexedDate>): (r: seq<IndexedDate>)
    ensures multiset(r) == multiset(sorted) + multiset{x}
  {
    if sorted == [] || x.date >= sorted[0].date then [x] + sorted
    else
      assert sorted == [sorted[0]] + sorted[1..];
      [sorted[0]] + Insert(x, sorted[1..])
  }

  /** A stable sort, most recent first; any stable sort gives the same result (`StableOrderUnique`). */
  function SortByDateDesc(s: seq<IndexedDate>): (r: seq<IndexedDate>)
    ensures multiset(r) == multiset(s)
    ensures |r| == |s|
  {
    if s == [] then []
    else
      assert s == [s[0]] + s[1..];
      Insert(s[0], SortByDateDesc(s[1..]))
  }

  lemma ConsOrdered(x: IndexedDate, t: seq<IndexedDate>)
    requires Ordered(t)
    requires forall k :: 0 <= k < |t| ==> Before(x, t[k])
    ensures Ordered([x] + t)
  {
    var r := [x] + t;
    assert forall k :: 1 <= k < |r| ==> r[k] == t[k - 1];
  }

  lemma {:induction false} InsertKeepsOrdered(x: IndexedDate, sorted: seq<IndexedDate>)
    requires Ordered(sorted)
    requires forall e | e in sorted :: x.index < e.index
    ensures Ordered(Insert(x, sorted))
    decreases |sorted|
  {
    if sorted == [] || x.date >= sorted[0].date {
      forall k | 0 <= k < |sorted| ensures Before(x, sorted[k]) {
        assert sorted[k] in sorted;
        if k > 0 {
          assert Before(sorted[0], sorted[k]);
        }
      }
      ConsOrdered(x, sorted);
    } else {
      var rest := sorted[1..];
      assert forall k :: 0 <= k < |rest| ==> rest[k] == sorted[k + 1];
      assert forall e | e in rest :: e in sorted;
      InsertKeepsOrdered(x, rest);
      var t := Insert(x, rest);
      forall k | 0 <= k < |t| ensures Before(sorted[0], t[k]) {
        assert t[k] in multiset(t);
        if t[k] != x {
          assert t[k] in multiset(rest);
          var m :| 0 <= m < |rest| && rest[m] == t[k];
          assert sorted[m + 1] == t[k];
        }
      }
      ConsOrdered(sorted[0], t);
    }
  }

  /** Sorting tags whose indices increase yields the strict (date desc, index asc) order. */
  lemma {:induction false} SortIsStable(s: seq<IndexedDate>)
    requires forall i, k :: 0 <= i < k < |s| ==> s[i].index < s[k].index
    ensures Ordered(SortByDateDesc(s))
  {
    if s != [] {
      var rest := s[1..];
      assert forall k :: 0 <= k < |rest| ==> rest[k] == s[k + 1];
      SortIsStable(rest);
      var t := SortByDateDesc(rest);
      forall e | e in t ensures s[0].index < e.index {
        assert e in multiset(rest);
        var m :| 0 <= m < |rest| && rest[m] == e;
      }
      InsertKeepsOrdered(s[0], t);
    }
  }

  /** `indexDateTracks`: the tagged tracks, stably sorted most recent first. */
  function IndexDateTracks(tracks: seq<Track>): (t: seq<IndexedDate>)
    ensures multiset(t) == multiset(Tag(tracks))
    ensures Ordered(t)
  {
    SortIsStable(Tag(tracks));
    SortByDateDesc(Tag(tracks))
  }

  /** Each sorted tag describes the track at its index, and every index is tagged once. */
  lemma IndexDateTracksDescribe(tracks: seq<Track>)
    ensures var t := IndexDateTracks(tracks);
            && |t| == |tracks|
            && (forall i :: 0 <= i < |t| ==> 0 <= t[i].index < |tracks| && t[i].date == tracks[t[i].index].addedAt)
            && (forall m :: 0 <= m < |tracks| ==> Tag(tracks)[m] in t)
  {
    var t := IndexDateTracks(tracks);
    var tags := Tag(tracks);
    assert |t| == |multiset(t)| == |multiset(tags)| == |tracks|;
    forall i | 0 <= i < |t| ensures 0 <= t[i].index < |tracks| && t[i].date == tracks[t[i].index].addedAt {
      assert t[i] in multiset(tags);
      var m :| 0 <= m < |tags| && tags[m] == t[i];
    }
    forall m | 0 <= m < |tracks| ensures tags[m] in t {
      assert tags[m] in multiset(t);
    }
  }

  /** The index list the sorted tags carry: the stable order of `tracks`. */
  function Order(tracks: seq<Track>): (p: seq<int>)
    ensures IsStableOrder(tracks, p)
  {
    var t := IndexDateTracks(tracks);
    IndexDateTracksDescribe(tracks);
    var p := seq(|t|, i requires 0 <= i < |t| => t[i].index);
    forall m | 0 <= m < |tracks| ensures m in p {
      assert Tag(tracks)[m] in t;
      var i :| 0 <= i < |t| && t[i] == Tag(tracks)[m];
      assert p[i] == m;
    }
    assert forall i, k :: 0 <= i < k < |p| ==> Before(t[i], t[k]);
    p
  }

  /** The tracks in the order the engine is driving towards. */
  function SortedTracks(tracks: seq<Track>): (r: seq<Track>)
    ensures |r| == |tracks|
    ensures NonIncreasing(r)
  {
    var p := Order(tracks);
    var r := Arrange(tracks, p);
    assert forall i, k :: 0 <= i < k < |r| ==> Precedes(tracks, p[i], p[k]);
    r
  }

  // ---------------------------------------------------------------------------
  // The loop
  // ---------------------------------------------------------------------------

  /** `findIndex((element, index) => index !== element.index)`, scanning from `from`. */
  function FindMismatchFrom(t: seq<IndexedDate>, from: nat): (r: int)
    requires from <= |t|
    ensures r == -1 || from <= r < |t|
    ensures r == -1 ==> forall i :: from <= i < |t| ==> t[i].index == i
    ensures r != -1 ==> t[r].index != r && forall i :: from <= i < r ==> t[i].index == i
    decreases |t| - from
  {
    if from == |t| then -1
    else if t[from].index != from then from
    else FindMismatchFrom(t, from + 1)
  }

  /** The first position whose tag is not its own index, or -1. */
  function FindMismatch(t: seq<IndexedDate>): (r: int)
    ensures -1 <= r < |t|
    ensures r == -1 <==> forall i :: 0 <= i < |t| ==> t[i].index == i
    ensures r != -1 ==> t[r].index != r && forall i :: 0 <= i < r ==> t[i].index == i
  {
    FindMismatchFrom(t, 0)
  }

  predicate ValidMove(s: seq<Track>, m: Move) {
    0 <= m.rangeStart < |s| && 0 <= m.insertBefore < |s|
  }

  /** `splice(i, 1)`: drops the entry at `i`. */
  function Remove(s: seq<Track>, i: int): (r: seq<Track>)
    requires 0 <= i < |s|
    ensures |r| == |s| - 1
  {
    s[..i] + s[i + 1..]
  }

  /** Removing the entry at `i` keeps the entries before it and shifts the later ones one place left. */
  lemma RemoveShifts(s: seq<Track>, i: int)
    requires 0 <= i < |s|
    ensures forall k :: 0 <= k < i ==> Remove(s, i)[k] == s[k]
    ensures forall k :: i <= k < |s| - 1 ==> Remove(s, i)[k] == s[k + 1]
    ensures multiset(Remove(s, i)) + multiset{s[i]} == multiset(s)
  {
    assert s == s[..i] + [s[i]] + s[i + 1..];
  }

  /** `splice(i, 0, x)`: puts `x` at `i`, shifting the rest one place right. */
  function InsertAt(s: seq<Track>, i: int, x: Track): (r: seq<Track>)
    requires 0 <= i <= |s|
    ensures |r| == |s| + 1
    ensures r[i] == x
  {
    s[..i] + [x] + s[i..]
  }

  /** Inserting at `i` keeps the entries before it and shifts the rest one place right. */
  lemma InsertAtShifts(s: seq<Track>, i: int, x: Track)
    requires 0 <= i <= |s|
    ensures forall k :: 0 <= k < i ==> InsertAt(s, i, x)[k] == s[k]
    ensures forall k :: i < k <= |s| ==> InsertAt(s, i, x)[k] == s[k - 1]
    ensures multiset(InsertAt(s, i, x)) == multiset(s) + multiset{x}
  {
    assert s == s[..i] + s[i..];
  }

  /** `const [item] = tracks.splice(rangeStart, 1); tracks.splice(insertBefore, 0, item)`. */
  function ApplyMove(s: seq<Track>, m: Move): (r: seq<Track>)
    requires ValidMove(s, m)
    ensures |r| == |s|
    ensures r[m.insertBefore] == s[m.rangeStart]
  {
    InsertAt(Remove(s, m.rangeStart), m.insertBefore, s[m.rangeStart])
  }

  /** A move neither loses nor duplicates a track. */
  lemma ApplyMovePermutes(s: seq<Track>, m: Move)
    requires ValidMove(s, m)
    ensures multiset(ApplyMove(s, m)) == multiset(s)
  {
    RemoveShifts(s, m.rangeStart);
    InsertAtShifts(Remove(s, m.rangeStart), m.insertBefore, s[m.rangeStart]);
  }

  /**
   A backward move shifts the entries between `insertBefore` and `rangeStart`
   one place right and leaves every position outside that range unchanged.
   */
  lemma ApplyMoveBackward(s: seq<Track>, m: Move)
    requires ValidMove(s, m)
    requires m.insertBefore <= m.rangeStart
    ensures var r := ApplyMove(s, m);
            && (forall k :: 0 <= k < |s| && (k < m.insertBefore || m.rangeStart < k) ==> r[k] == s[k])
            && (forall k :: m.insertBefore < k <= m.rangeStart ==> r[k] == s[k - 1])
  {
    var rest := Remove(s, m.rangeStart);
    var r := InsertAt(rest, m.insertBefore, s[m.rangeStart]);
    RemoveShifts(s, m.rangeStart);
    InsertAtShifts(rest, m.insertBefore, s[m.rangeStart]);
    forall k | 0 <= k < |s| && (k < m.insertBefore || m.rangeStart < k) ensures r[k] == s[k] {
      if k < m.insertBefore {
        assert r[k] == rest[k];
      } else {
        assert r[k] == rest[k - 1];
      }
    }
    forall k | m.insertBefore < k <= m.rangeStart ensures r[k] == s[k - 1] {
      assert r[k] == rest[k - 1];
    }
  }

  /**
   A forward move shifts the entries between `rangeStart` and `insertBefore`
   one place left and leaves every position outside that range unchanged.
   */
  lemma ApplyMoveForward(s: seq<Track>, m: Move)
    requires ValidMove(s, m)
    requires m.rangeStart < m.insertBefore
    ensures var r := ApplyMove(s, m);
            && (forall k :: 0 <= k < |s| && (k < m.rangeStart || m.insertBefore < k) ==> r[k] == s[k])
            && (forall k :: m.rangeStart <= k < m.insertBefore ==> r[k] == s[k + 1])
  {
    var rest := Remove(s, m.rangeStart);
    var r := InsertAt(rest, m.insertBefore, s[m.rangeStart]);
    RemoveShifts(s, m.rangeStart);
    InsertAtShifts(rest, m.insertBefore, s[m.rangeStart]);
    forall k | 0 <= k < |s| && (k < m.rangeStart || m.insertBefore < k) ensures r[k] == s[k] {
      if k < m.rangeStart {
        assert r[k] == rest[k];
      } else {
        assert r[k] == rest[k - 1];
      }
    }
    forall k | m.rangeStart <= k < m.insertBefore ensures r[k] == s[k + 1] {
      assert r[k] == rest[k];
    }
  }

  /** The moves replayed in order against `s`; `None` if one names a position out of range. */
  function Replay(s: seq<Track>, moves: seq<Move>): Option<seq<Track>>
    decreases |moves|
  {
    if moves == [] then Some(s)
    else match Replay(s, moves[..|moves| - 1])
      case None => None
      case Some(t) =>
        var m := moves[|moves| - 1];
        if ValidMove(t, m) then Some(ApplyMove(t, m)) else None
  }

  /** The version token after the moves, in order, starting from `start`. */
  function TokenAfter(start: SnapshotToken, moves: seq<Move>): SnapshotToken
    decreases |moves|
  {
    if moves == [] then start
    else AfterMove(TokenAfter(start, moves[..|moves| - 1]), moves[|moves| - 1])
  }

  /** One more move extends the token chain by one link. */
  lemma TokenAfterSnoc(start: SnapshotToken, moves: seq<Move>, m: Move)
    ensures TokenAfter(start, moves + [m]) == AfterMove(TokenAfter(start, moves), m)
  {
    assert (moves + [m])[..|moves|] == moves;
  }

  /** Where the entry at index `m` ends up when the entry at `from` is moved before `to <= from`. */
  function Shift(m: int, to: int, from: int): int {
    if m < to || from < m then m
    else if m == from then to
    else m + 1
  }

  function Relabel(p: seq<int>, to: int, from: int): seq<int> {
    seq(|p|, i requires 0 <= i < |p| => Shift(p[i], to, from))
  }

  lemma ApplyMoveShift(s: seq<Track>, from: int, to: int, m: int)
    requires 0 <= to <= from < |s|
    requires 0 <= m < |s|
    ensures 0 <= Shift(m, to, from) < |s|
    ensures ApplyMove(s, Move(from, to))[Shift(m, to, from)] == s[m]
  {
    var rest := Remove(s, from);
    var r := InsertAt(rest, to, s[from]);
    RemoveShifts(s, from);
    InsertAtShifts(rest, to, s[from]);
    if m < to {
      assert r[m] == rest[m];
    } else if m == from {
      assert r[to] == s[from];
    } else if m < from {
      assert r[m + 1] == rest[m];
    } else {
      assert r[m] == rest[m - 1];
    }
  }

  /**
   When the first `f` positions are settled and position `f` is not, the
   entry that belongs at `f` currently sits strictly after it.
   */
  lemma FirstMismatchIsBehind(s: seq<Track>, p: seq<int>, f: int)
    requires IsStableOrder(s, p)
    requires 0 <= f < |s| && p[f] != f
    requires forall k :: 0 <= k < f ==> p[k] == k
    ensures f < p[f]
  {
    if p[f] < f {
      StableOrderInjective(s, p, p[f], f);
    }
  }

  /**
   Moving the entry that belongs at the first unsettled position `f` from
   `p[f]` to `f` turns the stable order `p` of `s` into the stable order of
   the result, with every index relabelled by `Shift`.
   */
  lemma MoveRelabelsStableOrder(s: seq<Track>, p: seq<int>, f: int)
    requires IsStableOrder(s, p)
    requires 0 <= f < |s| && p[f] != f
    requires forall k :: 0 <= k < f ==> p[k] == k
    ensures f < p[f]
    ensures IsStableOrder(ApplyMove(s, Move(p[f], f)), Relabel(p, f, p[f]))
  {
    FirstMismatchIsBehind(s, p, f);
    var j := p[f];
    var s' := ApplyMove(s, Move(j, f));
    var q := Relabel(p, f, j);
    forall i | 0 <= i < |q| ensures 0 <= q[i] < |s'| && s'[q[i]] == s[p[i]] {
      ApplyMoveShift(s, j, f, p[i]);
    }
    forall m | 0 <= m < |s'| ensures m in q {
      var old_m := if m < f || j < m then m else if m == f then j else m - 1;
      assert Shift(old_m, f, j) == m;
      assert old_m in p;
      var i :| 0 <= i < |p| && p[i] == old_m;
      assert q[i] == m;
    }
    forall i, k | 0 <= i < k < |q| ensures Precedes(s', q[i], q[k]) {
      var a, b := p[i], p[k];
      assert Precedes(s, a, b);
      if s[a].addedAt == s[b].addedAt {
        if b == j {
          StableOrderInjective(s, p, k, f);
          assert p[i] == i;
        }
        assert Shift(a, f, j) < Shift(b, f, j);
      }
    }
  }

  /** Arranging the moved tracks by the relabelled order gives the same tracks as before. */
  lemma MoveKeepsArrangement(s: seq<Track>, p: seq<int>, f: int)
    requires IsStableOrder(s, p)
    requires 0 <= f < |s| && p[f] != f
    requires forall k :: 0 <= k < f ==> p[k] == k
    ensures f < p[f]
    ensures Arrange(ApplyMove(s, Move(p[f], f)), Relabel(p, f, p[f])) == Arrange(s, p)
  {
    FirstMismatchIsBehind(s, p, f);
    forall i | 0 <= i < |p| ensures ApplyMove(s, Move(p[f], f))[Shift(p[i], f, p[f])] == s[p[i]] {
      ApplyMoveShift(s, p[f], f, p[i]);
    }
  }

  /** The scan of the sorted tags reads the stable order: it finds its first position that is not fixed. */
  lemma MismatchReadsOrder(s: seq<Track>)
    ensures var f := FindMismatch(IndexDateTracks(s));
            var p := Order(s);
            && (f == -1 <==> p == Identity(|s|))
            && (f != -1 ==>
                  && 0 <= f < |s|
                  && IndexDateTracks(s)[f].index == p[f] != f
                  && forall k :: 0 <= k < f ==> p[k] == k)
  {
    var t := IndexDateTracks(s);
    var p := Order(s);
    assert forall i :: 0 <= i < |p| ==> p[i] == t[i].index;
    assert forall i :: 0 <= i < |s| ==> Identity(|s|)[i] == i;
  }

  /**
   One iteration: the move it issues goes backwards, keeps the sorted view of
   the tracks unchanged, and settles positions `0..f`.
   */
  lemma ReorderStep(s: seq<Track>, f: int)
    requires 0 <= f < |s|
    requires Order(s)[f] != f
    requires forall k :: 0 <= k < f ==> Order(s)[k] == k
    ensures var j := Order(s)[f];
            && f < j
            && SortedTracks(ApplyMove(s, Move(j, f))) == SortedTracks(s)
            && forall k :: 0 <= k <= f ==> Order(ApplyMove(s, Move(j, f)))[k] == k
  {
    var p := Order(s);
    MoveRelabelsStableOrder(s, p, f);
    MoveKeepsArrangement(s, p, f);
    var j := p[f];
    var s' := ApplyMove(s, Move(j, f));
    StableOrderUnique(s', Order(s'), Relabel(p, f, j));
    forall k | 0 <= k <= f ensures Order(s')[k] == k {
      assert Order(s')[k] == Shift(p[k], f, j);
    }
  }

  /** Replaying one more move continues from where the shorter log left the tracks. */
  lemma ReplaySnoc(s: seq<Track>, moves: seq<Move>, t: seq<Track>, m: Move)
    requires Replay(s, moves) == Some(t)
    requires ValidMove(t, m)
    ensures Replay(s, moves + [m]) == Some(ApplyMove(t, m))
  {
    assert (moves + [m])[..|moves|] == moves;
  }

  /** Once the stable order is the identity the tracks are their own sorted view. */
  lemma SettledIsSorted(s: seq<Track>)
    requires Order(s) == Identity(|s|)
    ensures SortedTracks(s) == s
  {
    assert forall i :: 0 <= i < |s| ==> Identity(|s|)[i] == i;
  }

  /**
   `processPlaylist` after the tracks are fetched: returns the final in-memory
   tracks and the log of `reorderItems` requests, in the order issued.
   */
  method ProcessPlaylist(initial: seq<Track>, ghost snapshotId: string)
    returns (tracks: seq<Track>, moves: seq<Move>, ghost lastSnapshot: SnapshotToken)
    ensures tracks == SortedTracks(initial)
    ensures |tracks| == |initial| && forall i :: 0 <= i < |tracks| ==> tracks[i] == initial[Order(initial)[i]]
    ensures multiset(tracks) == multiset(initial)
    ensures |moves| <= if |initial| == 0 then 0 else |initial| - 1
    ensures forall m :: m in moves ==> 0 <= m.insertBefore < m.rangeStart < |initial|
    ensures Replay(initial, moves) == Some(tracks)
    ensures NonIncreasing(initial) ==> moves == []
    ensures lastSnapshot == TokenAfter(Original(snapshotId), moves)
  {
    tracks := initial;
    moves := [];
    lastSnapshot := Original(snapshotId);
    ghost var settled := 0;
    var indexDateTracks := IndexDateTracks(tracks);
    var found := FindMismatch(indexDateTracks);
    MismatchReadsOrder(tracks);
    SortedIffIdentity(initial, Order(initial));
    while found != -1
      invariant |tracks| == |initial|
      invariant multiset(tracks) == multiset(initial)
      invariant indexDateTracks == IndexDateTracks(tracks)
      invariant found == FindMismatch(indexDateTracks)
      invariant 0 <= settled <= |tracks|
      invariant forall k :: 0 <= k < settled ==> Order(tracks)[k] == k
      invariant |moves| <= settled
      invariant moves != [] ==> settled <= |tracks| - 1
      invariant SortedTracks(tracks) == SortedTracks(initial)
      invariant forall m :: m in moves ==> 0 <= m.insertBefore < m.rangeStart < |initial|
      invariant Replay(initial, moves) == Some(tracks)
      invariant NonIncreasing(initial) ==> moves == [] && found == -1
      invariant lastSnapshot == TokenAfter(Original(snapshotId), moves)
      decreases |tracks| - settled
    {
      MismatchReadsOrder(tracks);
      var foundItem := indexDateTracks[found];
      ReorderStep(tracks, found);
      var move := Move(foundItem.index, found);
      TokenAfterSnoc(Original(snapshotId), moves, move);
      lastSnapshot := AfterMove(lastSnapshot, move);
      ReplaySnoc(initial, moves, tracks, move);
      ApplyMovePermutes(tracks, move);
      moves := moves + [move];
      tracks := ApplyMove(tracks, move);
      settled := found + 1;
      indexDateTracks := IndexDateTracks(tracks);
      found := FindMismatch(indexDateTracks);
    }
    MismatchReadsOrder(tracks);
    SettledIsSorted(tracks);
  }

  /** The tags of tracks added at times 1, 2 sort to the later one first. */
  lemma TwoTagSort()
    ensures SortByDateDesc([IndexedDate(1, 1, "a"), IndexedDate(2, 2, "b")])
            == [IndexedDate(2, 2, "b"), IndexedDate(1, 1, "a")]
  {
    var b, a := IndexedDate(2, 2, "b"), IndexedDate(1, 1, "a");
    assert [a, b][1..] == [b];
    assert SortByDateDesc([b]) == [b];
    assert Insert(a, [b]) == [b, a];
  }

  /** Tracks added at times 3, 1, 2 are tagged with their positions. */
  lemma ThreeTrackTags()
    ensures Tag([Track(3, "c"), Track(1, "a"), Track(2, "b")])
            == [IndexedDate(0, 3, "c"), IndexedDate(1, 1, "a"), IndexedDate(2, 2, "b")]
  {
  }

  /** The tags of times 3, 1, 2 sort to indices 0, 2, 1. */
  lemma ThreeTagSort()
    ensures SortByDateDesc([IndexedDate(0, 3, "c"), IndexedDate(1, 1, "a"), IndexedDate(2, 2, "b")])
            == [IndexedDate(0, 3, "c"), IndexedDate(2, 2, "b"), IndexedDate(1, 1, "a")]
  {
    var c, b, a := IndexedDate(0, 3, "c"), IndexedDate(2, 2, "b"), IndexedDate(1, 1, "a");
    assert [c, a, b][1..] == [a, b];
    TwoTagSort();
    assert Insert(c, [b, a]) == [c, b, a];
  }

  /** Tracks added at times 3, 1, 2 sort to the tags of indices 0, 2, 1. */
  lemma ThreeTrackSort()
    ensures IndexDateTracks([Track(3, "c"), Track(1, "a"), Track(2, "b")])
            == [IndexedDate(0, 3, "c"), IndexedDate(2, 2, "b"), IndexedDate(1, 1, "a")]
  {
    ThreeTrackTags();
    ThreeTagSort();
  }

  /** The move brings the track added at time 2 forward. */
  lemma ThreeTrackMove()
    ensures ApplyMove([Track(3, "c"), Track(1, "a"), Track(2, "b")], Move(2, 1))
            == [Track(3, "c"), Track(2, "b"), Track(1, "a")]
  {
    var s := [Track(3, "c"), Track(1, "a"), Track(2, "b")];
    var rest := Remove(s, 2);
    assert rest == [Track(3, "c"), Track(1, "a")];
    assert InsertAt(rest, 1, Track(2, "b")) == [Track(3, "c"), Track(2, "b"), Track(1, "a")];
  }

  /** Tracks reading 3, 2, 1 keep their tags in place. */
  lemma ThreeTrackMoved()
    ensures IndexDateTracks([Track(3, "c"), Track(2, "b"), Track(1, "a")])
            == [IndexedDate(0, 3, "c"), IndexedDate(1, 2, "b"), IndexedDate(2, 1, "a")]
  {
    var tags := Tag([Track(3, "c"), Track(2, "b"), Track(1, "a")]);
    var c, b, a := IndexedDate(0, 3, "c"), IndexedDate(1, 2, "b"), IndexedDate(2, 1, "a");
    assert tags == [c, b, a];
    assert tags[1..] == [b, a] && tags[1..][1..] == [a];
    assert SortByDateDesc([a]) == [a];
    assert Insert(b, [a]) == [b, a];
    assert SortByDateDesc([b, a]) == [b, a];
    assert Insert(c, [b, a]) == [c, b, a];
  }

  /** The first scan of the three-track run stops at position 1. */
  lemma ThreeTrackFirstScan()
    ensures FindMismatch([IndexedDate(0, 3, "c"), IndexedDate(2, 2, "b"), IndexedDate(1, 1, "a")]) == 1
  {
    var t := [IndexedDate(0, 3, "c"), IndexedDate(2, 2, "b"), IndexedDate(1, 1, "a")];
    assert FindMismatchFrom(t, 1) == 1;
  }

  /** The second scan of the three-track run finds every tag in place. */
  lemma ThreeTrackSecondScan()
    ensures FindMismatch([IndexedDate(0, 3, "c"), IndexedDate(1, 2, "b"), IndexedDate(2, 1, "a")]) == -1
  {
    var t := [IndexedDate(0, 3, "c"), IndexedDate(1, 2, "b"), IndexedDate(2, 1, "a")];
    assert FindMismatchFrom(t, 3) == -1;
    assert FindMismatchFrom(t, 2) == -1;
    assert FindMismatchFrom(t, 1) == -1;
  }

  /**
   The three-track run: the first scan stops at position 1, whose entry sits
   at index 2, so the one request is `{rangeStart: 2, insertBefore: 1}`; after
   it the tracks read 3, 2, 1 and the next scan finds nothing to move.
   */
  lemma ThreeTrackExample()
    ensures var s := [Track(3, "c"), Track(1, "a"), Track(2, "b")];
            var t := IndexDateTracks(s);
            && FindMismatch(t) == 1 && t[1].index == 2
            && ApplyMove(s, Move(2, 1)) == [Track(3, "c"), Track(2, "b"), Track(1, "a")]
            && FindMismatch(IndexDateTracks(ApplyMove(s, Move(2, 1)))) == -1
  {
    ThreeTrackSort();
    ThreeTrackMove();
    ThreeTrackMoved();
    ThreeTrackFirstScan();
    ThreeTrackSecondScan();
  }
}
