/**
 * Players of a room and what is derived from them: the `players` map (kept in
 * insertion order, as a JavaScript Map iterates), the roster (`rosterData`) and
 * the ranked leaderboard (`leaderboardData`).
 */
module Standings {
  import opened Wrappers

  /** The opaque connection identity `socket.id`. */
  type SocketId = string

  datatype Player = Player(id: SocketId, name: string, score: nat)

  /** A Map has at most one record per key. */
  predicate UniqueIds(ps: seq<Player>) {
    forall i, j :: 0 <= i < j < |ps| ==> ps[i].id != ps[j].id
  }

  predicate HasPlayer(ps: seq<Player>, id: SocketId) {
    exists i :: 0 <= i < |ps| && ps[i].id == id
  }

  /** `players.get(id)`: the record stored under `id`, if any. */
  function Find(ps: seq<Player>, id: SocketId): (r: Option<Player>)
    ensures r.Some? <==> HasPlayer(ps, id)
    ensures r.Some? ==> r.value in ps && r.value.id == id
  {
    if ps == [] then None
    else if ps[0].id == id then Some(ps[0])
    else
      assert HasPlayer(ps, id) <==> HasPlayer(ps[1..], id) by {
        if HasPlayer(ps, id) {
          var i :| 0 <= i < |ps| && ps[i].id == id;
          assert ps[1..][i - 1].id == id;
        }
        if HasPlayer(ps[1..], id) {
          var i :| 0 <= i < |ps| - 1 && ps[1..][i].id == id;
          assert ps[i + 1].id == id;
        }
      }
      Find(ps[1..], id)
  }

  /** The position of the record stored under `id`, if any. */
  function IndexOf(ps: seq<Player>, id: SocketId): (r: Option<nat>)
    ensures r.Some? ==> r.value < |ps| && ps[r.value].id == id
    ensures r.None? ==> !HasPlayer(ps, id)
  {
    if ps == [] then None
    else if ps[0].id == id then Some(0)
    else match IndexOf(ps[1..], id)
      case None =>
        assert forall i :: 1 <= i < |ps| ==> ps[i] == ps[1..][i - 1];
        None
      case Some(k) => Some(k + 1)
  }

  /** `players.set(p.id, p)`: an existing record keeps its position and is
      replaced, otherwise the record is appended. */
  function SetPlayer(ps: seq<Player>, p: Player): (r: seq<Player>)
    ensures |r| == if HasPlayer(ps, p.id) then |ps| else |ps| + 1
    ensures forall i :: 0 <= i < |ps| ==> r[i] == if ps[i].id == p.id then p else ps[i]
    ensures !HasPlayer(ps, p.id) ==> r[|ps|] == p
  {
    seq(|ps|, i requires 0 <= i < |ps| => if ps[i].id == p.id then p else ps[i])
      + if HasPlayer(ps, p.id) then [] else [p]
  }

  /** `set` keeps the keys unique. */
  lemma SetPlayerKeepsUnique(ps: seq<Player>, p: Player)
    requires UniqueIds(ps)
    ensures UniqueIds(SetPlayer(ps, p))
  {
    var r := SetPlayer(ps, p);
    forall i, j | 0 <= i < j < |r| ensures r[i].id != r[j].id {
      if j == |ps| {
        assert !HasPlayer(ps, p.id);
        assert r[i] == ps[i];
      }
    }
  }

  /** In a map with unique keys, `get` of a stored key gives its record. */
  lemma {:induction false} FindAt(ps: seq<Player>, i: nat)
    requires UniqueIds(ps) && i < |ps|
    ensures Find(ps, ps[i].id) == Some(ps[i])
  {
    if i > 0 {
      assert ps[0].id != ps[i].id;
      assert ps[1..][i - 1] == ps[i];
      FindAt(ps[1..], i - 1);
    }
  }

  /** After `set`, `get` of that key gives the new record and `get` of any other
      key what it gave before. */
  lemma SetPlayerLaws(ps: seq<Player>, p: Player, other: SocketId)
    requires UniqueIds(ps) && other != p.id
    ensures Find(SetPlayer(ps, p), p.id) == Some(p)
    ensures Find(SetPlayer(ps, p), other) == Find(ps, other)
  {
    var r := SetPlayer(ps, p);
    SetPlayerKeepsUnique(ps, p);
    if HasPlayer(ps, p.id) {
      var i :| 0 <= i < |ps| && ps[i].id == p.id;
      FindAt(r, i);
    } else {
      FindAt(r, |ps|);
    }
    if HasPlayer(ps, other) {
      var i :| 0 <= i < |ps| && ps[i].id == other;
      FindAt(ps, i);
      FindAt(r, i);
    }
  }

  /** `players.delete(id)`: the other records in their order. */
  function RemovePlayer(ps: seq<Player>, id: SocketId): (r: seq<Player>)
    ensures !HasPlayer(r, id)
    ensures forall other :: other != id ==> Find(r, other) == Find(ps, other)
    ensures UniqueIds(ps) ==> UniqueIds(r)
    ensures forall p :: p in r <==> p in ps && p.id != id
  {
    if ps == [] then []
    else
      var tail := RemovePlayer(ps[1..], id);
      var r := if ps[0].id == id then tail else [ps[0]] + tail;
      assert ps[0].id != id ==> r[1..] == tail;
      assert forall p :: p in ps <==> p == ps[0] || p in ps[1..];
      assert UniqueIds(ps) ==> UniqueIds(r) by {
        if UniqueIds(ps) && ps[0].id != id {
          assert UniqueIds(ps[1..]);
          forall j | 1 <= j < |r| ensures r[0].id != r[j].id {
            assert r[j] in tail;
            var k :| 0 <= k < |ps| - 1 && ps[1..][k] == r[j];
            assert ps[k + 1] == r[j];
          }
        }
      }
      r
  }

  /** Deleting an absent id changes nothing. */
  lemma {:induction false} RemoveAbsentPlayer(ps: seq<Player>, id: SocketId)
    requires !HasPlayer(ps, id)
    ensures RemovePlayer(ps, id) == ps
  {
    if ps != [] {
      var tail := ps[1..];
      assert !HasPlayer(tail, id) by {
        forall k | 0 <= k < |tail| ensures tail[k].id != id {
          assert tail[k] == ps[k + 1];
        }
      }
      assert ps[0].id != id;
      assert RemovePlayer(ps, id) == [ps[0]] + RemovePlayer(tail, id);
      RemoveAbsentPlayer(tail, id);
      assert ps == [ps[0]] + tail;
    }
  }

  /** Deleting the record at position `i` closes the gap it leaves. */
  lemma {:induction false} RemovePlayerAt(ps: seq<Player>, i: nat)
    requires UniqueIds(ps) && i < |ps|
    ensures RemovePlayer(ps, ps[i].id) == ps[..i] + ps[i + 1..]
  {
    var id := ps[i].id;
    var tail := ps[1..];
    if i == 0 {
      assert !HasPlayer(tail, id) by {
        forall k | 0 <= k < |tail| ensures tail[k].id != id {
          assert tail[k] == ps[k + 1];
        }
      }
      RemoveAbsentPlayer(tail, id);
    } else {
      assert tail[i - 1] == ps[i];
      RemovePlayerAt(tail, i - 1);
      assert tail[..i - 1] == ps[1..i] && tail[i..] == ps[i + 1..];
      assert [ps[0]] + ps[1..i] == ps[..i];
    }
  }

  /** `delete` keeps the other records in their insertion order: deleting an
      absent id changes nothing, and deleting a stored one closes the gap it
      leaves. */
  lemma RemovePlayerKeepsOrder(ps: seq<Player>, id: SocketId)
    ensures !HasPlayer(ps, id) ==> RemovePlayer(ps, id) == ps
    ensures UniqueIds(ps) && IndexOf(ps, id).Some? ==>
      RemovePlayer(ps, id) == ps[..IndexOf(ps, id).value] + ps[IndexOf(ps, id).value + 1..]
  {
    if !HasPlayer(ps, id) {
      RemoveAbsentPlayer(ps, id);
    }
    if UniqueIds(ps) && IndexOf(ps, id).Some? {
      RemovePlayerAt(ps, IndexOf(ps, id).value);
    }
  }

  /** A roster row: name and score, in the map's iteration order. */
  datatype Row = Row(name: string, score: nat)

  function ToRow(p: Player): Row {
    Row(p.name, p.score)
  }

  /** `rosterData`. */
  function Roster(ps: seq<Player>): (r: seq<Row>)
    ensures |r| == |ps|
    ensures forall i :: 0 <= i < |ps| ==> r[i] == ToRow(ps[i])
  {
    seq(|ps|, i requires 0 <= i < |ps| => ToRow(ps[i]))
  }

  /** Highest score first. */
  predicate NonIncreasing(ps: seq<Player>) {
    forall i, j :: 0 <= i < j < |ps| ==> ps[i].score >= ps[j].score
  }

  /** The players with score `k`, in their order. */
  function WithScore(ps: seq<Player>, k: nat): (r: seq<Player>)
    ensures |r| <= |ps|
    ensures forall p :: p in r ==> p in ps && p.score == k
  {
    if ps == [] then []
    else if ps[0].score == k then [ps[0]] + WithScore(ps[1..], k)
    else WithScore(ps[1..], k)
  }

  /** Place `p` before the first player whose score it reaches. */
  function Insert(p: Player, s: seq<Player>): (r: seq<Player>)
    requires NonIncreasing(s)
    ensures NonIncreasing(r)
    ensures |r| == |s| + 1
    ensures multiset(r) == multiset(s) + multiset{p}
  {
    if s == [] || s[0].score <= p.score then
      ConsNonIncreasing(p, s);
      [p] + s
    else
      var tail := Insert(p, s[1..]);
      assert s == [s[0]] + s[1..];
      BoundedByHead(p, s, tail);
      ConsNonIncreasing(s[0], tail);
      [s[0]] + tail
  }

  /** A head at least as high as every element of a descending tail keeps it descending. */
  lemma ConsNonIncreasing(h: Player, t: seq<Player>)
    requires NonIncreasing(t) && forall q :: q in t ==> q.score <= h.score
    ensures NonIncreasing([h] + t)
  {
    var r := [h] + t;
    forall i, j | 0 <= i < j < |r| ensures r[i].score >= r[j].score {
      assert r[j] == t[j - 1];
      if i > 0 {
        assert r[i] == t[i - 1];
      }
    }
  }

  /** The rest of a descending list, with a lower `p` added, stays below its head. */
  lemma BoundedByHead(p: Player, s: seq<Player>, t: seq<Player>)
    requires NonIncreasing(s) && s != [] && p.score < s[0].score
    requires multiset(t) == multiset(s[1..]) + multiset{p}
    ensures forall q :: q in t ==> q.score <= s[0].score
  {
    forall q | q in t ensures q.score <= s[0].score {
      assert q in multiset(t);
      if q != p {
        assert q in multiset(s[1..]);
        assert q in s[1..];
      }
    }
  }

  /** Inserting keeps every score's players in order, `p` first among its equals. */
  lemma {:induction false} InsertKeepsOrder(p: Player, s: seq<Player>, k: nat)
    requires NonIncreasing(s)
    ensures WithScore(Insert(p, s), k) == if p.score == k then [p] + WithScore(s, k) else WithScore(s, k)
  {
    if s == [] || s[0].score <= p.score {
      assert ([p] + s)[1..] == s;
    } else {
      InsertKeepsOrder(p, s[1..], k);
      var r := Insert(p, s);
      assert r[1..] == Insert(p, s[1..]);
      assert r[0] == s[0];
      if p.score == k {
        assert s[0].score != k;
      }
    }
  }

  /** Array.prototype.sort with `(a, b) => b.score - a.score`, which is stable:
      a permutation, highest score first, equal scores in their original order. */
  function SortByScore(ps: seq<Player>): (r: seq<Player>)
    ensures NonIncreasing(r)
    ensures |r| == |ps|
    ensures multiset(r) == multiset(ps)
    ensures forall k :: WithScore(r, k) == WithScore(ps, k)
  {
    if ps == [] then []
    else
      var tail := SortByScore(ps[1..]);
      assert ps == [ps[0]] + ps[1..];
      assert forall k :: WithScore(Insert(ps[0], tail), k) == WithScore(ps, k) by {
        forall k ensures WithScore(Insert(ps[0], tail), k) == WithScore(ps, k) {
          InsertKeepsOrder(ps[0], tail, k);
        }
      }
      Insert(ps[0], tail)
  }

  lemma WithScoreBound(s: seq<Player>, k: nat)
    requires NonIncreasing(s) && s != [] && WithScore(s, k) != []
    ensures k <= s[0].score
  {
    var q := WithScore(s, k)[0];
    assert q in WithScore(s, k);
    var i :| 0 <= i < |s| && s[i] == q;
  }

  /** Two orderings, both highest score first, that agree on the order of each
      score's players, are the same. */
  lemma {:induction false} SameStableOrder(a: seq<Player>, b: seq<Player>)
    requires NonIncreasing(a) && NonIncreasing(b)
    requires forall k :: WithScore(a, k) == WithScore(b, k)
    ensures a == b
  {
    if a != [] {
      assert WithScore(a, a[0].score) != [];
    }
    if b != [] {
      assert WithScore(b, b[0].score) != [];
    }
    if a != [] && b != [] {
      HeadsAgree(a, b);
      TailsAgree(a, b);
      SameStableOrder(a[1..], b[1..]);
      assert a == [a[0]] + a[1..] && b == [b[0]] + b[1..];
    }
  }

  lemma HeadsAgree(a: seq<Player>, b: seq<Player>)
    requires NonIncreasing(a) && NonIncreasing(b) && a != [] && b != []
    requires forall k :: WithScore(a, k) == WithScore(b, k)
    ensures a[0] == b[0]
  {
    var ka, kb := a[0].score, b[0].score;
    assert WithScore(a, ka) != [];
    WithScoreBound(b, ka);
    assert WithScore(b, kb) != [];
    WithScoreBound(a, kb);
    assert WithScore(a, ka)[0] == a[0] && WithScore(b, ka)[0] == b[0];
  }

  lemma TailsAgree(a: seq<Player>, b: seq<Player>)
    requires a != [] && b != [] && a[0] == b[0]
    requires forall k :: WithScore(a, k) == WithScore(b, k)
    ensures forall k :: WithScore(a[1..], k) == WithScore(b[1..], k)
  {
    forall k ensures WithScore(a[1..], k) == WithScore(b[1..], k) {
      if k == a[0].score {
        assert WithScore(a[1..], k) == WithScore(a, k)[1..];
        assert WithScore(b[1..], k) == WithScore(b, k)[1..];
      } else {
        assert WithScore(a[1..], k) == WithScore(a, k);
        assert WithScore(b[1..], k) == WithScore(b, k);
      }
    }
  }

  /** Any stable sort with that comparator gives the same order as SortByScore. */
  lemma StableSortIsUnique(ps: seq<Player>, s: seq<Player>)
    requires NonIncreasing(s)
    requires forall k :: WithScore(s, k) == WithScore(ps, k)
    ensures s == SortByScore(ps)
  {
    SameStableOrder(s, SortByScore(ps));
  }

  /** A leaderboard row: rank by position, name and score. */
  datatype Standing = Standing(rank: nat, name: string, score: nat)

  function RankByPosition(ps: seq<Player>): (r: seq<Standing>)
    ensures |r| == |ps|
    ensures forall i :: 0 <= i < |ps| ==> r[i] == Standing(i + 1, ps[i].name, ps[i].score)
  {
    seq(|ps|, i requires 0 <= i < |ps| => Standing(i + 1, ps[i].name, ps[i].score))
  }

  /** `leaderboardData`: the players sorted by score, highest first, ranked 1..n
      by position, so equal scores get consecutive, distinct ranks. */
  function Leaderboard(ps: seq<Player>): (r: seq<Standing>)
    ensures |r| == |ps|
    ensures forall i :: 0 <= i < |r| ==> r[i].rank == i + 1
    ensures forall i, j :: 0 <= i < j < |r| ==> r[i].score >= r[j].score
  {
    RankByPosition(SortByScore(ps))
  }

  /** The leaderboard ranks, by position, every stable highest-score-first
      ordering of the players. */
  lemma LeaderboardRanksStableOrder(ps: seq<Player>, s: seq<Player>)
    requires NonIncreasing(s)
    requires forall k :: WithScore(s, k) == WithScore(ps, k)
    ensures Leaderboard(ps) == RankByPosition(s)
  {
    StableSortIsUnique(ps, s);
  }

  /** Scores 5, 5, 3 are ranked 1, 2, 3, the tied players in their join order. */
  lemma TiedScoresGetConsecutiveRanks(a: Player, b: Player, c: Player)
    requires a.score == 5 && b.score == 5 && c.score == 3
    ensures Leaderboard([a, b, c])
         == [Standing(1, a.name, 5), Standing(2, b.name, 5), Standing(3, c.name, 3)]
  {
    var ps := [a, b, c];
    DescendingThree(a, b, c);
    LeaderboardRanksStableOrder(ps, ps);
    RankThree(a, b, c);
  }

  lemma DescendingThree(a: Player, b: Player, c: Player)
    requires a.score >= b.score >= c.score
    ensures NonIncreasing([a, b, c])
  {
  }

  lemma RankThree(a: Player, b: Player, c: Player)
    ensures RankByPosition([a, b, c])
         == [Standing(1, a.name, a.score), Standing(2, b.name, b.score), Standing(3, c.name, c.score)]
  {
  }
}
