/**
 * The invariants the handlers keep on a room's values: the name index
 * (`nameToId`) against the players map, and what scoring does to both.
 */
module Membership {
  import opened Wrappers
  import opened Text
  import opened Standings
  import opened AnswerLedger

  /** The name index under a normal form `norm`: every player's normalised name
      is claimed by that player. The lemmas below hold for any normal form. */
  predicate IndexedBy(ps: seq<Player>, index: map<string, SocketId>, norm: string -> string) {
    forall i :: 0 <= i < |ps| ==> norm(ps[i].name) in index && index[norm(ps[i].name)] == ps[i].id
  }

  /** The room's name index: claims are made under `Key`, i.e. `trim().toLowerCase()`. */
  predicate NamesIndexed(ps: seq<Player>, index: map<string, SocketId>) {
    IndexedBy(ps, index, Key)
  }

  /** With the index in place, no two players of a room share a normalised name. */
  lemma ClaimedNamesDistinct(ps: seq<Player>, index: map<string, SocketId>, norm: string -> string)
    requires UniqueIds(ps) && IndexedBy(ps, index, norm)
    ensures forall i, j :: 0 <= i < j < |ps| ==> norm(ps[i].name) != norm(ps[j].name)
  {
  }

  /** A successful join keeps the name index in place: the joiner is stored
      under `stored`, whose normal form `key` was unclaimed. */
  lemma JoinKeepsIndex(ps: seq<Player>, index: map<string, SocketId>, norm: string -> string,
                       id: SocketId, stored: string, key: string)
    requires UniqueIds(ps) && IndexedBy(ps, index, norm)
    requires norm(stored) == key && key !in index
    ensures IndexedBy(SetPlayer(ps, Player(id, stored, 0)), index[key := id], norm)
  {
  }

  /** Removing a player together with the normal form of its stored name keeps
      the name index in place: that key was claimed by no other player. */
  lemma DropKeepsIndex(ps: seq<Player>, index: map<string, SocketId>, norm: string -> string, id: SocketId)
    requires UniqueIds(ps) && IndexedBy(ps, index, norm) && HasPlayer(ps, id)
    ensures UniqueIds(RemovePlayer(ps, id))
    ensures IndexedBy(RemovePlayer(ps, id), index - {norm(Find(ps, id).value.name)}, norm)
  {
    var r := RemovePlayer(ps, id);
    forall i | 0 <= i < |r|
      ensures norm(r[i].name) in index - {norm(Find(ps, id).value.name)}
      ensures index[norm(r[i].name)] == r[i].id
    {
      assert r[i] in ps;
    }
  }

  /** Scoring changes scores only, so the name index stays in place. */
  lemma ScoringKeepsIndex(ps: seq<Player>, l: seq<Entry>, index: map<string, SocketId>, norm: string -> string)
    requires UniqueIds(ps) && IndexedBy(ps, index, norm)
    ensures UniqueIds(Scored(ps, l)) && IndexedBy(Scored(ps, l), index, norm)
  {
  }

  /** One more ledger entry scored is one more scoring step. */
  lemma ScoredStep(ps: seq<Player>, l: seq<Entry>, i: nat)
    requires i < |l|
    ensures Scored(ps, l[..i + 1]) == Credit(Scored(ps, l[..i]), l[i])
  {
    assert l[..i + 1][..i] == l[..i];
  }

  /** With unique ids, a scoring step changes one record: the one `get` finds. */
  lemma CreditIsPointUpdate(ps: seq<Player>, e: Entry)
    requires UniqueIds(ps)
    ensures Credit(ps, e) == if e.correct && IndexOf(ps, e.id).Some?
      then ps[IndexOf(ps, e.id).value := ps[IndexOf(ps, e.id).value].(score := ps[IndexOf(ps, e.id).value].score + 1)]
      else ps
  {
  }

  /** `nameToId` mirrors the players' names: indexed, and no key is claimed
      unless some present player's normalised name is that key. */
  predicate Mirrors(ps: seq<Player>, index: map<string, SocketId>, norm: string -> string) {
    && IndexedBy(ps, index, norm)
    && forall k :: k in index ==> exists i :: 0 <= i < |ps| && norm(ps[i].name) == k
  }

  /** The first join of a socket keeps the mirror. */
  lemma JoinKeepsMirror(ps: seq<Player>, index: map<string, SocketId>, norm: string -> string,
                        id: SocketId, stored: string, key: string)
    requires UniqueIds(ps) && Mirrors(ps, index, norm) && !HasPlayer(ps, id)
    requires norm(stored) == key && key !in index
    ensures Mirrors(SetPlayer(ps, Player(id, stored, 0)), index[key := id], norm)
  {
    var r := SetPlayer(ps, Player(id, stored, 0));
    var index' := index[key := id];
    JoinKeepsIndex(ps, index, norm, id, stored, key);
    forall k | k in index' ensures exists i :: 0 <= i < |r| && norm(r[i].name) == k {
      if k == key {
        assert norm(r[|ps|].name) == k;
      } else {
        var i :| 0 <= i < |ps| && norm(ps[i].name) == k;
        assert r[i] == ps[i];
      }
    }
  }

  /** A player leaving keeps the mirror. */
  lemma DropKeepsMirror(ps: seq<Player>, index: map<string, SocketId>, norm: string -> string, id: SocketId)
    requires UniqueIds(ps) && Mirrors(ps, index, norm) && HasPlayer(ps, id)
    ensures Mirrors(RemovePlayer(ps, id), index - {norm(Find(ps, id).value.name)}, norm)
  {
    var gone := norm(Find(ps, id).value.name);
    var r := RemovePlayer(ps, id);
    var index' := index - {gone};
    DropKeepsIndex(ps, index, norm, id);
    forall k | k in index' ensures exists i :: 0 <= i < |r| && norm(r[i].name) == k {
      var i :| 0 <= i < |ps| && norm(ps[i].name) == k;
      FindAt(ps, i);
      assert ps[i] in r;
      var j :| 0 <= j < |r| && r[j] == ps[i];
    }
  }

  /** A socket joining twice, first as `first` and then as `second`: the index
      still points every player at its socket, but the first key stays claimed
      although no present player has that name any more. */
  lemma RejoinLeavesStaleKey(ps: seq<Player>, index: map<string, SocketId>, norm: string -> string,
                             id: SocketId, first: string, second: string)
    requires UniqueIds(ps) && IndexedBy(ps, index, norm)
    requires norm(first) !in index && norm(second) !in index && norm(first) != norm(second)
    ensures var once := SetPlayer(ps, Player(id, first, 0));
            var twice := SetPlayer(once, Player(id, second, 0));
            var index' := index[norm(first) := id][norm(second) := id];
            && IndexedBy(twice, index', norm)
            && norm(first) in index'
            && (forall i :: 0 <= i < |twice| ==> norm(twice[i].name) != norm(first))
            && !Mirrors(twice, index', norm)
  {
    var once := SetPlayer(ps, Player(id, first, 0));
    var twice := SetPlayer(once, Player(id, second, 0));
    var index' := index[norm(first) := id][norm(second) := id];
    JoinKeepsIndex(ps, index, norm, id, first, norm(first));
    SetPlayerKeepsUnique(ps, Player(id, first, 0));
    JoinKeepsIndex(once, index[norm(first) := id], norm, id, second, norm(second));
    forall i | 0 <= i < |twice| ensures norm(twice[i].name) != norm(first) {
      if i < |once| && once[i].id != id {
        assert twice[i] == once[i];
        if i < |ps| {
          assert once[i] == ps[i];
        }
      }
    }
  }
}
