/** The `players` map of a session, kept in insertion order, and the admin
    election done by `addPlayer` and `removePlayer`. */
module Roster {
  import opened Types

  /** `players` is a JavaScript Map: `order` is its key iteration order,
      `players` its entries. `adminId` is null (`None`) or a socket id. */
  datatype Roster = Roster(order: seq<SocketId>, players: map<SocketId, Player>, adminId: Option<SocketId>)

  ghost predicate Distinct(s: seq<SocketId>)
  {
    forall i, j :: 0 <= i < j < |s| ==> s[i] != s[j]
  }

  /** What every session's player map satisfies: each key once, in order;
      each record carries its own key; an admin exactly when there are
      players, and the admin is one of them. */
  ghost predicate WellFormed(r: Roster)
  {
    && Distinct(r.order)
    && (forall s :: s in r.players <==> s in r.order)
    && (forall s :: s in r.players ==> r.players[s].id == s)
    && (r.adminId.None? <==> r.order == [])
    && (r.adminId.Some? ==> r.adminId.value in r.players)
  }

  /** The empty map of a new session, with `adminId = null`. */
  function Empty(): (r: Roster)
    ensures WellFormed(r) && r.order == []
  {
    Roster([], map[], None)
  }

  /** `Array.from(players.values())`: the records in insertion order. */
  function PlayerList(r: Roster): (ps: seq<Player>)
    requires WellFormed(r)
    ensures |ps| == |r.order|
    ensures forall i :: 0 <= i < |ps| ==> ps[i] == r.players[r.order[i]]
  {
    seq(|r.order|, i requires 0 <= i < |r.order| => r.players[r.order[i]])
  }

  /** `isAdmin(socketId)`: only `adminId` decides, never a record's flag. */
  predicate IsAdmin(r: Roster, socketId: SocketId)
  {
    r.adminId == Some(socketId)
  }

  /** The position of the first `x` in `s`. */
  function IndexOf(s: seq<SocketId>, x: SocketId): (k: nat)
    requires x in s
    ensures k < |s| && s[k] == x && x !in s[..k]
  {
    if s[0] == x then 0 else 1 + IndexOf(s[1..], x)
  }

  /** Putting the head back in front of the tail with its `k`-th element
      cut out is `s` with its `k + 1`-th element cut out. */
  lemma ConsSplit(s: seq<SocketId>, k: int)
    requires 0 <= k < |s| - 1
    ensures [s[0]] + (s[1..][..k] + s[1..][k + 1..]) == s[..k + 1] + s[k + 2..]
  {
    assert s[..k + 1] == [s[0]] + s[1..][..k];
    assert s[k + 2..] == s[1..][k + 1..];
  }

  /** The key order after `Map.delete(x)`: `s` without `x`, the rest in order. */
  function Without(s: seq<SocketId>, x: SocketId): (t: seq<SocketId>)
    ensures forall y :: y in t <==> y in s && y != x
    ensures x !in s ==> t == s
    ensures Distinct(s) ==> Distinct(t)
    ensures Distinct(s) && x in s ==> |t| == |s| - 1
  {
    if s == [] then []
    else
      var rest := Without(s[1..], x);
      assert Distinct(s) ==> s[0] !in s[1..];
      if s[0] == x then rest else [s[0]] + rest
  }

  /** Deleting a key cuts it out of the key order where it stood and keeps
      every other key in its relative place: the keys before it, then the
      keys after it. */
  lemma {:induction false} WithoutCutsOut(s: seq<SocketId>, x: SocketId)
    requires Distinct(s) && x in s
    ensures Without(s, x) == s[..IndexOf(s, x)] + s[IndexOf(s, x) + 1..]
    ensures exists k :: 0 <= k < |s| && s[k] == x && Without(s, x) == s[..k] + s[k + 1..]
  {
    var t := Without(s, x);
    if s[0] == x {
      assert x !in s[1..];
      assert t == s[1..];
    } else {
      assert Distinct(s[1..]);
      var k := IndexOf(s[1..], x);
      WithoutCutsOut(s[1..], x);
      assert IndexOf(s, x) == k + 1;
      ConsSplit(s, k);
    }
    assert s[IndexOf(s, x)] == x;
  }

  /** The record `addPlayer` stores: score 0, no answers. */
  function NewPlayer(socketId: SocketId, username: string, isAdmin: bool): Player
  {
    Player(socketId, username, 0, [], isAdmin)
  }

  /** `addPlayer(socketId, username, isAdmin)`: `Map.set` of a fresh
      record, then the admin election. */
  function AddPlayer(r: Roster, socketId: SocketId, username: string, isAdmin: bool): (r': Roster)
    requires WellFormed(r)
    ensures WellFormed(r')
  {
    var becomesAdmin := isAdmin || r.adminId.None?;
    var order := if socketId in r.players then r.order else r.order + [socketId];
    var r' := Roster(order, r.players[socketId := NewPlayer(socketId, username, becomesAdmin)],
                     if becomesAdmin then Some(socketId) else r.adminId);
    assert socketId !in r.players ==> forall i :: 0 <= i < |r.order| ==> r.order[i] != socketId;
    r'
  }

  /** What `addPlayer` does to the map. `Map.set` on a key already present
      replaces the record but keeps the key's position. The new record has
      score 0 and no answers. The new player becomes admin when the flag is
      passed or there was no admin, and a previous admin then loses the role
      (its record keeps its `isAdmin` flag). */
  lemma AddPlayerSpec(r: Roster, socketId: SocketId, username: string, isAdmin: bool)
    requires WellFormed(r)
    ensures var r' := AddPlayer(r, socketId, username, isAdmin);
            && r'.players.Keys == r.players.Keys + {socketId}
            && r'.players[socketId] == NewPlayer(socketId, username, isAdmin || r.adminId.None?)
            && r'.players[socketId].score == 0 && r'.players[socketId].answers == []
            && (forall s :: s in r.players && s != socketId ==> r'.players[s] == r.players[s])
            && (socketId in r.players ==> r'.order == r.order)
            && (socketId !in r.players ==> r'.order == r.order + [socketId])
            && (IsAdmin(r', socketId) <==> isAdmin || r.adminId.None? || IsAdmin(r, socketId))
            && (forall s :: s != socketId ==> (IsAdmin(r', s) <==> IsAdmin(r, s) && !isAdmin))
  {
  }

  /** `removePlayer(socketId)`: `Map.delete`, then the admin election. */
  function RemovePlayer(r: Roster, socketId: SocketId): (r': Roster)
    requires WellFormed(r)
    ensures WellFormed(r')
  {
    var wasAdmin := IsAdmin(r, socketId);
    var order := Without(r.order, socketId);
    var players := r.players - {socketId};
    assert forall s :: s in players <==> s in order;
    if wasAdmin && |order| > 0 then
      var newAdminId := order[0];
      Roster(order, players[newAdminId := players[newAdminId].(isAdmin := true)], Some(newAdminId))
    else if |order| == 0 then
      Roster(order, players, None)
    else
      Roster(order, players, r.adminId)
  }

  /** What `removePlayer` does to the map: it deletes only that player. If
      it was the admin and players remain, the first remaining player in
      insertion order becomes admin (and its flag is set); if none remain
      the admin is null; otherwise the admin is unchanged. */
  lemma RemovePlayerSpec(r: Roster, socketId: SocketId)
    requires WellFormed(r)
    ensures var r' := RemovePlayer(r, socketId);
            && r'.players.Keys == r.players.Keys - {socketId}
            && r'.order == Without(r.order, socketId)
            && (r'.order == [] ==> r'.adminId.None?)
            && (IsAdmin(r, socketId) && r'.order != [] ==>
                  r'.adminId == Some(r'.order[0]) && r'.players[r'.order[0]].isAdmin)
            && (!IsAdmin(r, socketId) ==> r'.adminId == r.adminId)
            && (forall s :: s in r'.players ==>
                  r'.players[s] == (if IsAdmin(r, socketId) && s == r'.order[0] then r.players[s].(isAdmin := true) else r.players[s]))
  {
    var r' := RemovePlayer(r, socketId);
    if IsAdmin(r, socketId) && r'.order != [] {
      assert r'.players == (r.players - {socketId})[r'.order[0] := r.players[r'.order[0]].(isAdmin := true)];
    } else {
      assert r'.players == r.players - {socketId};
    }
  }

  /** The new admin is the earliest-joined player still present: the first
      key, or the second one when the first is the player who left. */
  lemma NewAdminIsFirstRemaining(r: Roster, socketId: SocketId)
    requires WellFormed(r) && IsAdmin(r, socketId) && |r.order| >= 2
    ensures RemovePlayer(r, socketId).adminId == Some(if r.order[0] == socketId then r.order[1] else r.order[0])
  {
    var t := Without(r.order, socketId);
    assert r.order == [r.order[0]] + r.order[1..];
    if r.order[0] == socketId {
      assert socketId !in r.order[1..];
      assert t == r.order[1..];
    } else {
      assert t[0] == r.order[0];
    }
  }

  lemma {:induction false} WithoutAppended(s: seq<SocketId>, x: SocketId)
    requires x !in s
    ensures Without(s + [x], x) == s
  {
    if s != [] {
      assert (s + [x])[1..] == s[1..] + [x];
      WithoutAppended(s[1..], x);
      assert s == [s[0]] + s[1..];
    }
  }

  /** A player who joins without claiming admin (or joins an empty map) and
      leaves again restores the map exactly. */
  lemma JoinThenLeave(r: Roster, socketId: SocketId, username: string, isAdmin: bool)
    requires WellFormed(r) && socketId !in r.players
    requires !isAdmin || r.order == []
    ensures RemovePlayer(AddPlayer(r, socketId, username, isAdmin), socketId) == r
  {
    var r' := AddPlayer(r, socketId, username, isAdmin);
    WithoutAppended(r.order, socketId);
    assert r'.players - {socketId} == r.players;
    if r.order == [] {
      assert r.players == map[];
    }
  }

  /** A creator joining after another admin moves `adminId` but leaves the
      earlier admin's record flagged: two records claim `isAdmin`. */
  lemma CreatorJoinLeavesStaleFlag(a: SocketId, b: SocketId)
    requires a != b
    ensures var r := AddPlayer(AddPlayer(Empty(), a, "A", false), b, "B", true);
            r.players[a].isAdmin && r.players[b].isAdmin && r.adminId == Some(b)
  {
  }
}
