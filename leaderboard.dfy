/** `getLeaderboard`: the players sorted by descending score, ranked by position. */
module Leaderboard {
  import opened Types

  /** Scores never increase along `ps`. */
  ghost predicate NonIncreasing(ps: seq<Player>)
  {
    forall i, j :: 0 <= i < j < |ps| ==> ps[i].score >= ps[j].score
  }

  /** The players of `ps` whose score is `v`, in their order in `ps`. */
  function WithScore(ps: seq<Player>, v: int): seq<Player>
  {
    if ps == [] then [] else (if ps[0].score == v then [ps[0]] else []) + WithScore(ps[1..], v)
  }

  /** Places `p` in front of the first player of `ps` whose score does not
      exceed its own, so `p` stays ahead of the players it ties with. */
  function Insert(p: Player, ps: seq<Player>): (r: seq<Player>)
    ensures multiset(r) == multiset(ps) + multiset{p}
  {
    if ps == [] || ps[0].score <= p.score then [p] + ps
    else
      assert ps == [ps[0]] + ps[1..];
      [ps[0]] + Insert(p, ps[1..])
  }

  lemma {:induction false} InsertSorted(p: Player, ps: seq<Player>)
    requires NonIncreasing(ps)
    ensures NonIncreasing(Insert(p, ps))
  {
    if ps != [] && ps[0].score > p.score {
      var rest := Insert(p, ps[1..]);
      InsertSorted(p, ps[1..]);
      forall x | x in rest ensures x.score <= ps[0].score {
        assert x in multiset(rest);
        if x != p {
          assert x in multiset(ps[1..]);
        }
      }
      assert Insert(p, ps) == [ps[0]] + rest;
    }
  }

  /** `sort((a, b) => b.score - a.score)`.  Array.prototype.sort is stable,
      so players with equal scores keep their order (`SortKeepsTies`); any
      stable descending sort gives this same list (`SortIsUnique`). */
  function SortByScore(ps: seq<Player>): (r: seq<Player>)
    ensures multiset(r) == multiset(ps)
    ensures NonIncreasing(r)
  {
    if ps == [] then []
    else
      assert ps == [ps[0]] + ps[1..];
      InsertSorted(ps[0], SortByScore(ps[1..]));
      Insert(ps[0], SortByScore(ps[1..]))
  }

  /** The `.map((player, index) => ({ rank: index + 1, username, score }))` step. */
  function Ranked(ps: seq<Player>): (r: seq<Entry>)
    ensures |r| == |ps|
    ensures forall i :: 0 <= i < |r| ==> r[i] == Entry(i + 1, ps[i].username, ps[i].score)
  {
    if ps == [] then [] else Ranked(ps[..|ps| - 1]) + [Entry(|ps|, ps[|ps| - 1].username, ps[|ps| - 1].score)]
  }

  /** The leaderboard of the players `ps` (listed in insertion order): one
      entry per player, of a permutation of `ps`, with non-increasing scores
      and the positional ranks 1..|ps|. */
  function GetLeaderboard(ps: seq<Player>): (r: seq<Entry>)
    ensures |r| == |ps|
    ensures forall i :: 0 <= i < |r| ==> r[i].rank == i + 1
    ensures forall i, j :: 0 <= i < j < |r| ==> r[i].score >= r[j].score
    ensures forall i :: 0 <= i < |r| ==>
              exists p :: p in ps && r[i].username == p.username && r[i].score == p.score
  {
    var sorted := SortByScore(ps);
    assert |sorted| == |multiset(ps)| == |ps|;
    forall i | 0 <= i < |sorted| ensures sorted[i] in ps {
      assert sorted[i] in multiset(sorted);
    }
    Ranked(sorted)
  }

  lemma {:induction false} InsertKeepsTies(p: Player, ps: seq<Player>, v: int)
    ensures WithScore(Insert(p, ps), v) == (if p.score == v then [p] else []) + WithScore(ps, v)
  {
    if ps == [] || ps[0].score <= p.score {
      assert ([p] + ps)[1..] == ps;
    } else {
      InsertKeepsTies(p, ps[1..], v);
      assert ([ps[0]] + Insert(p, ps[1..]))[1..] == Insert(p, ps[1..]);
    }
  }

  /** Stability: for every score, the players holding it appear in the
      leaderboard in the order they joined. */
  lemma {:induction false} SortKeepsTies(ps: seq<Player>, v: int)
    ensures WithScore(SortByScore(ps), v) == WithScore(ps, v)
  {
    if ps != [] {
      SortKeepsTies(ps[1..], v);
      InsertKeepsTies(ps[0], SortByScore(ps[1..]), v);
    }
  }

  lemma {:induction false} WithScoreAbsent(ps: seq<Player>, v: int)
    requires forall i :: 0 <= i < |ps| ==> ps[i].score != v
    ensures WithScore(ps, v) == []
  {
    if ps != [] {
      WithScoreAbsent(ps[1..], v);
    }
  }

  lemma TiesNonEmpty(a: seq<Player>, b: seq<Player>)
    requires a != []
    requires forall v :: WithScore(a, v) == WithScore(b, v)
    ensures b != []
  {
    assert WithScore(a, a[0].score) != [];
    assert WithScore(b, a[0].score) != [];
  }

  /** Two descending lists that agree, score by score, on which players hold
      that score and in which order, are the same list. */
  lemma {:induction false} SameTiesSameList(a: seq<Player>, b: seq<Player>)
    requires NonIncreasing(a) && NonIncreasing(b)
    requires forall v :: WithScore(a, v) == WithScore(b, v)
    ensures a == b
  {
    if a == [] || b == [] {
      if a != [] {
        TiesNonEmpty(a, b);
      } else if b != [] {
        TiesNonEmpty(b, a);
      }
    } else {
      var va, vb := a[0].score, b[0].score;
      if va > vb {
        assert WithScore(a, va) != [];
        WithScoreAbsent(b, va);
        assert false;
      } else if vb > va {
        assert WithScore(b, vb) != [];
        WithScoreAbsent(a, vb);
        assert false;
      }
      assert WithScore(a, va)[0] == a[0] && WithScore(b, va)[0] == b[0];
      assert a[0] == b[0];
      forall v ensures WithScore(a[1..], v) == WithScore(b[1..], v) {
        assert WithScore(a, v) == WithScore(b, v);
        assert WithScore(a, v) == (if va == v then [a[0]] else []) + WithScore(a[1..], v);
        assert WithScore(b, v) == (if va == v then [a[0]] else []) + WithScore(b[1..], v);
        if va == v {
          assert WithScore(a[1..], v) == WithScore(a, v)[1..];
          assert WithScore(b[1..], v) == WithScore(b, v)[1..];
        } else {
          assert WithScore(a[1..], v) == WithScore(a, v);
          assert WithScore(b[1..], v) == WithScore(b, v);
        }
      }
      SameTiesSameList(a[1..], b[1..]);
      assert a == [a[0]] + a[1..] && b == [b[0]] + b[1..];
    }
  }

  /** Any descending ordering of the players that keeps tied players in
      insertion order is exactly the leaderboard order. */
  lemma SortIsUnique(ps: seq<Player>, r: seq<Player>)
    requires NonIncreasing(r)
    requires forall v :: WithScore(r, v) == WithScore(ps, v)
    ensures r == SortByScore(ps)
  {
    forall v ensures WithScore(r, v) == WithScore(SortByScore(ps), v) {
      SortKeepsTies(ps, v);
    }
    SameTiesSameList(r, SortByScore(ps));
  }

  /** The (username, score) view of players and of leaderboard entries. */
  function Pairs(ps: seq<Player>): (r: seq<(string, int)>)
    ensures |r| == |ps|
    ensures forall i :: 0 <= i < |ps| ==> r[i] == (ps[i].username, ps[i].score)
  {
    seq(|ps|, i requires 0 <= i < |ps| => (ps[i].username, ps[i].score))
  }

  function Unranked(r: seq<Entry>): (u: seq<(string, int)>)
    ensures |u| == |r|
    ensures forall i :: 0 <= i < |r| ==> u[i] == (r[i].username, r[i].score)
  {
    seq(|r|, i requires 0 <= i < |r| => (r[i].username, r[i].score))
  }

  /** The pairs of `qs` whose score is `v`, in their order in `qs`. */
  function PairsWith(qs: seq<(string, int)>, v: int): seq<(string, int)>
  {
    if qs == [] then [] else (if qs[0].1 == v then [qs[0]] else []) + PairsWith(qs[1..], v)
  }

  lemma {:induction false} PairsOfTies(ps: seq<Player>, v: int)
    ensures PairsWith(Pairs(ps), v) == Pairs(WithScore(ps, v))
  {
    if ps != [] {
      PairsOfTies(ps[1..], v);
      assert Pairs(ps)[1..] == Pairs(ps[1..]);
      var head := if ps[0].score == v then [ps[0]] else [];
      assert Pairs(head + WithScore(ps[1..], v)) == Pairs(head) + Pairs(WithScore(ps[1..], v));
    }
  }

  /** The leaderboard lists every player once and keeps ties in join order:
      for each score, its entries with that score are, name for name, the
      players holding it in the order they joined. */
  lemma LeaderboardGroups(ps: seq<Player>, v: int)
    ensures PairsWith(Unranked(GetLeaderboard(ps)), v) == Pairs(WithScore(ps, v))
  {
    var sorted := SortByScore(ps);
    assert Unranked(GetLeaderboard(ps)) == Pairs(sorted);
    PairsOfTies(sorted, v);
    SortKeepsTies(ps, v);
  }
}
