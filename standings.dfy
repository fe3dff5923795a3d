/**
 * The leaderboard: `players.sort((a, b) => b.score - a.score)` followed by
 * `.map((player, index) => ... rank = index + 1)`. ECMAScript requires
 * `Array.prototype.sort` to be stable (section 23.1.3.30 of ECMA-262, 2023
 * edition), so the sort is modelled as a stable insertion sort driven by the
 * same comparator.
 */
module Standings {
  import opened Types
  import Roster

  /** The comparator `(a, b) => b.score - a.score`: positive when `b` must precede `a`. */
  function Compare(a: Player, b: Player): (r: int)
    ensures r < 0 <==> a.score > b.score
    ensures r == 0 <==> a.score == b.score
  {
    b.score - a.score
  }

  /** Scores never increase along `s`. */
  predicate NonIncreasing(s: seq<Player>)
  {
    forall i, j :: 0 <= i < j < |s| ==> s[i].score >= s[j].score
  }

  /** The entries of `s` whose score is `k`, in the order of `s`. */
  function OfScore(s: seq<Player>, k: int): (r: seq<Player>)
  {
    if s == [] then [] else (if s[0].score == k then [s[0]] else []) + OfScore(s[1..], k)
  }

  lemma {:induction false} OfScoreMembers(s: seq<Player>, k: int)
    ensures forall q :: q in OfScore(s, k) <==> q in s && q.score == k
  {
    if s != [] {
      OfScoreMembers(s[1..], k);
      assert s == [s[0]] + s[1..];
    }
  }

  lemma {:induction false} OfScoreAppend(a: seq<Player>, b: seq<Player>, k: int)
    ensures OfScore(a + b, k) == OfScore(a, k) + OfScore(b, k)
  {
    if a == [] {
      assert a + b == b;
    } else {
      assert (a + b)[1..] == a[1..] + b;
      OfScoreAppend(a[1..], b, k);
    }
  }

  /**
   * Inserts `x`, which came before every entry of `t` in the input, in front of
   * the first entry that the comparator does not order before it.
   */
  function Insert(x: Player, t: seq<Player>): (r: seq<Player>)
    ensures |r| == |t| + 1
    ensures multiset(r) == multiset(t) + multiset{x}
  {
    if t == [] || Compare(x, t[0]) <= 0 then
      [x] + t
    else
      assert t == [t[0]] + t[1..];
      [t[0]] + Insert(x, t[1..])
  }

  /** Inserting into a score-ordered sequence keeps it score-ordered. */
  lemma {:induction false} InsertOrdered(x: Player, t: seq<Player>)
    requires NonIncreasing(t)
    ensures NonIncreasing(Insert(x, t))
  {
    var r := Insert(x, t);
    if t == [] || Compare(x, t[0]) <= 0 {
      assert r == [x] + t;
      forall i, j | 0 <= i < j < |r| ensures r[i].score >= r[j].score {
        if i == 0 {
          assert r[j] == t[j - 1];
        }
      }
    } else {
      var rest := Insert(x, t[1..]);
      assert r == [t[0]] + rest;
      InsertOrdered(x, t[1..]);
      forall i, j | 0 <= i < j < |r| ensures r[i].score >= r[j].score {
        if i == 0 {
          var q := rest[j - 1];
          assert q in multiset(rest);
          assert q in multiset(t[1..]) || q == x;
          if q != x {
            assert q in t[1..];
            var m :| 0 <= m < |t[1..]| && t[1..][m] == q;
            assert t[m + 1] == q;
          }
        } else {
          assert r[i] == rest[i - 1] && r[j] == rest[j - 1];
        }
      }
    }
  }

  /** Insertion puts `x` ahead of every entry of the same score. */
  lemma {:induction false} InsertStable(x: Player, t: seq<Player>, k: int)
    ensures OfScore(Insert(x, t), k) == (if x.score == k then [x] else []) + OfScore(t, k)
  {
    if t == [] || Compare(x, t[0]) <= 0 {
      OfScoreAppend([x], t, k);
      assert [x][1..] == [];
    } else {
      var rest := Insert(x, t[1..]);
      InsertStable(x, t[1..], k);
      OfScoreAppend([t[0]], rest, k);
      assert t == [t[0]] + t[1..];
      OfScoreAppend([t[0]], t[1..], k);
      assert [t[0]][1..] == [];
    }
  }

  /** The stable sort of the roster by the leaderboard comparator. */
  function Sort(s: seq<Player>): (r: seq<Player>)
    ensures |r| == |s|
    ensures multiset(r) == multiset(s)
  {
    if s == [] then [] else
      assert s == [s[0]] + s[1..];
      Insert(s[0], Sort(s[1..]))
  }

  /** The sorted roster is in non-increasing score order. */
  lemma {:induction false} SortOrdered(s: seq<Player>)
    ensures NonIncreasing(Sort(s))
  {
    if s != [] {
      SortOrdered(s[1..]);
      InsertOrdered(s[0], Sort(s[1..]));
    }
  }

  /** The sort is stable: the entries of each score keep their roster order. */
  lemma {:induction false} SortStable(s: seq<Player>, k: int)
    ensures OfScore(Sort(s), k) == OfScore(s, k)
  {
    if s != [] {
      SortStable(s[1..], k);
      InsertStable(s[0], Sort(s[1..]), k);
      OfScoreAppend([s[0]], s[1..], k);
      assert s == [s[0]] + s[1..];
      assert [s[0]][1..] == [];
    }
  }

  /**
   * Two score-ordered sequences that agree on the entries of every score,
   * in order, are equal.
   */
  lemma {:induction false} OrderedAgreementIsEqual(t: seq<Player>, u: seq<Player>)
    requires NonIncreasing(t) && NonIncreasing(u)
    requires forall k :: OfScore(t, k) == OfScore(u, k)
    ensures t == u
  {
    if t == [] {
      if u != [] {
        OfScoreMembers(u, u[0].score);
        assert false;
      }
    } else if u == [] {
      OfScoreMembers(t, t[0].score);
      assert false;
    } else {
      var a, b := t[0].score, u[0].score;
      OfScoreMembers(t, a);
      OfScoreMembers(u, b);
      OfScoreMembers(t, b);
      OfScoreMembers(u, a);
      assert t[0] in OfScore(t, a);
      assert t[0] in OfScore(u, a);
      assert b >= a by {
        var i :| 0 <= i < |u| && u[i] == t[0];
      }
      assert u[0] in OfScore(u, b);
      assert u[0] in OfScore(t, b);
      assert a >= b by {
        var i :| 0 <= i < |t| && t[i] == u[0];
      }
      assert OfScore(t, a) == [t[0]] + OfScore(t[1..], a);
      assert OfScore(u, a) == [u[0]] + OfScore(u[1..], a);
      assert OfScore(t, a) == OfScore(u, a);
      assert t[0] == OfScore(t, a)[0];
      forall k ensures OfScore(t[1..], k) == OfScore(u[1..], k) {
        assert OfScore(t, k) == OfScore(u, k);
        if k == a {
          assert OfScore(t[1..], k) == OfScore(t, a)[1..];
          assert OfScore(u[1..], k) == OfScore(u, a)[1..];
        } else {
          assert OfScore(t, k) == OfScore(t[1..], k);
          assert OfScore(u, k) == OfScore(u[1..], k);
        }
      }
      assert NonIncreasing(t[1..]) by {
        forall i, j | 0 <= i < j < |t[1..]| ensures t[1..][i].score >= t[1..][j].score {
          assert t[1..][i] == t[i + 1] && t[1..][j] == t[j + 1];
        }
      }
      assert NonIncreasing(u[1..]) by {
        forall i, j | 0 <= i < j < |u[1..]| ensures u[1..][i].score >= u[1..][j].score {
          assert u[1..][i] == u[i + 1] && u[1..][j] == u[j + 1];
        }
      }
      OrderedAgreementIsEqual(t[1..], u[1..]);
      assert t == [t[0]] + t[1..];
      assert u == [u[0]] + u[1..];
    }
  }

  /**
   * Stable sorting has exactly one answer: any score-ordered arrangement that
   * keeps the input order within each score is `Sort(s)`.
   */
  lemma SortIsTheStableSort(s: seq<Player>, t: seq<Player>)
    requires NonIncreasing(t)
    requires forall k :: OfScore(t, k) == OfScore(s, k)
    ensures t == Sort(s)
  {
    SortOrdered(s);
    forall k ensures OfScore(t, k) == OfScore(Sort(s), k) {
      SortStable(s, k);
    }
    OrderedAgreementIsEqual(t, Sort(s));
  }

  /** Sorting a roster that is already in leaderboard order leaves it as it is. */
  lemma SortOfOrdered(s: seq<Player>)
    requires NonIncreasing(s)
    ensures Sort(s) == s
  {
    SortIsTheStableSort(s, s);
  }

  /** One leaderboard card: the player and the rank shown beside it. */
  datatype Entry = Entry(player: Player, rank: nat)

  /** The players shown on a board, top to bottom. */
  function Listed(board: seq<Entry>): (r: seq<Player>)
    ensures |r| == |board|
    ensures forall i :: 0 <= i < |board| ==> r[i] == board[i].player
  {
    if board == [] then [] else [board[0].player] + Listed(board[1..])
  }

  /** The cards rendered for the roster `players`. */
  function Leaderboard(players: seq<Player>): (board: seq<Entry>)
    ensures |board| == |players|
    ensures forall i :: 0 <= i < |board| ==> board[i].rank == i + 1
    ensures forall i, j :: 0 <= i < j < |board| ==> board[i].player.score >= board[j].player.score
    ensures multiset(Listed(board)) == multiset(players)
    ensures forall k :: OfScore(Listed(board), k) == OfScore(players, k)
  {
    var sorted := Sort(players);
    var board := seq(|sorted|, i requires 0 <= i < |sorted| => Entry(sorted[i], i + 1));
    assert Listed(board) == sorted;
    SortOrdered(players);
    forall k ensures OfScore(sorted, k) == OfScore(players, k) {
      SortStable(players, k);
    }
    board
  }

  /** Sorting two entries swaps them exactly when the second has the higher score. */
  lemma SortPair(p: Player, q: Player)
    ensures Sort([p, q]) == if q.score > p.score then [q, p] else [p, q]
  {
    assert [p, q][1..] == [q];
    assert [q][1..] == [];
    assert Sort([q]) == [q];
  }

  /**
   * Because the render sorts the stored roster in place, ties are shown in the
   * order of the previous render, not in order of arrival: `first` joined
   * before `second` with the same score, yet once `second`'s score has risen
   * and fallen back, `second` is listed first.
   */
  lemma TiesFollowPreviousRender(first: Player, second: Player, high: int)
    requires first.id != second.id && first.score == second.score < high
    ensures var risen := Sort(Roster.Rescored([first, second], PlayerScore(second.id, high)));
            risen == [second.(score := high), first] &&
            Sort(Roster.Rescored(risen, PlayerScore(second.id, second.score))) == [second, first]
  {
    var top := second.(score := high);
    var rose := Roster.Rescored([first, second], PlayerScore(second.id, high));
    assert rose == [first, top];
    SortPair(first, top);
    var fell := Roster.Rescored([top, first], PlayerScore(second.id, second.score));
    assert fell == [second, first];
    SortPair(second, first);
  }
}
