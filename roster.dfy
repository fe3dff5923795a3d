/** The pure roster updaters that the inbound handlers pass to `setPlayers`. */
module Roster {
  import opened Types

  /** Number of entries of `s` that carry the id `id`. */
  function CountId(s: seq<Player>, id: string): (n: nat)
    ensures n <= |s|
  {
    if s == [] then 0 else (if s[0].id == id then 1 else 0) + CountId(s[1..], id)
  }

  lemma {:induction false} CountIdAppend(a: seq<Player>, b: seq<Player>, id: string)
    ensures CountId(a + b, id) == CountId(a, id) + CountId(b, id)
  {
    if a == [] {
      assert a + b == b;
    } else {
      assert (a + b)[1..] == a[1..] + b;
      CountIdAppend(a[1..], b, id);
    }
  }

  /** `player-joined`: the spread-append `[...prev, player]`. */
  function Joined(s: seq<Player>, p: Player): (r: seq<Player>)
    ensures |r| == |s| + 1
    ensures r[..|s|] == s && r[|s|] == p
  {
    s + [p]
  }

  /** Joining does not look at ids: an id already present is present once more afterwards. */
  lemma JoinedKeepsDuplicates(s: seq<Player>, p: Player)
    ensures CountId(Joined(s, p), p.id) == CountId(s, p.id) + 1
    ensures forall id :: id != p.id ==> CountId(Joined(s, p), id) == CountId(s, id)
  {
    assert [p][1..] == [];
    forall id ensures CountId(Joined(s, p), id) == CountId(s, id) + (if p.id == id then 1 else 0) {
      CountIdAppend(s, [p], id);
    }
  }

  /** `player-left`: `prev.filter((player) => player.id !== id)`. */
  function Without(s: seq<Player>, id: string): (r: seq<Player>)
    ensures |r| <= |s|
    ensures forall q :: q in r <==> q in s && q.id != id
  {
    if s == [] then []
    else if s[0].id == id then Without(s[1..], id)
    else [s[0]] + Without(s[1..], id)
  }

  /** Filtering distributes over concatenation: the survivors keep their relative order. */
  lemma {:induction false} WithoutAppend(a: seq<Player>, b: seq<Player>, id: string)
    ensures Without(a + b, id) == Without(a, id) + Without(b, id)
  {
    if a == [] {
      assert a + b == b;
    } else {
      assert (a + b)[1..] == a[1..] + b;
      WithoutAppend(a[1..], b, id);
    }
  }

  /** A one-entry roster keeps its entry exactly when the id differs. */
  lemma WithoutSingle(p: Player, id: string)
    ensures Without([p], id) == if p.id == id then [] else [p]
  {
    assert [p][1..] == [];
  }

  /** Every entry with a different id survives with its multiplicity; none with the id does. */
  lemma {:induction false} WithoutMultiset(s: seq<Player>, id: string)
    ensures forall q :: multiset(Without(s, id))[q] == if q.id == id then 0 else multiset(s)[q]
    ensures |Without(s, id)| == |s| - CountId(s, id)
  {
    if s != [] {
      WithoutMultiset(s[1..], id);
      assert s == [s[0]] + s[1..];
    }
  }

  /** Leaving with an id nobody has changes nothing. */
  lemma {:induction false} WithoutAbsent(s: seq<Player>, id: string)
    requires forall i :: 0 <= i < |s| ==> s[i].id != id
    ensures Without(s, id) == s
  {
    if s != [] {
      WithoutAbsent(s[1..], id);
    }
  }

  /** Receiving the same `player-left` twice is the same as receiving it once. */
  lemma WithoutIdempotent(s: seq<Player>, id: string)
    ensures Without(Without(s, id), id) == Without(s, id)
  {
    var r := Without(s, id);
    forall i | 0 <= i < |r| ensures r[i].id != id {
      assert r[i] in r;
    }
    WithoutAbsent(r, id);
  }

  /** `player-score`: `prev.map` that replaces `score` on every entry with the id. */
  function Rescored(s: seq<Player>, u: PlayerScore): (r: seq<Player>)
    ensures |r| == |s|
    ensures forall i :: 0 <= i < |s| ==> r[i].id == s[i].id && r[i].name == s[i].name
    ensures forall i :: 0 <= i < |s| && s[i].id == u.id ==> r[i].score == u.score
    ensures forall i :: 0 <= i < |s| && s[i].id != u.id ==> r[i] == s[i]
  {
    if s == [] then []
    else [if s[0].id == u.id then s[0].(score := u.score) else s[0]] + Rescored(s[1..], u)
  }

  /** A score for an id nobody has changes nothing. */
  lemma RescoredAbsent(s: seq<Player>, u: PlayerScore)
    requires forall i :: 0 <= i < |s| ==> s[i].id != u.id
    ensures Rescored(s, u) == s
  {
  }

  /** Receiving the same `player-score` twice is the same as receiving it once. */
  lemma RescoredIdempotent(s: seq<Player>, u: PlayerScore)
    ensures Rescored(Rescored(s, u), u) == Rescored(s, u)
  {
  }

  /** A score that arrives after the player left does not bring the player back. */
  lemma ScoreAfterLeave(s: seq<Player>, u: PlayerScore)
    ensures Rescored(Without(s, u.id), u) == Without(s, u.id)
  {
    var r := Without(s, u.id);
    forall i | 0 <= i < |r| ensures r[i].id != u.id {
      assert r[i] in r;
    }
    RescoredAbsent(r, u);
  }

  /** A score followed by the player's departure leaves the same roster as the departure alone. */
  lemma {:induction false} LeaveAfterScore(s: seq<Player>, u: PlayerScore)
    ensures Without(Rescored(s, u), u.id) == Without(s, u.id)
  {
    if s != [] {
      LeaveAfterScore(s[1..], u);
      var r := Rescored(s, u);
      assert r[1..] == Rescored(s[1..], u);
    }
  }
}
