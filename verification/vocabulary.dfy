/**
  The read-only word data and the rank computation.

  The vocabulary is the noun list together with the set of nouns that have a
  word vector. A noun is *valid* when it has a vector; targets are drawn from
  the valid nouns, and the rank of a guess is its 1-based position in the valid
  nouns sorted by decreasing cosine similarity to the target. The similarity
  itself is floating-point arithmetic and is not modelled: the sorted list is
  a parameter (`ranking`), constrained to be a reordering of the valid nouns,
  and the similarity scores, where needed, are an arbitrary `sim` function.
 */
module Vocabulary {
  import opened Options

  /** The noun list and the nouns that have an embedding. */
  datatype Vocab = Vocab(nouns: seq<string>, embedded: set<string>)

  /** `ws.filter(w => embeddings[w])`: every noun with a vector, as often as it is listed, and no other word. */
  function FilterEmbedded(ws: seq<string>, embedded: set<string>): (r: seq<string>)
    ensures |r| <= |ws|
    ensures forall w :: multiset(r)[w] == if w in embedded then multiset(ws)[w] else 0
  {
    if |ws| == 0 then []
    else
      assert ws == [ws[0]] + ws[1..];
      (if ws[0] in embedded then [ws[0]] else []) + FilterEmbedded(ws[1..], embedded)
  }

  /** The valid nouns, in noun-list order. */
  function Valid(v: Vocab): (r: seq<string>)
    ensures forall w :: w in r <==> w in v.nouns && w in v.embedded
  {
    var r := FilterEmbedded(v.nouns, v.embedded);
    assert forall w :: w in r <==> multiset(r)[w] > 0;
    r
  }

  /**
    The random index into the valid nouns: `Math.floor(Math.random() * n)`
    is below `n` when `n > 0` and is `0` when `n == 0`.
   */
  predicate IsPick(valid: seq<string>, pick: nat) {
    pick < |valid| || (|valid| == 0 && pick == 0)
  }

  /** `valid[pick]`, which is `undefined` when there is no valid noun at all. */
  function PickTarget(valid: seq<string>, pick: nat): (t: Option<string>)
    requires IsPick(valid, pick)
    ensures t.Some? <==> |valid| > 0
    ensures t.Some? ==> t.value in valid
  {
    if pick < |valid| then Some(valid[pick]) else None
  }

  /** Every valid noun is a possible target. */
  lemma EveryValidNounCanBePicked(valid: seq<string>, w: string)
    requires w in valid
    ensures exists pick :: IsPick(valid, pick) && PickTarget(valid, pick) == Some(w)
  {
    var i :| 0 <= i < |valid| && valid[i] == w;
    assert IsPick(valid, i) && PickTarget(valid, i) == Some(w);
  }

  /** What a session's target may be: a valid noun, or `undefined` when there is none. */
  predicate TargetOk(t: Option<string>, v: Vocab) {
    if |Valid(v)| == 0 then t.None? else t.Some? && t.value in Valid(v)
  }

  /** A fresh target always satisfies `TargetOk`. */
  lemma PickTargetOk(v: Vocab, pick: nat)
    requires IsPick(Valid(v), pick)
    ensures TargetOk(PickTarget(Valid(v), pick), v)
  {
  }

  /** `s.findIndex(w => w === x)`: the first index holding `x`, or -1. */
  function IndexOf(s: seq<string>, x: string): (r: int)
    ensures -1 <= r < |s|
    ensures r == -1 <==> x !in s
    ensures 0 <= r ==> s[r] == x && forall j :: 0 <= j < r ==> s[j] != x
  {
    if |s| == 0 then -1
    else if s[0] == x then 0
    else
      var k := IndexOf(s[1..], x);
      if k == -1 then -1 else k + 1
  }

  /** The similarity-sorted list is a reordering of the valid nouns. */
  predicate IsRanking(ranking: seq<string>, v: Vocab) {
    multiset(ranking) == multiset(Valid(v))
  }

  /** `sims.findIndex(item => item.word === guess) + 1`. */
  function Rank(ranking: seq<string>, guess: string): (r: int)
    ensures 0 <= r <= |ranking|
    ensures r == 0 <==> guess !in ranking
    ensures r > 0 ==> ranking[r - 1] == guess && forall j :: 0 <= j < r - 1 ==> ranking[j] != guess
  {
    IndexOf(ranking, guess) + 1
  }

  /**
    For a guess from the noun list, the rank lies in `1 .. |valid|` exactly
    when the guess has a vector, and is 0 exactly when it has none.
   */
  lemma RankOfNoun(ranking: seq<string>, v: Vocab, guess: string)
    requires IsRanking(ranking, v)
    requires guess in v.nouns
    ensures guess in v.embedded <==> 1 <= Rank(ranking, guess) <= |Valid(v)|
    ensures guess !in v.embedded <==> Rank(ranking, guess) == 0
  {
    assert |ranking| == |multiset(ranking)| == |Valid(v)|;
    assert guess in ranking <==> guess in multiset(ranking);
  }

  /** The target itself always gets a positive rank. */
  lemma TargetRankPositive(ranking: seq<string>, v: Vocab, target: string)
    requires IsRanking(ranking, v)
    requires TargetOk(Some(target), v)
    ensures Rank(ranking, target) >= 1
  {
    assert target in multiset(ranking);
  }

  // ---------------------------------------------------------------------------
  // Rank versus similarity scores

  /** The list is ordered by decreasing similarity, as `sort((a, b) => b.sim - a.sim)` leaves it. */
  predicate SortedBy(ranking: seq<string>, sim: string -> real) {
    forall i, j :: 0 <= i < j < |ranking| ==> sim(ranking[i]) >= sim(ranking[j])
  }

  /** The number of entries of `s` that satisfy `p`. */
  function Count(s: seq<string>, p: string -> bool): (n: nat)
    ensures n <= |s|
  {
    if |s| == 0 then 0 else (if p(s[0]) then 1 else 0) + Count(s[1..], p)
  }

  /** Being strictly more similar to the target than `g` is. */
  function CloserThan(sim: string -> real, g: string): string -> bool {
    w => sim(w) > sim(g)
  }

  /** Being at least as similar to the target as `g` is. */
  function AsCloseAs(sim: string -> real, g: string): string -> bool {
    w => sim(w) >= sim(g)
  }

  lemma {:induction false} CountNone(s: seq<string>, p: string -> bool)
    requires forall i :: 0 <= i < |s| ==> !p(s[i])
    ensures Count(s, p) == 0
  {
    if |s| > 0 {
      CountNone(s[1..], p);
    }
  }

  lemma {:induction false} CountConcat(a: seq<string>, b: seq<string>, p: string -> bool)
    ensures Count(a + b, p) == Count(a, p) + Count(b, p)
  {
    if |a| > 0 {
      assert (a + b)[1..] == a[1..] + b;
      CountConcat(a[1..], b, p);
    } else {
      assert a + b == b;
    }
  }

  /** Taking out the entry at `k` removes one copy of it. */
  lemma RemoveAtMultiset(b: seq<string>, k: nat)
    requires k < |b|
    ensures multiset(b[..k] + b[k + 1..]) == multiset(b) - multiset{b[k]}
  {
    var head, tail := b[..k], b[k + 1..];
    assert b == head + [b[k]] + tail;
    assert multiset(b) == multiset(head) + multiset{b[k]} + multiset(tail);
    assert multiset(head + tail) == multiset(head) + multiset(tail);
  }

  /** Taking out the entry at `k` removes its share of the count. */
  lemma RemoveAtCount(b: seq<string>, k: nat, p: string -> bool)
    requires k < |b|
    ensures Count(b, p) == Count(b[..k] + b[k + 1..], p) + (if p(b[k]) then 1 else 0)
  {
    var head, tail := b[..k], b[k..];
    assert b == head + tail;
    assert tail[1..] == b[k + 1..];
    CountConcat(head, tail, p);
    CountConcat(head, b[k + 1..], p);
  }

  /** Counting does not depend on the order of the entries. */
  lemma {:induction false} CountPermutation(a: seq<string>, b: seq<string>, p: string -> bool)
    requires multiset(a) == multiset(b)
    ensures Count(a, p) == Count(b, p)
    decreases |a|
  {
    if |a| > 0 {
      assert a[0] in multiset(b);
      var k :| 0 <= k < |b| && b[k] == a[0];
      RemoveAtMultiset(b, k);
      RemoveAtCount(b, k, p);
      assert a == [a[0]] + a[1..];
      assert multiset(a[1..]) == multiset(a) - multiset{a[0]};
      CountPermutation(a[1..], b[..k] + b[k + 1..], p);
    } else {
      assert b == [];
    }
  }

  /**
    With ties allowed, the rank of `g` is more than the number of entries
    strictly closer to the target, and at most the number at least as close.
   */
  lemma {:induction false} RankWithinTies(ranking: seq<string>, sim: string -> real, g: string)
    requires SortedBy(ranking, sim)
    requires g in ranking
    ensures Count(ranking, CloserThan(sim, g)) < Rank(ranking, g) <= Count(ranking, AsCloseAs(sim, g))
  {
    var rest := ranking[1..];
    if ranking[0] == g {
      CountNone(rest, CloserThan(sim, g));
    } else {
      RankWithinTies(rest, sim, g);
      assert Rank(ranking, g) == Rank(rest, g) + 1;
    }
  }

  /** The list sorted with no two entries equally similar to the target. */
  predicate StrictlySortedBy(ranking: seq<string>, sim: string -> real) {
    forall i, j :: 0 <= i < j < |ranking| ==> sim(ranking[i]) > sim(ranking[j])
  }

  /**
    Without ties, rank is one more than the number of valid nouns strictly
    more similar to the target than the guess.
   */
  lemma {:induction false} RankCountsCloserNouns(ranking: seq<string>, v: Vocab, sim: string -> real, g: string)
    requires IsRanking(ranking, v)
    requires StrictlySortedBy(ranking, sim)
    requires g in ranking
    ensures Rank(ranking, g) == 1 + Count(Valid(v), CloserThan(sim, g))
  {
    StrictRankCountsCloser(ranking, sim, g);
    CountPermutation(ranking, Valid(v), CloserThan(sim, g));
  }

  lemma {:induction false} StrictRankCountsCloser(ranking: seq<string>, sim: string -> real, g: string)
    requires StrictlySortedBy(ranking, sim)
    requires g in ranking
    ensures Rank(ranking, g) == 1 + Count(ranking, CloserThan(sim, g))
  {
    var rest := ranking[1..];
    if ranking[0] == g {
      CountNone(rest, CloserThan(sim, g));
    } else {
      StrictRankCountsCloser(rest, sim, g);
      var i :| 0 <= i < |ranking| && ranking[i] == g;
      assert sim(ranking[0]) > sim(ranking[i]);
      assert Rank(ranking, g) == Rank(rest, g) + 1;
    }
  }
}
