/**
  Session identifiers: six-digit decimal strings drawn at random and redrawn
  until they do not name a live session (rejection sampling).

  `Math.floor(100000 + Math.random() * 900000)` equals `100000 + d` where
  `d = Math.floor(Math.random() * 900000)` lies in `0 .. 899999`; the model
  takes the sequence of those draws `d` as a parameter.
 */
module SessionIds {
  import opened Text

  /** Number of distinct ids the generator can produce. */
  const IdRange: nat := 900000
  /** Smallest id the generator can produce. */
  const IdBase: nat := 100000

  /** A six-digit decimal string without a leading zero. */
  predicate IsSessionId(s: string) {
    |s| == 6 && AllDigits(s) && s[0] != '0'
  }

  /** The id produced by one random draw `d`, i.e. `(100000 + d).toString()`. */
  function IdOf(d: nat): (id: string)
    requires d < IdRange
    ensures IsSessionId(id)
    ensures ParseDecimal(id) == IdBase + d
  {
    SixDigitBounds();
    ToDecimalLength(IdBase + d, 6);
    ParseToDecimal(IdBase + d);
    ToDecimal(IdBase + d)
  }

  /** Every six-digit id is produced by exactly one draw. */
  lemma IdOfOnto(s: string)
    requires IsSessionId(s)
    ensures ParseDecimal(s) >= IdBase && ParseDecimal(s) - IdBase < IdRange
    ensures IdOf(ParseDecimal(s) - IdBase) == s
    ensures forall d :: 0 <= d < IdRange && IdOf(d) == s ==> d == ParseDecimal(s) - IdBase
  {
    ToDecimalParse(s);
    var n := ParseDecimal(s);
    if n < IdBase {
      ToDecimalLength(n, ShortLength(n));
    } else if n >= IdBase + IdRange {
      ToDecimalLength(n, LongLength(n));
    }
  }

  /** The ids are exactly the numbers with six digits. */
  lemma SixDigitBounds()
    ensures Pow10(5) == IdBase && Pow10(6) == IdBase + IdRange
  {
    assert Pow10(2) == 100;
    assert Pow10(4) == 10000;
  }

  /** Number of digits of a positive number below 100000. */
  function ShortLength(n: nat): (k: nat)
    requires 1 <= n < IdBase
    ensures 1 <= k <= 5 && Pow10(k - 1) <= n < Pow10(k)
  {
    if n < 10 then 1 else if n < 100 then 2 else if n < 1000 then 3
    else if n < 10000 then 4 else 5
  }

  /** Number of digits of a number of at least 1000000, capped by growth. */
  function LongLength(n: nat): (k: nat)
    requires n >= IdBase + IdRange
    ensures k >= 7 && Pow10(k - 1) <= n < Pow10(k)
    decreases n
  {
    SixDigitBounds();
    LongLengthFrom(n, 7)
  }

  function LongLengthFrom(n: nat, k: nat): (r: nat)
    requires k >= 1 && n >= Pow10(k - 1)
    ensures r >= k && Pow10(r - 1) <= n < Pow10(r)
    decreases n - Pow10(k - 1)
  {
    if n < Pow10(k) then k else LongLengthFrom(n, k + 1)
  }

  /** Distinct draws give distinct ids. */
  lemma IdOfInjective(a: nat, b: nat)
    requires a < IdRange && b < IdRange
    ensures IdOf(a) == IdOf(b) ==> a == b
  {
    ToDecimalInjective(IdBase + a, IdBase + b);
  }

  /**
    `generateSessionId`: draw until the id is not a key of `games`. The
    requirement that some draw in the stream is fresh is what makes the loop
    stop; `FreshIdExists` shows such a draw is possible whenever fewer than
    900000 sessions are live.
   */
  method GenerateSessionId<G>(games: map<string, G>, draws: seq<nat>) returns (id: string)
    requires forall i :: 0 <= i < |draws| ==> draws[i] < IdRange
    requires exists i :: 0 <= i < |draws| && IdOf(draws[i]) !in games
    ensures id !in games
    ensures IsSessionId(id)
    ensures exists k :: 0 <= k < |draws| && id == IdOf(draws[k])
                        && forall j :: 0 <= j < k ==> IdOf(draws[j]) in games
  {
    ghost var hit :| 0 <= hit < |draws| && IdOf(draws[hit]) !in games;
    var k := 0;
    id := IdOf(draws[0]);
    while id in games
      invariant 0 <= k <= hit
      invariant id == IdOf(draws[k])
      invariant forall j :: 0 <= j < k ==> IdOf(draws[j]) in games
      decreases hit - k
    {
      k := k + 1;
      id := IdOf(draws[k]);
    }
  }

  /** An injective map from `0 .. k-1` has an image of `k` elements. */
  lemma {:induction false} InjectiveImageSize<T>(f: nat -> T, k: nat)
    requires forall a: nat, b: nat :: a < k && b < k && f(a) == f(b) ==> a == b
    ensures |set d: nat | d < k :: f(d)| == k
  {
    if k > 0 {
      var smaller := set d: nat | d < k - 1 :: f(d);
      InjectiveImageSize(f, k - 1);
      assert (set d: nat | d < k :: f(d)) == smaller + {f(k - 1)};
      assert f(k - 1) !in smaller;
    }
  }

  lemma {:induction false} SubsetSize<T>(a: set<T>, b: set<T>)
    requires a <= b
    ensures |a| <= |b|
  {
    if a != {} {
      var x :| x in a;
      SubsetSize(a - {x}, b - {x});
    }
  }

  /** Pigeonhole: with fewer than 900000 live sessions some draw yields a fresh id. */
  lemma FreshIdExists<G>(games: map<string, G>)
    requires |games| < IdRange
    ensures exists d :: 0 <= d < IdRange && IdOf(d) !in games
  {
    if forall d :: 0 <= d < IdRange ==> IdOf(d) in games {
      var f: nat -> string := (d: nat) => if d < IdRange then IdOf(d) else "";
      forall a: nat, b: nat | a < IdRange && b < IdRange && f(a) == f(b)
        ensures a == b
      {
        IdOfInjective(a, b);
      }
      InjectiveImageSize(f, IdRange);
      var ids := set d: nat | d < IdRange :: f(d);
      assert ids <= games.Keys;
      SubsetSize(ids, games.Keys);
      assert false;
    }
  }
}
