/**
 Dealing the board: the controller draws half as many cards as it has card
 views (rounded up), puts each drawn card into a pool twice, and then gives
 every view one card removed from the pool at a random index.
 */
module Deal {

  /** A card as a card view shows it: the rank's order and the suit's raw value. */
  datatype Card = Card(rank: int, suit: int)

  /** How many cards are drawn for `views` card views: half, rounded up. */
  function DrawCount(views: nat): (n: nat)
    ensures 2 * n == views || 2 * n == views + 1
  {
    (views + 1) / 2
  }

  /** The pool the draw loop builds: every drawn card appended twice, in draw order. */
  function Doubled(drawn: seq<Card>): (pool: seq<Card>)
    ensures |pool| == 2 * |drawn|
  {
    if drawn == [] then []
    else
      var n := |drawn| - 1;
      Doubled(drawn[..n]) + [drawn[n], drawn[n]]
  }

  /** Every card occurs in the pool exactly twice as often as it was drawn. */
  lemma {:induction false} DoubledCounts(drawn: seq<Card>)
    ensures multiset(Doubled(drawn)) == multiset(drawn) + multiset(drawn)
  {
    if drawn != [] {
      var n := |drawn| - 1;
      DoubledCounts(drawn[..n]);
      assert drawn == drawn[..n] + [drawn[n]];
    }
  }

  /** The draw loop: `cards += [card, card]` for each drawn card. */
  method BuildPool(drawn: seq<Card>) returns (pool: seq<Card>)
    ensures pool == Doubled(drawn)
    ensures |pool| == 2 * |drawn|
    ensures forall c :: multiset(pool)[c] == 2 * multiset(drawn)[c]
  {
    pool := [];
    var i := 0;
    while i < |drawn|
      invariant 0 <= i <= |drawn|
      invariant pool == Doubled(drawn[..i])
    {
      var card := drawn[i];
      assert drawn[..i + 1][..i] == drawn[..i];
      pool := pool + [card, card];
      i := i + 1;
    }
    assert drawn[..i] == drawn;
    DoubledCounts(drawn);
  }

  /** `remove(at: i)` on an array value: the element at `i` leaves, the others keep their order. */
  function RemoveAt(s: seq<Card>, i: nat): (r: seq<Card>)
    requires i < |s|
    ensures |r| == |s| - 1
    ensures forall k :: 0 <= k < i ==> r[k] == s[k]
    ensures forall k :: i <= k < |r| ==> r[k] == s[k + 1]
  {
    s[..i] + s[i + 1..]
  }

  /** Removing an element takes exactly that one element out of the pool's contents. */
  lemma RemoveAtCounts(s: seq<Card>, i: nat)
    requires i < |s|
    ensures multiset(RemoveAt(s, i)) + multiset{s[i]} == multiset(s)
  {
    assert s == s[..i] + [s[i]] + s[i + 1..];
  }

  /**
   The random indices are in range: the k-th removal happens when `size - k`
   cards are left in the pool, and picks an index below that.
   */
  predicate ValidPicks(size: nat, picks: seq<nat>)
  {
    forall k :: 0 <= k < |picks| ==> picks[k] < size - k
  }

  /** The cards the views receive, in view order, when the k-th view takes index `picks[k]`. */
  function Dealt(pool: seq<Card>, picks: seq<nat>): (dealt: seq<Card>)
    requires ValidPicks(|pool|, picks)
    ensures |dealt| == |picks|
    decreases |picks|
  {
    if picks == [] then []
    else [pool[picks[0]]] + Dealt(RemoveAt(pool, picks[0]), picks[1..])
  }

  /** What is left of the pool after every view has taken its card. */
  function Remaining(pool: seq<Card>, picks: seq<nat>): (rest: seq<Card>)
    requires ValidPicks(|pool|, picks)
    ensures |rest| == |pool| - |picks|
    decreases |picks|
  {
    if picks == [] then pool
    else Remaining(RemoveAt(pool, picks[0]), picks[1..])
  }

  /**
   Dealing neither creates nor loses cards: one card per view, the rest stays
   in the pool, and no pool entry is given to two views.
   */
  lemma {:induction false} DealConserves(pool: seq<Card>, picks: seq<nat>)
    requires ValidPicks(|pool|, picks)
    ensures |Dealt(pool, picks)| == |picks|
    ensures |Remaining(pool, picks)| == |pool| - |picks|
    ensures multiset(Dealt(pool, picks)) + multiset(Remaining(pool, picks)) == multiset(pool)
  {
    if picks != [] {
      var rest := RemoveAt(pool, picks[0]);
      RemoveAtCounts(pool, picks[0]);
      DealConserves(rest, picks[1..]);
      assert multiset(Dealt(pool, picks)) == multiset{pool[picks[0]]} + multiset(Dealt(rest, picks[1..]));
    }
  }

  /** The deal loop: each view takes `cards.remove(at: random)` from the pool. */
  method DealFromPool(pool: seq<Card>, picks: seq<nat>) returns (dealt: seq<Card>, rest: seq<Card>)
    requires ValidPicks(|pool|, picks)
    ensures dealt == Dealt(pool, picks) && rest == Remaining(pool, picks)
    ensures |dealt| == |picks| && |rest| == |pool| - |picks|
    ensures multiset(dealt) + multiset(rest) == multiset(pool)
  {
    dealt, rest := [], pool;
    var k := 0;
    while k < |picks|
      invariant 0 <= k <= |picks|
      invariant |rest| == |pool| - k
      invariant ValidPicks(|rest|, picks[k..])
      invariant dealt + Dealt(rest, picks[k..]) == Dealt(pool, picks)
      invariant Remaining(rest, picks[k..]) == Remaining(pool, picks)
    {
      var i := picks[k];
      assert picks[k..][0] == i && picks[k..][1..] == picks[k + 1..];
      var card := rest[i];
      rest := RemoveAt(rest, i);
      dealt := dealt + [card];
      k := k + 1;
    }
    DealConserves(pool, picks);
  }

  /**
   With an even number of views the pool is used up and every drawn card
   lies on exactly twice as many views as it was drawn (twice, for distinct
   draws).
   */
  lemma EvenDealPairs(drawn: seq<Card>, picks: seq<nat>)
    requires |picks| == 2 * |drawn|
    requires ValidPicks(2 * |drawn|, picks)
    ensures Remaining(Doubled(drawn), picks) == []
    ensures forall c :: multiset(Dealt(Doubled(drawn), picks))[c] == 2 * multiset(drawn)[c]
  {
    var pool := Doubled(drawn);
    DealConserves(pool, picks);
    DoubledCounts(drawn);
    var rest := Remaining(pool, picks);
    assert |rest| == 0;
    assert multiset(Dealt(pool, picks)) == multiset(drawn) + multiset(drawn);
  }

  /**
   With an odd number of views exactly one pool entry, a drawn card, is left
   over: that card lies on one view fewer than its pairs.
   */
  lemma OddDealLeavesOne(drawn: seq<Card>, picks: seq<nat>)
    requires |picks| + 1 == 2 * |drawn|
    requires ValidPicks(2 * |drawn|, picks)
    ensures |Remaining(Doubled(drawn), picks)| == 1
    ensures Remaining(Doubled(drawn), picks)[0] in drawn
    ensures multiset(Dealt(Doubled(drawn), picks)) + multiset{Remaining(Doubled(drawn), picks)[0]}
            == multiset(drawn) + multiset(drawn)
  {
    var rest := Remaining(Doubled(drawn), picks);
    DealConserves(Doubled(drawn), picks);
    DoubledCounts(drawn);
    assert rest == [rest[0]];
    assert rest[0] in multiset(Doubled(drawn));
  }
}
