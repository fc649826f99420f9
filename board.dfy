/**
 The state of the card views and the rules read off it: which views count as
 face-up, whether the face-up pair matches, and what each animation step does
 to the views it animates.
 */
module Board {
  import opened Deal

  /** The scale a view is drawn at: none, grown (x3) or shrunk (x0.1). */
  datatype Transform = Identity | Big | Small

  /** One card view: its card and the four view properties the game reads. */
  datatype Slot = Slot(card: Card, faceUp: bool, hidden: bool, alphaOne: bool, transform: Transform)

  /**
   A view as the deal leaves it: face-down. Visible, opaque and unscaled are the
   values the views start with before the deal, which sets only `isFaceUp`.
   */
  function FaceDown(c: Card): Slot
  {
    Slot(c, false, false, true, Identity)
  }

  /** A view counts as face-up when it is face-up, visible, not grown and fully opaque. */
  predicate CountsFaceUp(v: Slot)
  {
    v.faceUp && !v.hidden && v.transform != Big && v.alphaOne
  }

  /**
   `faceUpCardViews`: the positions of the views that count as face-up, in
   view order.
   */
  function FaceUpIndices(s: seq<Slot>): (r: seq<nat>)
    ensures |r| <= |s|
    ensures forall k :: 0 <= k < |r| ==> r[k] < |s| && CountsFaceUp(s[r[k]])
    ensures forall i :: 0 <= i < |s| && CountsFaceUp(s[i]) ==> i in r
    ensures forall k, l :: 0 <= k < l < |r| ==> r[k] < r[l]
  {
    if s == [] then []
    else
      var n := |s| - 1;
      var p := FaceUpIndices(s[..n]);
      if CountsFaceUp(s[n]) then p + [n] else p
  }

  /**
   `faceUpCardViewsMatch`: exactly two views count as face-up and they show
   the same rank and the same suit.
   */
  predicate PairMatches(s: seq<Slot>)
  {
    var f := FaceUpIndices(s);
    |f| == 2 && s[f[0]].card.rank == s[f[1]].card.rank && s[f[0]].card.suit == s[f[1]].card.suit
  }

  /** What an animation step leaves behind on one of the views it animates. */
  datatype Effect =
    | TurnDown  // the flip back of a mismatched pair
    | Grow      // a matched pair scaled up x3
    | Shrink    // a matched pair scaled down to x0.1 and faded out
    | Settle    // a matched pair hidden, then restored to alpha 1 and no scaling

  /** Every step keeps the card, never shows a hidden view, and leaves the view not counting as face-up. */
  function Apply(e: Effect, v: Slot): (r: Slot)
    ensures r.card == v.card
    ensures v.hidden ==> r.hidden
    ensures !CountsFaceUp(r)
  {
    match e
    case TurnDown => v.(faceUp := false)
    case Grow => v.(transform := Big)
    case Shrink => v.(transform := Small, alphaOne := false)
    case Settle => v.(hidden := true, alphaOne := true, transform := Identity)
  }

  /** The views after `e` is applied to each position listed in `snap` (a `forEach` over the snapshot). */
  function ApplyAll(s: seq<Slot>, snap: seq<nat>, e: Effect): (r: seq<Slot>)
    ensures |r| == |s|
    ensures forall i :: 0 <= i < |s| && i in snap ==> r[i].card == s[i].card && !CountsFaceUp(r[i])
    ensures forall i :: 0 <= i < |s| && i !in snap ==> r[i] == s[i]
  {
    seq(|s|, i requires 0 <= i < |s| => if i in snap then Apply(e, s[i]) else s[i])
  }

  /** The views after a tap on view `i`: its `isFaceUp` is negated. */
  function Toggle(s: seq<Slot>, i: nat): (r: seq<Slot>)
    requires i < |s|
    ensures |r| == |s|
    ensures r[i].faceUp == !s[i].faceUp && r[i].(faceUp := s[i].faceUp) == s[i]
    ensures forall k :: 0 <= k < |s| && k != i ==> r[k] == s[k]
  {
    s[i := s[i].(faceUp := !s[i].faceUp)]
  }

  /** What no step ever undoes: the cards stay where they were dealt and a hidden view stays hidden. */
  predicate Evolves(s: seq<Slot>, t: seq<Slot>)
  {
    |s| == |t| && forall i :: 0 <= i < |s| ==> t[i].card == s[i].card && (s[i].hidden ==> t[i].hidden)
  }

  /** What an animation step may do: evolve the views and turn none of them face-up. */
  predicate AnimationStep(s: seq<Slot>, t: seq<Slot>)
  {
    Evolves(s, t) && forall i :: 0 <= i < |t| && CountsFaceUp(t[i]) ==> CountsFaceUp(s[i])
  }

  /** One for a view that counts, zero for one that does not. */
  function Bit(b: bool): nat
  {
    if b then 1 else 0
  }

  /** When no view counts as face-up, the face-up list is empty. */
  lemma {:induction false} NoneCounting(s: seq<Slot>)
    requires forall i :: 0 <= i < |s| ==> !CountsFaceUp(s[i])
    ensures FaceUpIndices(s) == []
  {
    if s != [] {
      NoneCounting(s[..|s| - 1]);
    }
  }

  /** When view `i` alone counts as face-up, the face-up list is `[i]`. */
  lemma {:induction false} SoleFaceUp(s: seq<Slot>, i: nat)
    requires i < |s| && CountsFaceUp(s[i])
    requires forall k :: 0 <= k < |s| && CountsFaceUp(s[k]) ==> k == i
    ensures FaceUpIndices(s) == [i]
  {
    var n := |s| - 1;
    if n == i {
      NoneCounting(s[..n]);
    } else {
      SoleFaceUp(s[..n], i);
    }
  }

  /** When views `i < j`, and no others, count as face-up, the face-up list is `[i, j]`. */
  lemma {:induction false} PairFaceUp(s: seq<Slot>, i: nat, j: nat)
    requires i < j < |s| && CountsFaceUp(s[i]) && CountsFaceUp(s[j])
    requires forall k :: 0 <= k < |s| && CountsFaceUp(s[k]) ==> k == i || k == j
    ensures FaceUpIndices(s) == [i, j]
  {
    var n := |s| - 1;
    if n == j {
      SoleFaceUp(s[..n], i);
    } else {
      PairFaceUp(s[..n], i, j);
    }
  }

  /**
   The number of views that count as face-up, as a plain count with no
   contract of its own: the count lemmas induct over it and then carry the
   result over to the length of the face-up list by `CountUpIsLength`.
   */
  function CountUp(s: seq<Slot>): nat
  {
    if s == [] then 0 else CountUp(s[..|s| - 1]) + Bit(CountsFaceUp(s[|s| - 1]))
  }

  /** The face-up list has one entry per view that counts as face-up. */
  lemma {:induction false} CountUpIsLength(s: seq<Slot>)
    ensures |FaceUpIndices(s)| == CountUp(s)
  {
    if s != [] {
      CountUpIsLength(s[..|s| - 1]);
    }
  }

  /** Replacing one view changes the plain count by that view's contribution before and after. */
  lemma {:induction false} CountUpAfterUpdate(s: seq<Slot>, i: nat, x: Slot)
    requires i < |s|
    ensures CountUp(s[i := x]) == CountUp(s) - Bit(CountsFaceUp(s[i])) + Bit(CountsFaceUp(x))
  {
    var n := |s| - 1;
    var t := s[i := x];
    if i == n {
      assert t[..n] == s[..n];
    } else {
      assert t[..n] == s[..n][i := x];
      CountUpAfterUpdate(s[..n], i, x);
    }
  }

  /** Replacing one view changes the face-up count by what that view contributed before and after. */
  lemma CountAfterUpdate(s: seq<Slot>, i: nat, x: Slot)
    requires i < |s|
    ensures |FaceUpIndices(s[i := x])| == |FaceUpIndices(s)| - Bit(CountsFaceUp(s[i])) + Bit(CountsFaceUp(x))
  {
    CountUpAfterUpdate(s, i, x);
    CountUpIsLength(s);
    CountUpIsLength(s[i := x]);
  }

  /** If no view starts counting, the plain count does not rise. */
  lemma {:induction false} CountUpMonotone(s: seq<Slot>, t: seq<Slot>)
    requires |s| == |t|
    requires forall i :: 0 <= i < |t| && CountsFaceUp(t[i]) ==> CountsFaceUp(s[i])
    ensures CountUp(t) <= CountUp(s)
  {
    if t != [] {
      var n := |t| - 1;
      CountUpMonotone(s[..n], t[..n]);
    }
  }

  /** If every view that counts in `t` also counts in `s`, then `t` has no more face-up views than `s`. */
  lemma CountMonotone(s: seq<Slot>, t: seq<Slot>)
    requires |s| == |t|
    requires forall i :: 0 <= i < |t| && CountsFaceUp(t[i]) ==> CountsFaceUp(s[i])
    ensures |FaceUpIndices(t)| <= |FaceUpIndices(s)|
  {
    CountUpMonotone(s, t);
    CountUpIsLength(s);
    CountUpIsLength(t);
  }

  /**
   An animation step over any snapshot keeps the cards, keeps hidden views
   hidden, turns no view face-up and so never raises the face-up count.
   */
  lemma ApplyAllNeverAdds(s: seq<Slot>, snap: seq<nat>, e: Effect)
    ensures AnimationStep(s, ApplyAll(s, snap, e))
    ensures |FaceUpIndices(ApplyAll(s, snap, e))| <= |FaceUpIndices(s)|
  {
    CountMonotone(s, ApplyAll(s, snap, e));
  }

  /** A tap accepted while fewer than two views count as face-up leaves at most two. */
  lemma AcceptedTapKeepsAtMostTwo(s: seq<Slot>, i: nat)
    requires i < |s|
    requires |FaceUpIndices(s)| < 2
    ensures |FaceUpIndices(Toggle(s, i))| <= 2
    ensures Evolves(s, Toggle(s, i))
  {
    CountAfterUpdate(s, i, s[i].(faceUp := !s[i].faceUp));
  }

  /** Tapping the single face-up view turns it back: none counts as face-up afterwards. */
  lemma TapSingleFaceUp(s: seq<Slot>, i: nat)
    requires i < |s|
    requires FaceUpIndices(s) == [i]
    ensures FaceUpIndices(Toggle(s, i)) == []
  {
    CountAfterUpdate(s, i, s[i].(faceUp := !s[i].faceUp));
  }

  /** Tapping a clean face-down view while none is face-up makes it the single face-up view. */
  lemma TapFirstFaceUp(s: seq<Slot>, i: nat)
    requires i < |s|
    requires FaceUpIndices(s) == []
    requires !s[i].faceUp && !s[i].hidden && s[i].transform != Big && s[i].alphaOne
    ensures FaceUpIndices(Toggle(s, i)) == [i]
  {
    var t := Toggle(s, i);
    forall k | 0 <= k < |t| && k != i
      ensures !CountsFaceUp(t[k])
    {
      assert t[k] == s[k];
    }
    SoleFaceUp(t, i);
  }

  /** Views `i < j` hold the same card and are the only two that count as face-up. */
  predicate SameCardPair(s: seq<Slot>, i: nat, j: nat)
  {
    && i < j < |s| && CountsFaceUp(s[i]) && CountsFaceUp(s[j]) && s[i].card == s[j].card
    && forall k :: 0 <= k < |s| && CountsFaceUp(s[k]) ==> k == i || k == j
  }

  /** A match is a pair of views with the same card that alone count as face-up. */
  lemma PairMatchesSound(s: seq<Slot>)
    requires PairMatches(s)
    ensures SameCardPair(s, FaceUpIndices(s)[0], FaceUpIndices(s)[1])
  {
    var f := FaceUpIndices(s);
    assert forall k :: 0 <= k < |s| && CountsFaceUp(s[k]) ==> k == f[0] || k == f[1];
  }

  /** Two views with the same card that alone count as face-up are a match. */
  lemma PairMatchesComplete(s: seq<Slot>, i: nat, j: nat)
    requires SameCardPair(s, i, j)
    ensures PairMatches(s) && FaceUpIndices(s) == [i, j]
  {
    PairFaceUp(s, i, j);
  }

  /**
   The face-up pair matches exactly when two distinct views, and no other,
   count as face-up and they hold the same card.
   */
  lemma PairMatchesIff(s: seq<Slot>)
    ensures PairMatches(s) <==> exists i, j :: SameCardPair(s, i, j)
  {
    if PairMatches(s) {
      PairMatchesSound(s);
    }
    if exists i, j :: SameCardPair(s, i, j) {
      var i, j :| SameCardPair(s, i, j);
      PairMatchesComplete(s, i, j);
    }
  }

  /** A step applied to a snapshot that holds every face-up view leaves none counting as face-up. */
  lemma NoneCountAfter(s: seq<Slot>, snap: seq<nat>, e: Effect)
    requires forall i :: 0 <= i < |s| && CountsFaceUp(s[i]) ==> i in snap
    ensures FaceUpIndices(ApplyAll(s, snap, e)) == []
  {
    var t := ApplyAll(s, snap, e);
    forall i | 0 <= i < |t|
      ensures !CountsFaceUp(t[i])
    {
      if i !in snap {
        assert t[i] == s[i];
      }
    }
    NoneCounting(t);
  }

  /**
   The matched-pair sequence grow, shrink, settle: from the first step on no
   view counts as face-up, and at the end the two matched views are hidden,
   opaque and unscaled while every other view is as it was.
   */
  lemma MatchSequence(s: seq<Slot>)
    requires PairMatches(s)
    ensures var f := FaceUpIndices(s);
      var grown := ApplyAll(s, f, Grow);
      var shrunk := ApplyAll(grown, f, Shrink);
      var settled := ApplyAll(shrunk, f, Settle);
      && FaceUpIndices(grown) == [] && FaceUpIndices(shrunk) == [] && FaceUpIndices(settled) == []
      && |settled| == |s|
      && (forall i :: 0 <= i < |s| && i in f ==>
            settled[i] == s[i].(hidden := true, alphaOne := true, transform := Identity))
      && (forall i :: 0 <= i < |s| && i !in f ==> settled[i] == s[i])
  {
    var f := FaceUpIndices(s);
    var grown := ApplyAll(s, f, Grow);
    var shrunk := ApplyAll(grown, f, Shrink);
    NoneCountAfter(s, f, Grow);
    NoneCountAfter(grown, f, Shrink);
    NoneCountAfter(shrunk, f, Settle);
  }
}
