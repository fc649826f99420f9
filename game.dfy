/**
 The view controller's game: the card views, the view chosen last, the tap
 handler and the completion closures its animations run. Each closure is a
 method of its own, so that any order in which the animations finish can be
 replayed by calling the methods in that order.
 */
module MatchGame {
  import opened Deal
  import opened Board

  datatype Option<T> = None | Some(value: T)

  /** A completion closure an animation has scheduled, with the views it captured. */
  datatype Completion =
    | Flipped(chosen: nat)        // end of the flip started by a tap on `chosen`
    | Grown(cards: seq<nat>)      // end of the x3 scale of a matched pair
    | Shrunk(cards: seq<nat>)     // end of the x0.1 scale and fade of a matched pair
    | FlippedBack(view: nat)      // end of the flip back of one view of a mismatched pair

  predicate IndicesBelow(snap: seq<nat>, n: nat)
  {
    forall k :: 0 <= k < |snap| ==> snap[k] < n
  }

  /** The views a completion refers to exist on a board of `n` views. */
  predicate Schedulable(c: Completion, n: nat)
  {
    match c
    case Flipped(v) => v < n
    case Grown(cs) => IndicesBelow(cs, n)
    case Shrunk(cs) => IndicesBelow(cs, n)
    case FlippedBack(v) => v < n
  }

  class Game {
    /** The card views, in outlet order. */
    const slots: array<Slot>
    /** `lastChosenCardView`: the view of the last accepted tap, none before the first. */
    var lastChosen: Option<nat>

    /** The game's invariant: the last chosen view exists and at most two views count as face-up. */
    ghost predicate Valid()
      reads this, slots
    {
      && (lastChosen.Some? ==> lastChosen.value < slots.Length)
      && |FaceUpIndices(slots[..])| <= 2
    }

    /**
     `viewDidLoad`: draw `(n + 1) / 2` cards for `n` views, pool each twice,
     and give the k-th view the pool entry at index `picks[k]`, face-down.
     The closed range `1...0` traps, so there is at least one view.
     */
    constructor (drawn: seq<Card>, picks: seq<nat>)
      requires |picks| >= 1
      requires |drawn| == DrawCount(|picks|)
      requires ValidPicks(2 * |drawn|, picks)
      ensures Valid() && fresh(slots) && lastChosen == None
      ensures slots.Length == |picks| && FaceUpIndices(slots[..]) == []
      ensures forall k :: 0 <= k < |picks| ==> slots[k] == FaceDown(Dealt(Doubled(drawn), picks)[k])
    {
      var pool := BuildPool(drawn);
      var dealt, rest := DealFromPool(pool, picks);
      assert dealt == Dealt(Doubled(drawn), picks);
      slots := new Slot[|dealt|](k requires 0 <= k < |dealt| => FaceDown(dealt[k]));
      lastChosen := None;
      new;
      NoneCounting(slots[..]);
    }

    /**
     `flipCard` for an ended tap on view `i`: accepted only while fewer than
     two views count as face-up; an accepted tap flips view `i` over, makes it
     the last chosen view and schedules the end of its flip.
     */
    method Tap(i: nat) returns (accepted: bool, scheduled: seq<Completion>)
      requires Valid() && i < slots.Length
      modifies this, slots
      ensures Valid()
      ensures accepted <==> |FaceUpIndices(old(slots[..]))| < 2
      ensures accepted ==> slots[..] == Toggle(old(slots[..]), i) && lastChosen == Some(i) && scheduled == [Flipped(i)]
      ensures !accepted ==> slots[..] == old(slots[..]) && lastChosen == old(lastChosen) && scheduled == []
    {
      var s := slots[..];
      accepted := |FaceUpIndices(s)| < 2;
      if accepted {
        lastChosen := Some(i);
        slots[i] := slots[i].(faceUp := !slots[i].faceUp);
        assert slots[..] == Toggle(s, i);
        AcceptedTapKeepsAtMostTwo(s, i);
        scheduled := [Flipped(i)];
      } else {
        scheduled := [];
      }
    }

    /** `cardsToAnimate.forEach`: apply one step to every view of the snapshot. */
    method ApplyToSnapshot(e: Effect, snap: seq<nat>)
      requires IndicesBelow(snap, slots.Length)
      modifies slots
      ensures slots[..] == ApplyAll(old(slots[..]), snap, e)
    {
      var k := 0;
      while k < |snap|
        invariant 0 <= k <= |snap|
        invariant forall i :: 0 <= i < slots.Length ==>
          slots[i] == if i in snap[..k] then Apply(e, old(slots[i])) else old(slots[i])
      {
        assert snap[..k + 1] == snap[..k] + [snap[k]];
        slots[snap[k]] := Apply(e, slots[snap[k]]);
        k := k + 1;
      }
      assert snap[..k] == snap;
    }

    /**
     The completion of the flip started by a tap on `chosen`. It takes the
     face-up views as its snapshot; a matching pair starts to grow; a
     mismatched pair is flipped back face-down, but only when `chosen` is the
     last chosen view; anything else changes nothing.
     */
    method FlipDone(chosen: nat) returns (scheduled: seq<Completion>)
      requires Valid() && chosen < slots.Length
      modifies slots
      ensures Valid()
      ensures AnimationStep(old(slots[..]), slots[..])
      ensures var s := old(slots[..]);
        var f := FaceUpIndices(s);
        if PairMatches(s) then
          slots[..] == ApplyAll(s, f, Grow) && scheduled == [Grown(f)]
        else if |f| == 2 && lastChosen == Some(chosen) then
          slots[..] == ApplyAll(s, f, TurnDown) && scheduled == [FlippedBack(f[0]), FlippedBack(f[1])]
        else
          slots[..] == s && scheduled == []
    {
      var s := slots[..];
      var cardsToAnimate := FaceUpIndices(s);
      if PairMatches(s) {
        ApplyToSnapshot(Grow, cardsToAnimate);
        ApplyAllNeverAdds(s, cardsToAnimate, Grow);
        scheduled := [Grown(cardsToAnimate)];
      } else if |cardsToAnimate| == 2 {
        if lastChosen == Some(chosen) {
          ApplyToSnapshot(TurnDown, cardsToAnimate);
          ApplyAllNeverAdds(s, cardsToAnimate, TurnDown);
          scheduled := [FlippedBack(cardsToAnimate[0]), FlippedBack(cardsToAnimate[1])];
        } else {
          scheduled := [];
        }
      } else {
        scheduled := [];
      }
    }

    /** The completion of the grow of a matched pair: shrink the snapshot to x0.1 and fade it out. */
    method GrowDone(cards: seq<nat>) returns (scheduled: seq<Completion>)
      requires Valid() && IndicesBelow(cards, slots.Length)
      modifies slots
      ensures Valid()
      ensures AnimationStep(old(slots[..]), slots[..])
      ensures slots[..] == ApplyAll(old(slots[..]), cards, Shrink) && scheduled == [Shrunk(cards)]
    {
      ghost var s := slots[..];
      ApplyToSnapshot(Shrink, cards);
      ApplyAllNeverAdds(s, cards, Shrink);
      scheduled := [Shrunk(cards)];
    }

    /**
     The completion of the shrink of a matched pair: every view of the
     snapshot ends hidden, opaque and unscaled, and no other view changes.
     */
    method ShrinkDone(cards: seq<nat>)
      requires Valid() && IndicesBelow(cards, slots.Length)
      modifies slots
      ensures Valid()
      ensures AnimationStep(old(slots[..]), slots[..])
      ensures slots[..] == ApplyAll(old(slots[..]), cards, Settle)
      ensures forall i :: 0 <= i < slots.Length && i in cards ==>
        slots[i] == old(slots[i]).(hidden := true, alphaOne := true, transform := Identity)
      ensures forall i :: 0 <= i < slots.Length && i !in cards ==> slots[i] == old(slots[i])
    {
      ghost var s := slots[..];
      ApplyToSnapshot(Settle, cards);
      ApplyAllNeverAdds(s, cards, Settle);
    }

    /**
     The completion of the flip back of one view of a mismatched pair: it
     only returns the view to the idle motion, so no view and no choice
     changes, and nothing further is scheduled.
     */
    method FlipBackDone(view: nat) returns (scheduled: seq<Completion>)
      requires Valid() && view < slots.Length
      ensures Valid()
      ensures scheduled == []
    {
      scheduled := [];
    }

    /**
     Runs whichever scheduled completion the animations deliver next. The end
     of a flip back only returns the view to the idle motion, so it leaves
     the game as it is. No completion turns a view face-up, moves a card or
     shows a hidden view, and what it schedules refers to existing views.
     */
    method Complete(c: Completion) returns (scheduled: seq<Completion>)
      requires Valid() && Schedulable(c, slots.Length)
      modifies slots
      ensures Valid()
      ensures AnimationStep(old(slots[..]), slots[..])
      ensures forall d :: d in scheduled ==> Schedulable(d, slots.Length)
      ensures c.Flipped? ==>
        var s := old(slots[..]);
        var f := FaceUpIndices(s);
        if PairMatches(s) then
          slots[..] == ApplyAll(s, f, Grow) && scheduled == [Grown(f)]
        else if |f| == 2 && lastChosen == Some(c.chosen) then
          slots[..] == ApplyAll(s, f, TurnDown) && scheduled == [FlippedBack(f[0]), FlippedBack(f[1])]
        else
          slots[..] == s && scheduled == []
      ensures c.Grown? ==> slots[..] == ApplyAll(old(slots[..]), c.cards, Shrink) && scheduled == [Shrunk(c.cards)]
      ensures c.Shrunk? ==> slots[..] == ApplyAll(old(slots[..]), c.cards, Settle) && scheduled == []
      ensures c.FlippedBack? ==> slots[..] == old(slots[..]) && scheduled == []
    {
      match c
      case Flipped(v) =>
        scheduled := FlipDone(v);
      case Grown(cs) =>
        scheduled := GrowDone(cs);
      case Shrunk(cs) =>
        ShrinkDone(cs);
        scheduled := [];
      case FlippedBack(v) =>
        scheduled := FlipBackDone(v);
    }
  }
}

/**
 Two worked games on a four-view board, replayed through the class's methods:
 two pairs dealt as A = (2, 0), B = (5, 1), C = (2, 0), D = (5, 1).
 */
module Scenarios {
  import opened Deal
  import opened Board
  import opened MatchGame

  const Two := Card(2, 0)
  const Five := Card(5, 1)

  /** The pool for the draws (2, 0) then (5, 1). */
  lemma ExamplePool()
    ensures Doubled([Two, Five]) == [Two, Two, Five, Five]
  {
    assert [Two][..0] == [] && [Two, Five][..1] == [Two];
  }

  /** The last two removals, at indices 0 and 0, deal what is left in order. */
  lemma ExampleDealTail(a: Card, b: Card)
    ensures Dealt([a, b], [0, 0]) == [a, b]
  {
    assert RemoveAt([a, b], 0) == [b] && [0, 0][1..] == [0];
    assert RemoveAt([b], 0) == [] && [0][1..] == [];
  }

  /** The removals at indices 0, 1, 0, 0 from the pool `[a, a, b, b]` deal `a, b, a, b`. */
  lemma ExampleDeal(a: Card, b: Card)
    ensures Dealt([a, a, b, b], [0, 1, 0, 0]) == [a, b, a, b]
  {
    assert RemoveAt([a, a, b, b], 0) == [a, b, b] && [0, 1, 0, 0][1..] == [1, 0, 0];
    assert RemoveAt([a, b, b], 1) == [a, b] && [1, 0, 0][1..] == [0, 0];
    ExampleDealTail(a, b);
  }

  /** A view face-up, visible, opaque and unscaled. */
  function Up(c: Card): Slot
  {
    FaceDown(c).(faceUp := true)
  }

  /** A face-up view of a matched pair, scaled up x3. */
  function Enlarged(c: Card): Slot
  {
    Up(c).(transform := Big)
  }

  /** A view that has left play after a match. */
  function Gone(c: Card): Slot
  {
    Up(c).(hidden := true)
  }

  /** The four views of `g` are `a`, `b`, `c` and `d`. */
  ghost predicate Shows(g: Game, a: Slot, b: Slot, c: Slot, d: Slot)
    reads g, g.slots
  {
    g.slots.Length == 4 && g.slots[0] == a && g.slots[1] == b && g.slots[2] == c && g.slots[3] == d
  }

  /** The board both worked games start from: A = (2, 0), B = (5, 1), C = (2, 0), D = (5, 1), face-down. */
  ghost predicate ExampleBoard(g: Game)
    reads g, g.slots
  {
    Shows(g, FaceDown(Two), FaceDown(Five), FaceDown(Two), FaceDown(Five))
  }

  /** Dealing pool indices 0, 1, 0, 0 to four views after drawing (2, 0) and (5, 1) yields the example board. */
  method DealExample() returns (g: Game)
    ensures fresh(g) && fresh(g.slots) && g.Valid() && ExampleBoard(g) && g.lastChosen == None
  {
    g := new Game([Two, Five], [0, 1, 0, 0]);
    ExamplePool();
    ExampleDeal(Two, Five);
    ghost var dealt := Dealt(Doubled([Two, Five]), [0, 1, 0, 0]);
    assert dealt == [Two, Five, Two, Five];
    assert g.slots[0] == FaceDown(Two) && g.slots[1] == FaceDown(Five);
    assert g.slots[2] == FaceDown(Two) && g.slots[3] == FaceDown(Five);
  }

  /**
   The matching game: dealing pool indices 0, 1, 0, 0 to four views yields
   the example board, and playing out both pairs takes every view out of play.
   */
  method MatchScenario()
  {
    var g := DealExample();
    FirstPair(g);
    SecondPair(g);
    assert g.slots[0].hidden && g.slots[1].hidden && g.slots[2].hidden && g.slots[3].hidden;
  }

  /** A and C are matched and leave play; B and D stay face-down. */
  method FirstPair(g: Game)
    requires g.Valid() && ExampleBoard(g)
    modifies g, g.slots
    ensures g.Valid() && Shows(g, Gone(Two), FaceDown(Five), Gone(Two), FaceDown(Five))
  {
    FirstPairTaps(g);
    FirstPairGrows(g);
    FirstPairLeaves(g);
  }

  /** B and D are matched as well, and no view is left in play. */
  method SecondPair(g: Game)
    requires g.Valid() && Shows(g, Gone(Two), FaceDown(Five), Gone(Two), FaceDown(Five))
    modifies g, g.slots
    ensures g.Valid() && Shows(g, Gone(Two), Gone(Five), Gone(Two), Gone(Five))
  {
    SecondPairTaps(g);
    SecondPairGrows(g);
    SecondPairLeaves(g);
  }

  /** A and C are tapped on the example board; both are accepted. */
  method FirstPairTaps(g: Game)
    requires g.Valid() && ExampleBoard(g)
    modifies g, g.slots
    ensures g.Valid() && Shows(g, Up(Two), FaceDown(Five), Up(Two), FaceDown(Five))
  {
    NoneCounting(g.slots[..]);
    var ok, next := g.Tap(0);
    assert ok && next == [Flipped(0)];
    SoleFaceUp(g.slots[..], 0);
    ok, next := g.Tap(2);
    assert ok && next == [Flipped(2)];
  }

  /**
   The end of A's flip finds the match and grows A and C; the end of C's
   flip then finds nothing face-up and changes nothing.
   */
  method FirstPairGrows(g: Game)
    requires g.Valid() && Shows(g, Up(Two), FaceDown(Five), Up(Two), FaceDown(Five))
    modifies g.slots
    ensures g.Valid() && Shows(g, Enlarged(Two), FaceDown(Five), Enlarged(Two), FaceDown(Five))
  {
    ghost var s := g.slots[..];
    PairFaceUp(s, 0, 2);
    var next := g.FlipDone(0);
    assert next == [Grown([0, 2])];
    NoneCountAfter(s, [0, 2], Grow);
    assert g.slots[1] == FaceDown(Five) && g.slots[3] == FaceDown(Five);
    next := g.FlipDone(2);
    assert next == [];
  }

  /** The grown A and C shrink, fade and leave play. */
  method FirstPairLeaves(g: Game)
    requires g.Valid() && Shows(g, Enlarged(Two), FaceDown(Five), Enlarged(Two), FaceDown(Five))
    modifies g.slots
    ensures g.Valid() && Shows(g, Gone(Two), FaceDown(Five), Gone(Two), FaceDown(Five))
  {
    var next := g.GrowDone([0, 2]);
    assert next == [Shrunk([0, 2])];
    g.ShrinkDone([0, 2]);
  }

  /** With A and C gone, B and D are tapped; both are accepted. */
  method SecondPairTaps(g: Game)
    requires g.Valid() && Shows(g, Gone(Two), FaceDown(Five), Gone(Two), FaceDown(Five))
    modifies g, g.slots
    ensures g.Valid() && Shows(g, Gone(Two), Up(Five), Gone(Two), Up(Five))
  {
    NoneCounting(g.slots[..]);
    var ok, next := g.Tap(1);
    assert ok;
    SoleFaceUp(g.slots[..], 1);
    ok, next := g.Tap(3);
    assert ok;
  }

  /** The end of D's flip ends first this time and still finds the match; B and D grow. */
  method SecondPairGrows(g: Game)
    requires g.Valid() && Shows(g, Gone(Two), Up(Five), Gone(Two), Up(Five))
    modifies g.slots
    ensures g.Valid() && Shows(g, Gone(Two), Enlarged(Five), Gone(Two), Enlarged(Five))
  {
    ghost var s := g.slots[..];
    PairFaceUp(s, 1, 3);
    var next := g.FlipDone(3);
    assert next == [Grown([1, 3])];
    NoneCountAfter(s, [1, 3], Grow);
    assert g.slots[0] == Gone(Two) && g.slots[2] == Gone(Two);
    next := g.FlipDone(1);
    assert next == [];
  }

  /** The grown B and D shrink, fade and leave play. */
  method SecondPairLeaves(g: Game)
    requires g.Valid() && Shows(g, Gone(Two), Enlarged(Five), Gone(Two), Enlarged(Five))
    modifies g.slots
    ensures g.Valid() && Shows(g, Gone(Two), Gone(Five), Gone(Two), Gone(Five))
  {
    var next := g.GrowDone([1, 3]);
    assert next == [Shrunk([1, 3])];
    g.ShrinkDone([1, 3]);
  }

  /**
   The mismatch game on the example board: A and B are tapped and flipped
   back, which returns the views to the dealt board, and A can then be
   chosen again.
   */
  method MismatchScenario()
  {
    var g := DealExample();
    MismatchTaps(g);
    MismatchFlipsBack(g);
    NoneCounting(g.slots[..]);
    var ok, next := g.Tap(0);
    assert ok && g.slots[0] == Up(Two) && g.lastChosen == Some(0);
  }

  /** A and B are tapped on the example board; B is the last chosen view. */
  method MismatchTaps(g: Game)
    requires g.Valid() && ExampleBoard(g)
    modifies g, g.slots
    ensures g.Valid() && Shows(g, Up(Two), Up(Five), FaceDown(Two), FaceDown(Five)) && g.lastChosen == Some(1)
  {
    NoneCounting(g.slots[..]);
    var ok, next := g.Tap(0);
    assert ok;
    SoleFaceUp(g.slots[..], 0);
    ok, next := g.Tap(1);
    assert ok;
  }

  /**
   A third tap is refused while A and B are face-up; the end of A's flip
   changes nothing because B was chosen last; the end of B's flip turns both
   face-down; the ends of the flips back change nothing further.
   */
  method MismatchFlipsBack(g: Game)
    requires g.Valid() && Shows(g, Up(Two), Up(Five), FaceDown(Two), FaceDown(Five)) && g.lastChosen == Some(1)
    modifies g, g.slots
    ensures g.Valid() && ExampleBoard(g)
  {
    ghost var s := g.slots[..];
    PairFaceUp(s, 0, 1);
    assert !PairMatches(s);
    var ok, next := g.Tap(3);
    assert !ok && next == [] && g.lastChosen == Some(1);
    next := g.FlipDone(0);
    assert next == [] && g.slots[..] == s;
    next := g.FlipDone(1);
    assert next == [FlippedBack(0), FlippedBack(1)];
    assert g.slots[..] == ApplyAll(s, [0, 1], TurnDown);
    next := g.Complete(FlippedBack(0));
    next := g.Complete(FlippedBack(1));
  }
}
