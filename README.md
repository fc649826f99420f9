# Memory-match game of the PlayingCard view controller

The model covers the game rule inside `ViewController` of the PlayingCard app.
When the view loads, the controller:

- draws half as many cards as it has card views, rounded up;
- puts each drawn card into a pool twice;
- deals every view one pool entry, removed at a random index, face-down.

A tap on a view is accepted only while fewer than two views *count as face-up*.
A view counts as face-up when it is:

- face-up;
- visible;
- not scaled ×3;
- fully opaque.

An accepted tap flips the view and records it as the last chosen view. The end of that flip then:

- grows a matching face-up pair ×3, then shrinks it to ×0.1 while fading it out, then hides it and
  restores its alpha and transform;
- flips a mismatched pair back face-down, but only when the flip that ended belongs to the last
  chosen view; the guard compares view identity, so a flip of that same view that ends earlier is
  honoured too;
- otherwise changes nothing.

The project has three modules:

- `Deal` (`deal.dfy`): the card record and the pool. It has the draw loop as a method, the removal
  loop as a method, and the functions and lemmas that specify both.
- `Board` (`board.dfy`): the state of one card view (`Slot`) and rules that read only that state:
  - the face-up filter and the match predicate;
  - what each animation step leaves on the views it animates;
  - counting lemmas that say how many views count as face-up and how that changes.
- `MatchGame` (`game.dfy`): the class `Game`. It holds the views in an array and the last chosen
  view, and has these operations:
  - the tap handler;
  - one method per completion closure: `FlipDone`, `GrowDone`, `ShrinkDone`, `FlipBackDone`;
  - `Complete`, which runs any completion a previous step scheduled.

  Every tap and every completion returns the completions it schedules. Calling the methods in any
  order therefore replays any interleaving the animations allow. The invariant `Valid` holds across
  all of them: at most two views count as face-up, and the last chosen view exists.
- `Scenarios` (also `game.dfy`): two worked games on a four-view board A = (2, 0), B = (5, 1),
  C = (2, 0), D = (5, 1).
  - A matching game, in which every view leaves play.
  - A mismatch game, in which the pair returns face-down and A can be chosen again.

The UIKit animation blocks run synchronously when the animation starts. So each method sets the
values its animation block assigns, and the completion calls stand for the later callbacks.

Some behaviour of the code that a reader might not expect:

- A tap on a view that already counts as face-up is accepted and turns that view back.
- The tap handler does not test whether a view is hidden. The model admits taps on hidden views,
  and the invariants hold for those taps as well.
- Nothing records that an animation is in flight. A growing or fading view drops out of the
  face-up list through its transform and alpha alone (line 39).
- The only guard against an early completion is the `lastChosenCardView` comparison at line 96.

The definitions `Board.CountsFaceUp` (line 39), `Board.PairMatches` (lines 42-46) and
`MatchGame.Game.Valid` are predicates. What they mean is stated by the `FaceUpIndices`,
`PairMatchesIff` and `Game` rows below.

## Model

| member | source | states |
|---|---|---|
| Deal.DrawCount | ViewController.swift:23 | the number of draws is half the number of views, rounded up: twice it is the view count or one more |
| Deal.Doubled | ViewController.swift:22-26 | the pool built from the draws is twice as long as the draws |
| Deal.DoubledCounts | ViewController.swift:22-26 | every card occurs in the pool exactly twice as often as it was drawn |
| Deal.BuildPool | ViewController.swift:22-26 | the draw loop builds the doubled pool: its length is twice the draws, and each card's count is twice its draw count |
| Deal.RemoveAt | ViewController.swift:30 | removing at an index shortens the pool by one, keeps everything before the index and shifts everything after it down by one |
| Deal.RemoveAtCounts | ViewController.swift:30 | removal takes exactly the element at the index out of the pool's contents |
| Deal.Dealt | ViewController.swift:28-32 | every view receives exactly one card |
| Deal.Remaining | ViewController.swift:28-32 | after the deal the pool has lost one entry per view |
| Deal.DealConserves | ViewController.swift:28-32 | one card per view; the pool shrinks by the number of views; dealt cards plus the rest are exactly the pool, so no entry goes to two views |
| Deal.DealFromPool | ViewController.swift:28-32 | the removal loop deals the specified cards and leaves the specified rest, and it conserves the pool's contents |
| Deal.EvenDealPairs | ViewController.swift:22-32 | with an even number of views the pool is used up, and each card lies on twice as many views as it was drawn |
| Deal.OddDealLeavesOne | ViewController.swift:22-32 | with an odd number of views exactly one pool entry, a drawn card, is left over; the views hold the pool minus that entry |
| Board.FaceUpIndices | ViewController.swift:38-40 | the list holds exactly the views that count as face-up, each once, in view order |
| Board.Toggle | ViewController.swift:60 | a tap negates `isFaceUp` on the tapped view, keeps that view's other properties, and leaves every other view as it was |
| Board.ApplyAll | ViewController.swift:70-103 | a `forEach` over a snapshot keeps the cards of the snapshot's views and leaves none of them counting as face-up; views outside the snapshot are unchanged |
| Board.NoneCounting | ViewController.swift:38-40 | when no view counts as face-up, the list is empty |
| Board.SoleFaceUp | ViewController.swift:38-40 | when exactly one view counts as face-up, the list is that view alone |
| Board.PairFaceUp | ViewController.swift:38-40 | when exactly two views count as face-up, the list is those two, in order |
| Board.CountUpIsLength | ViewController.swift:38-40 | the list's length is the number of views that count as face-up |
| Board.CountAfterUpdate | ViewController.swift:38-40 | replacing one view changes the count by that view's contribution before and after |
| Board.CountMonotone | ViewController.swift:38-40 | if no view starts counting, the count cannot rise |
| Board.PairMatchesSound | ViewController.swift:42-46 | a match is two views, and no others, that count as face-up and hold the same rank and suit |
| Board.PairMatchesComplete | ViewController.swift:42-46 | two such views are a match and are the whole face-up list |
| Board.PairMatchesIff | ViewController.swift:42-46 | the match predicate holds if and only if such a pair exists |
| Board.Apply | ViewController.swift:69-103 | every animation step keeps the view's card, keeps a hidden view hidden, and leaves the view not counting as face-up |
| Board.ApplyAllNeverAdds | ViewController.swift:63-103 | a step over any snapshot keeps cards, keeps hidden views hidden, turns no view face-up, and never raises the count |
| Board.NoneCountAfter | ViewController.swift:63-90 | a step over a snapshot that contains every face-up view leaves none counting as face-up |
| Board.MatchSequence | ViewController.swift:63-90 | grow, shrink and settle of a matched pair: no view counts as face-up from the grow on; the pair ends hidden, opaque and unscaled; every other view is unchanged |
| Board.AcceptedTapKeepsAtMostTwo | ViewController.swift:53-60 | a tap accepted while fewer than two views count leaves at most two, and it moves no card |
| Board.TapSingleFaceUp | ViewController.swift:53-60 | tapping the single face-up view turns it back, and none counts afterwards |
| Board.TapFirstFaceUp | ViewController.swift:53-60 | tapping a face-down visible view while none counts makes it the single face-up view |
| MatchGame.Game.constructor | ViewController.swift:20-36 | at least one view; every view k holds the k-th card dealt from the doubled draws and is face-down; nothing is chosen; no view counts as face-up (visible, opaque and unscaled are the starting values the model assumes) |
| MatchGame.Game.Tap | ViewController.swift:50-61 | a tap is accepted exactly when fewer than two views count. An accepted tap toggles only that view, makes it the last chosen view and schedules its flip's end. A refused tap changes nothing, the last choice included. The invariant is kept |
| MatchGame.Game.ApplyToSnapshot | ViewController.swift:70-72 | the loop over the snapshot applies the step to exactly the snapshot's views |
| MatchGame.Game.FlipDone | ViewController.swift:62-114 | on a match the face-up pair grows and the shrink is scheduled. On a mismatch the pair turns face-down, only when the flip belongs to the last chosen view, and both flips back are scheduled. Otherwise nothing changes. In every case no view turns face-up, no card moves, and the invariant is kept |
| MatchGame.Game.GrowDone | ViewController.swift:74-84 | the snapshot is shrunk and faded, and the final step is scheduled; the invariant is kept |
| MatchGame.Game.ShrinkDone | ViewController.swift:85-90 | every view of the snapshot ends hidden, opaque and unscaled; no other view changes; the invariant is kept |
| MatchGame.Game.FlipBackDone | ViewController.swift:104-106 | the end of a flip back changes no view and schedules nothing |
| MatchGame.Game.Complete | ViewController.swift:62-114 | each completion leaves the state its own step method specifies: the three-way outcome of a flip end, the shrink after the grow, the settle after the shrink, and no change after a flip back. Every completion keeps the invariant, turns no view face-up, moves no card, shows no hidden view, and schedules only completions for existing views |
| Scenarios.ExampleDeal | ViewController.swift:28-32 | removing at 0, 1, 0, 0 from the pool a, a, b, b deals a, b, a, b |
| Scenarios.DealExample | ViewController.swift:20-36 | drawing (2, 0) and (5, 1) and removing at 0, 1, 0, 0 yields the board A, B, C, D, face-down |
| Scenarios.FirstPair | ViewController.swift:50-119 | taps on A and C are accepted; the pair matches, grows, shrinks and leaves play; B and D are untouched |
| Scenarios.FirstPairTaps | ViewController.swift:50-61 | taps on A and C on the dealt board are both accepted and turn A and C face-up |
| Scenarios.FirstPairGrows | ViewController.swift:62-73 | A's flip end finds the match and grows A and C; C's flip end then finds nothing face-up and changes nothing |
| Scenarios.FirstPairLeaves | ViewController.swift:74-90 | the grown A and C shrink, fade and end hidden, opaque and unscaled |
| Scenarios.SecondPairTaps | ViewController.swift:50-61 | with A and C gone, taps on B and D are both accepted |
| Scenarios.SecondPairGrows | ViewController.swift:62-73 | D's flip end comes first and still finds the match; B's flip end changes nothing |
| Scenarios.SecondPairLeaves | ViewController.swift:74-90 | the grown B and D shrink, fade and leave play |
| Scenarios.SecondPair | ViewController.swift:50-119 | B and D are matched next, with D's flip ending first; afterwards every view is out of play |
| Scenarios.MismatchTaps | ViewController.swift:50-61 | taps on A and B are accepted, and B is the last chosen view |
| Scenarios.MismatchFlipsBack | ViewController.swift:50-119 | a third tap is refused; A's flip end changes nothing; B's flip end turns both face-down; the flip backs change nothing, which returns the dealt board |

## Left out

- UIKit animation: the durations, options and easing of `UIView.transition` and
  `UIViewPropertyAnimator` are not modelled. Only the values each animation block assigns are
  modelled, at the moment the block runs.
- The dynamic-animator behaviour declared at lines 17-18: its `addItem` and `removeItem` calls at
  lines 34, 55, 105 and 111 are idle physics motion and have no effect on the game. So the
  flip-back completion and the `!isFaceUp` branch at lines 110-111 change no game state.
- The starting values of `isHidden`, `alpha` and `transform`. `viewDidLoad` sets only `isFaceUp`
  (line 29), and the other three keep the values the views are created with. The model assumes
  those are visible, alpha 1 and the identity transform, the framework's defaults for a new view.
- `CGAffineTransform` values are reduced to the tags `Identity` (no scaling), `Big` (×3) and `Small`
  (×0.1). Alpha is recorded only as whether it is 1.
- The random index choice at line 30 is an input: `picks[k]`, below the number of cards left in the
  pool. The `CGFloat.arc4random` extension at lines 151-161 is floating point plus an operating-system
  random call, so it is not modelled. The integer `arc4random` used at line 30 is not part of this
  model.
- `PlayingCardDeck`, `PlayingCard` and `deck.draw()` are defined in other files of the app and are
  not part of this model. The drawn cards are an input sequence of (rank order, suit raw value)
  pairs, one per draw. A `draw()` returning nil, which traps at the force-unwrap, is therefore not
  modelled.
- `Game.constructor` requires at least one card view. The closed range `1...0` traps on an empty
  outlet collection, and the model has no crash state.
- The commented-out multitouch block at lines 123-148 is dead code.
- Gesture states other than `.ended` fall into `default: break` and do nothing, so they are left
  out.
- The `as? PlayingCardView` cast at line 53 always succeeds for the outlet views, so the model does
  not represent other view classes.
- `Scenarios.MatchScenario` and `Scenarios.MismatchScenario` chain the stage methods listed in the
  table. They carry no contract of their own.
