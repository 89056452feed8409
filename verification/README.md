# Colour-guess game engine in Dafny

This project models the game engine of a browser colour-guessing game. The
page shows a target colour and a row of coloured boxes. The player picks a
mode (easy, medium, hard or extreme), which decides how many boxes a round
shows and how many points it is worth, and then clicks boxes:

- in the standard modes the player must find the box with the target
  colour;
- in extreme mode the player must avoid it and click every other box.

The engine is a small sequential state machine over one state record. The
model keeps that record as an immutable datatype `Engine.Game`. The set of
boxes already clicked is explicit state here; on the page it lives in
`data-clicked` attributes. Every transition is a pure function. The random
values a new round needs (the answer index and three colour components per
box) are passed in as an `Engine.Draw`, constrained to the ranges the
random helpers produce.

Modules:

- `Modes` (modes.dfy): mode names, the box-count table with its default of
  3, the score table and the loss penalty.
- `Colors` (colors.dfy): the random-number helper's range, and how colours
  are built from component samples.
- `Engine` (engine.dfy): the state and initial state, starting a round, the
  scoring rule, the three click guards, the standard and extreme rules, and
  the click handler.
- `Invariants` (invariants.dfy): the invariant of every reachable state, and
  when a round ends, expressed over sets of boxes. It also defines runs of
  page events from the initial state.
- `Sweeps` (sweeps.dfy): whole rounds played click by click, and the exact
  score after repeated losses.

Three behaviours of the code that the model keeps as they are:

- **Low scores.** A score change that would go below zero is skipped: the
  score stays as it was. It is not clamped to zero (main.js:178-182). In
  easy mode, a loss at score 5 leaves 5.
- **End of a round.** A round ends on the click after which the number of
  marked boxes, counting the one just clicked, is `count - 1`. That is, once
  every non-answer box has been tried (main.js:104-109, main.js:138-143).
- **Colours.** The round's colours are drawn independently and are never
  deduplicated, so two boxes may share a colour (main.js:163-170).

## Model

| member | source | states |
|---|---|---|
| Modes.ModeOf | main.js:61-67 | a button's mode name denotes a listed mode exactly when it is one of the four table keys; any other name is kept as an unlisted mode |
| Modes.ModeNameRoundTrip | main.js:85 | keeping the mode as a datatype instead of its name loses nothing: reading back the recorded name gives the same mode |
| Modes.NameModeRoundTrip | main.js:64-65 | recording the mode read from a name gives back that name |
| Modes.CountFor | main.js:13-19 | boxes per round are between 3 and 9; an unlisted mode gets the default of 3 boxes (main.js:73); exactly hard and extreme have 9 |
| Modes.ScoreFor | main.js:20-26 | each listed mode is worth a positive, even number of points, so halving it for the penalty is exact |
| Modes.Penalty | main.js:174-175 | a loss costs half the mode's points plus three, which is always less than a win earns |
| Colors.RandomNumber | main.js:151-153 | the floor of a random sample k / 2^53 in [0, 1) scaled by max is always a valid index in [0, max) |
| Colors.ColorsFrom | main.js:155-170 | colours are built from consecutive triples of samples, one colour per three samples, and in-range samples give displayable colours |
| Colors.FlattenColorsFrom | main.js:156-160 | grouping samples into rgb triples loses nothing: the colours' components, in order, are the samples |
| Colors.ColorsFromFlatten | main.js:156-160 | every colour list is the grouping of its own components |
| Colors.RandomRgbColors | main.js:163-170 | the push loop builds exactly count colours, the k-th from samples 3k, 3k+1 and 3k+2, each component in [0, 256) |
| Engine.InitGame | main.js:70-86 | a new round has the mode's box count, the drawn answer in [0, count), no clicked boxes, the given mode, one colour per box, the answer box's colour as target, and the old score |
| Engine.InitGameColors | main.js:74 | a new round's box colours are the drawn components, three per box in box order, and every component is in [0, 256) |
| Engine.SelectMode | main.js:62-67 | a mode button starts a round of the mode it names; an unlisted name gives a 3-box round of that unlisted mode |
| Engine.UpdateScore | main.js:172-184 | a win adds exactly the mode's points; an affordable loss subtracts exactly the penalty; an unaffordable loss leaves the score unchanged (not clamped); a non-negative score stays non-negative |
| Engine.CheckClick | main.js:32-49 | the guards in order: no round running, then a box outside the round, then a box already marked; a click is accepted exactly when all three pass |
| Engine.StandardRound | main.js:88-113 | a correct click adds the mode's points and starts a fresh round; a wrong click applies the loss first, then marks the box; when every box but one is marked, the round restarts with no further score change |
| Engine.ExtremeRound | main.js:115-148 | clicking the answer applies the standard loss and starts a new round; other clicks only mark the box; the click that leaves only the answer unmarked adds the extreme points and starts a new round |
| Engine.ClickBox | main.js:30-58 | a rejected click changes nothing and shows only its guidance alert, with a warning or info icon (main.js:34, main.js:40, main.js:47); an accepted click is handled by the extreme rules (first alert hit or avoided) exactly in extreme mode and by the standard rules (first alert guessed or missed) otherwise; the mode never changes |
| Engine.ClickBoxAccepted | main.js:51-57 | an accepted click's result is exactly the extreme rules' in extreme mode and the standard rules' otherwise; so a correct standard click adds the mode's points, clears the marks and starts the drawn round, and hitting the target in extreme mode costs the loss and starts a new round |
| Invariants.InitialValid | main.js:8-12 | the page starts with no round, no marks and score 0 |
| Invariants.InitGameValid | main.js:70-86 | starting a round from a non-negative score gives a running round that satisfies the invariant |
| Invariants.OthersSize | main.js:109 | a round has exactly count - 1 non-answer boxes |
| Invariants.RoundEndsIffOthersExhausted | main.js:104-112 | counting the marked boxes ends the round exactly when the click completes the set of non-answer boxes |
| Invariants.ClickPreservesValid | main.js:30-58 | every click keeps the score non-negative, the answer unmarked, the marks inside the round and at least two boxes unmarked |
| Invariants.RunPreservesValid | main.js:61-67 | any sequence of mode selections and clicks keeps the invariant |
| Invariants.ReachableStates | main.js:177-182 | from page load, whatever the player does, the score is never negative and the answer box is never marked |
| Sweeps.LossesClosedForm | main.js:173-182 | from score s, k losses in a row subtract exactly min(k, s / penalty) penalties and leave s mod penalty once the penalty is unaffordable |
| Sweeps.EasyLossAtFiveKeepsFive | main.js:178-182 | in easy mode a loss at score 5 leaves 5, and four losses from 30 leave 6 |
| Sweeps.SweepPrefix | main.js:99-112 | while a round is swept box by box, each click before the last marks its box and costs one loss in the standard modes and nothing in extreme mode |
| Sweeps.SweepLast | main.js:108-112 | the last click of a sweep starts the next round; in extreme mode it first wins the extreme points (main.js:143-147), in a standard mode it only takes its own loss |
| Sweeps.ExtremeSweepWins | main.js:129-147 | in extreme mode, clicking every non-answer box awards 200 points exactly once, on the last click; before it the score and the answer do not change |
| Sweeps.StandardSweepSkips | main.js:99-112 | in a standard mode, clicking every wrong box costs one loss per click and nothing more, and the last click starts the next round |

## Left out

- The DOM: box styling, cursors and the target-colour text are not modelled (main.js:2-5, main.js:187-209). The clicked-box set is kept as state, and the round's colours and target are kept as values.
- The alert popups (main.js:200-203): each alert is modelled as a `Notice` tag, with its icon given by `Engine.IconOf`, in the order the handlers fire them. Titles and text are not modelled.
- `Math.random` and floating point. The random values are parameters constrained to [0, max). `Colors.RandomNumber` takes the sample as k / 2^53 and computes the product exactly, so the floating-point rounding of `Math.random() * max` is not modelled.
- The `rgb(r,g,b)` text: a colour is a triple of integers.
- Engine.ClickBox: requires a listed mode for clicks that pass the guards. In an unlisted mode, `scoreMap[mode]` is undefined and the score would become NaN (main.js:174-175); this path is not modelled.
- Modes.CountFor: mode names that are inherited object properties (such as "constructor") find a non-number in the count table; every other unlisted name gets the default of 3, as modelled.
- The number of box elements on the page is not modelled. A click index is any natural number, and indices at or above the round's count are rejected by the second guard.
- The event-listener wiring (main.js:30-31, main.js:62-67) is plumbing. It is modelled as the two step functions `Engine.SelectMode` and `Engine.ClickBox`, and as `Invariants.Event`.
