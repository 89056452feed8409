/** The invariant every reachable game state keeps, and the events that
    drive the game from the initial state.
 */
module Invariants {
  import opened Modes
  import opened Colors
  import opened Engine

  /** No round has been started yet. */
  predicate Idle(g: Game) {
    g.answer == -1 && g.count == 0 && g.clicked == {}
  }

  /** The boxes below `n`. */
  function Boxes(n: nat): set<nat>
  {
    if n == 0 then {} else Boxes(n - 1) + {n - 1}
  }

  /** Boxes(n) holds exactly the indices below n. */
  lemma {:induction false} BoxesMembers(n: nat, i: nat)
    ensures i in Boxes(n) <==> i < n
  {
    if n > 0 {
      BoxesMembers(n - 1, i);
    }
  }

  /** The boxes of the current round other than the answer box. */
  function Others(g: Game): set<nat> {
    Boxes(g.count) - {g.answer}
  }

  /** A round is running: the answer is one of its boxes, the box count is
      the mode's, each box has a colour and the target is the answer's
      colour, only non-answer boxes are marked, and at least two boxes are
      still unmarked (otherwise the round would have ended). */
  predicate InRound(g: Game) {
    && 0 <= g.answer < g.count
    && g.count == CountFor(g.mode)
    && |g.colors| == g.count && AllDisplayable(g.colors)
    && g.target == Shows(g.colors[g.answer])
    && g.clicked <= Others(g)
    && |g.clicked| < g.count - 1
  }

  predicate Valid(g: Game) {
    g.score >= 0 && (Idle(g) || InRound(g))
  }

  lemma InitialValid()
    ensures Valid(Initial) && Idle(Initial)
  {
  }

  /** Starting a round from any non-negative score yields a running round. */
  lemma InitGameValid(g: Game, mode: Mode, d: Draw)
    requires g.score >= 0
    requires Fits(d, CountFor(mode))
    ensures Valid(InitGame(g, mode, d)) && InRound(InitGame(g, mode, d))
  {
    InitGameColors(g, mode, d);
  }

  lemma {:induction false} BoxesSize(n: nat)
    ensures |Boxes(n)| == n
  {
    if n > 0 {
      BoxesSize(n - 1);
      BoxesMembers(n - 1, n - 1);
    }
  }

  /** A round has exactly count - 1 boxes that are not the answer. */
  lemma OthersSize(g: Game)
    requires 0 <= g.answer < g.count
    ensures |Others(g)| == g.count - 1
  {
    BoxesSize(g.count);
    BoxesMembers(g.count, g.answer);
  }

  /** The click handler ends a round on a non-answer click exactly when that
      click completes the set of non-answer boxes: counting the marked boxes
      is the same as checking that every wrong box has been tried. */
  lemma RoundEndsIffOthersExhausted(g: Game, index: nat)
    requires Valid(g)
    requires CheckClick(g, index).Accept?
    requires index != g.answer
    ensures |g.clicked| + 1 == g.count - 1 <==> g.clicked + {index} == Others(g)
  {
    var marked := g.clicked + {index};
    assert |marked| == |g.clicked| + 1;
    BoxesMembers(g.count, index);
    assert marked <= Others(g);
    OthersSize(g);
    if |marked| == g.count - 1 {
      assert |Others(g) - marked| == |Others(g)| - |marked|;
      assert Others(g) - marked == {};
    }
  }

  /** Marking one more non-answer box, short of the last one, keeps a round
      running, whatever the score becomes. */
  lemma MarkKeepsRound(g: Game, index: nat, score: int)
    requires InRound(g)
    requires index < g.count && index != g.answer && index !in g.clicked
    requires |g.clicked| + 1 != g.count - 1
    ensures InRound(g.(score := score, clicked := g.clicked + {index}))
  {
    BoxesMembers(g.count, index);
    assert index in Others(g);
    assert |g.clicked + {index}| == |g.clicked| + 1;
  }

  /** Every click, accepted or not, keeps the invariant. */
  lemma ClickPreservesValid(g: Game, index: nat, d: Draw)
    requires Valid(g)
    requires CheckClick(g, index).Accept? ==> g.mode.Listed() && Fits(d, CountFor(g.mode))
    ensures Valid(ClickBox(g, index, d).game)
  {
    var r := ClickBox(g, index, d);
    if CheckClick(g, index).Accept? {
      assert InRound(g);
      if index == g.answer || |g.clicked| + 1 == g.count - 1 {
        InitGameValid(r.game, g.mode, d);
      } else {
        MarkKeepsRound(g, index, r.game.score);
      }
    }
  }

  /** The two inputs the page delivers: a mode button and a box click, each
      with the random values a new round would consume. */
  datatype Event = ModeButton(name: string, draw: Draw) | BoxClick(index: nat, draw: Draw)

  /** The event can be handled: its draw fits the round it may start, and a
      click that reaches the scoring rule happens in a listed mode. */
  predicate Enabled(g: Game, e: Event) {
    match e
    case ModeButton(name, d) => Fits(d, CountFor(ModeOf(name)))
    case BoxClick(index, d) =>
      CheckClick(g, index).Accept? ==> g.mode.Listed() && Fits(d, CountFor(g.mode))
  }

  function Step(g: Game, e: Event): Game
    requires Enabled(g, e)
  {
    match e
    case ModeButton(name, d) => SelectMode(g, name, d)
    case BoxClick(index, d) => ClickBox(g, index, d).game
  }

  predicate Runnable(g: Game, es: seq<Event>)
    decreases |es|
  {
    |es| == 0 || (Enabled(g, es[0]) && Runnable(Step(g, es[0]), es[1..]))
  }

  /** The state after handling the events in order. */
  function Run(g: Game, es: seq<Event>): Game
    requires Runnable(g, es)
    decreases |es|
  {
    if |es| == 0 then g else Run(Step(g, es[0]), es[1..])
  }

  lemma StepPreservesValid(g: Game, e: Event)
    requires Valid(g) && Enabled(g, e)
    ensures Valid(Step(g, e))
  {
    match e
    case ModeButton(name, d) => InitGameValid(g, ModeOf(name), d);
    case BoxClick(index, d) => ClickPreservesValid(g, index, d);
  }

  lemma {:induction false} RunPreservesValid(g: Game, es: seq<Event>)
    requires Valid(g) && Runnable(g, es)
    ensures Valid(Run(g, es))
    decreases |es|
  {
    if |es| > 0 {
      StepPreservesValid(g, es[0]);
      RunPreservesValid(Step(g, es[0]), es[1..]);
    }
  }

  /** Whatever the player does from page load, the score is never negative,
      the answer box is never marked, and a running round's box count is its
      mode's. */
  lemma ReachableStates(es: seq<Event>)
    requires Runnable(Initial, es)
    ensures Run(Initial, es).score >= 0
    ensures Run(Initial, es).answer !in Run(Initial, es).clicked
    ensures Run(Initial, es).answer != -1 ==> Run(Initial, es).count == CountFor(Run(Initial, es).mode)
  {
    InitialValid();
    RunPreservesValid(Initial, es);
  }
}
