/** Whole rounds played click by click: what the score does when a player
    clicks every wrong box of a round, in either rule set.
 */
module Sweeps {
  import opened Modes
  import opened Colors
  import opened Engine
  import opened Invariants

  /** The state after the first k clicks of `idxs`, in order, each click
      offered the same draw for a round it might start. */
  function Play(g: Game, idxs: seq<nat>, k: nat, d: Draw): (r: Game)
    requires g.mode.Listed() && Fits(d, CountFor(g.mode))
    requires k <= |idxs|
    ensures r.mode == g.mode
  {
    if k == 0 then g else ClickBox(Play(g, idxs, k - 1, d), idxs[k - 1], d).game
  }

  predicate Distinct(idxs: seq<nat>) {
    forall i, j :: 0 <= i < j < |idxs| ==> idxs[i] != idxs[j]
  }

  /** The boxes among the first k of `idxs`. */
  function Marked(idxs: seq<nat>, k: nat): set<nat>
    requires k <= |idxs|
  {
    if k == 0 then {} else Marked(idxs, k - 1) + {idxs[k - 1]}
  }

  /** `idxs` lists every non-answer box of the round once, in some order. */
  predicate SweepOf(g: Game, idxs: seq<nat>) {
    && |idxs| == g.count - 1
    && Distinct(idxs)
    && (forall i :: 0 <= i < |idxs| ==> idxs[i] in Others(g))
  }

  /** The first k boxes of a list without repeats are k boxes, and none of
      the later ones is among them. */
  lemma {:induction false} DistinctPrefix(idxs: seq<nat>, k: nat)
    requires Distinct(idxs)
    requires k <= |idxs|
    ensures |Marked(idxs, k)| == k
    ensures forall i :: k <= i < |idxs| ==> idxs[i] !in Marked(idxs, k)
  {
    if k > 0 {
      DistinctPrefix(idxs, k - 1);
      forall i | k <= i < |idxs|
        ensures idxs[i] !in Marked(idxs, k)
      {
        assert idxs[k - 1] != idxs[i];
      }
    }
  }

  /** The score after k losses in a row. */
  function Losses(score: int, m: Mode, k: nat): int
    requires m.Listed()
  {
    if k == 0 then score else UpdateScore(Losses(score, m, k - 1), m, false)
  }

  /** While the score can afford the penalty, k losses in a row subtract
      exactly k penalties. */
  lemma {:induction false} LossesAffordable(score: int, m: Mode, k: nat)
    requires m.Listed()
    requires Penalty(m) * k <= score
    ensures Losses(score, m, k) == score - Penalty(m) * k
  {
    if k > 0 {
      var p := Penalty(m);
      assert p * k == p * (k - 1) + p;
      LossesAffordable(score, m, k - 1);
    }
  }

  /** Once the score is below the penalty, further losses leave it alone. */
  lemma {:induction false} LossesStuck(score: int, m: Mode, k: nat, j: nat)
    requires m.Listed()
    requires j <= k
    requires 0 <= Losses(score, m, j) < Penalty(m)
    ensures Losses(score, m, k) == Losses(score, m, j)
    decreases k - j
  {
    if j < k {
      LossesStuck(score, m, k, j + 1);
    }
  }

  /** Facts of Euclidean division used below. */
  lemma DivisionFacts(s: nat, p: nat, k: nat)
    requires 0 < p
    ensures p * (s / p) <= s
    ensures s - p * (s / p) == s % p < p
    ensures k <= s / p ==> p * k <= s
  {
    if k <= s / p {
      assert p * k <= p * (s / p);
    }
  }

  /** Repeated losses subtract the penalty while the score can afford it and
      then leave the score where it is, instead of clamping it to zero: from
      score s, k losses cost min(k, s / penalty) penalties. */
  lemma LossesClosedForm(score: nat, m: Mode, k: nat)
    requires m.Listed()
    ensures k <= score / Penalty(m) ==> Losses(score, m, k) == score - Penalty(m) * k
    ensures k >= score / Penalty(m) ==> Losses(score, m, k) == score % Penalty(m)
    ensures 0 <= Losses(score, m, k) <= score
  {
    var p := Penalty(m);
    var q := score / p;
    DivisionFacts(score, p, k);
    if k <= q {
      LossesAffordable(score, m, k);
    } else {
      DivisionFacts(score, p, q);
      LossesAffordable(score, m, q);
      LossesStuck(score, m, k, q);
    }
  }

  /** The skipped-not-clamped rule on the smallest example: in easy mode a
      loss at score 5 leaves 5, where clamping would give 0. */
  lemma EasyLossAtFiveKeepsFive()
    ensures UpdateScore(5, Easy, false) == 5
    ensures Losses(30, Easy, 4) == 6
  {
    LossesClosedForm(30, Easy, 4);
  }

  /** The score after k wrong clicks of a sweep: unchanged in extreme mode,
      k losses in the standard modes. */
  function SweptScore(g: Game, k: nat): int
    requires g.mode.Listed()
  {
    if g.mode == Extreme then g.score else Losses(g.score, g.mode, k)
  }

  /** The score change of a click on a wrong box, under either rule set. */
  function WrongClickScore(h: Game): int
    requires h.mode.Listed()
  {
    if h.mode == Extreme then h.score else UpdateScore(h.score, h.mode, false)
  }

  /** A wrong click that leaves at least two boxes unmarked marks the box and
      changes the score by the rule set's wrong-click rule only. */
  lemma MarkStep(h: Game, i: nat, d: Draw)
    requires h.mode.Listed() && Fits(d, CountFor(h.mode))
    requires 0 <= h.answer < h.count && i < h.count && i != h.answer && i !in h.clicked
    requires |h.clicked| + 1 != h.count - 1
    ensures ClickBox(h, i, d).game == h.(score := WrongClickScore(h), clicked := h.clicked + {i})
  {
  }

  /** The wrong click that leaves only one box unmarked starts the next round;
      in extreme mode it first wins the round's points. */
  lemma EndStep(h: Game, i: nat, d: Draw)
    requires h.mode.Listed() && Fits(d, CountFor(h.mode))
    requires 0 <= h.answer < h.count && i < h.count && i != h.answer && i !in h.clicked
    requires |h.clicked| + 1 == h.count - 1
    ensures h.mode == Extreme ==>
              ClickBox(h, i, d).game == InitGame(h.(score := UpdateScore(h.score, Extreme, true)), Extreme, d)
    ensures h.mode != Extreme ==>
              ClickBox(h, i, d).game == InitGame(h.(score := UpdateScore(h.score, h.mode, false)), h.mode, d)
  {
  }

  /** A new round keeps nothing of the state it replaces but the score. */
  lemma InitGameKeepsOnlyScore(a: Game, b: Game, mode: Mode, d: Draw)
    requires Fits(d, CountFor(mode))
    requires a.score == b.score
    ensures InitGame(a, mode, d) == InitGame(b, mode, d)
  {
  }

  /** A sweep visits only non-answer boxes of the round. */
  lemma SweepIndex(g: Game, idxs: seq<nat>, j: nat)
    requires SweepOf(g, idxs)
    requires j < |idxs|
    ensures idxs[j] < g.count && idxs[j] != g.answer
  {
    assert idxs[j] in Others(g);
    BoxesMembers(g.count, idxs[j]);
  }

  /** While a round is being swept, every click before the last marks its
      box and applies only the wrong-click score rule: nothing in extreme
      mode, one loss in the standard modes. */
  lemma {:induction false} SweepPrefix(g: Game, idxs: seq<nat>, d: Draw, k: nat)
    requires g.mode.Listed() && Fits(d, CountFor(g.mode))
    requires 0 <= g.answer < g.count && g.clicked == {}
    requires SweepOf(g, idxs)
    requires k < |idxs|
    ensures Play(g, idxs, k, d) == g.(score := SweptScore(g, k), clicked := Marked(idxs, k))
  {
    if k > 0 {
      SweepPrefix(g, idxs, d, k - 1);
      DistinctPrefix(idxs, k - 1);
      SweepIndex(g, idxs, k - 1);
      MarkStep(g.(score := SweptScore(g, k - 1), clicked := Marked(idxs, k - 1)), idxs[k - 1], d);
    }
  }

  /** The last click of a sweep ends the round: extreme mode wins the round's
      points, the standard modes take the click's loss, and the next round
      starts. */
  lemma SweepLast(g: Game, idxs: seq<nat>, d: Draw)
    requires g.mode.Listed() && Fits(d, CountFor(g.mode))
    requires 0 <= g.answer < g.count == CountFor(g.mode) && g.clicked == {}
    requires SweepOf(g, idxs)
    ensures g.mode == Extreme ==>
              Play(g, idxs, |idxs|, d) ==
                InitGame(g.(score := UpdateScore(g.score, Extreme, true)), Extreme, d)
    ensures g.mode != Extreme ==>
              Play(g, idxs, |idxs|, d) ==
                InitGame(g.(score := Losses(g.score, g.mode, |idxs|)), g.mode, d)
  {
    var n := |idxs|;
    SweepPrefix(g, idxs, d, n - 1);
    DistinctPrefix(idxs, n - 1);
    SweepIndex(g, idxs, n - 1);
    var h := g.(score := SweptScore(g, n - 1), clicked := Marked(idxs, n - 1));
    EndStep(h, idxs[n - 1], d);
    var after := if g.mode == Extreme then UpdateScore(g.score, Extreme, true)
                 else Losses(g.score, g.mode, n);
    InitGameKeepsOnlyScore(h.(score := after), g.(score := after), g.mode, d);
  }

  /** Extreme mode: clicking every non-answer box, never the answer, awards
      the extreme points exactly once, on the last click, which also starts
      the next round. */
  lemma ExtremeSweepWins(g: Game, idxs: seq<nat>, d: Draw)
    requires g.mode == Extreme && Fits(d, CountFor(Extreme))
    requires g.score >= 0 && 0 <= g.answer < g.count == CountFor(g.mode) && g.clicked == {}
    requires SweepOf(g, idxs)
    ensures forall k :: 0 <= k < |idxs| ==>
              Play(g, idxs, k, d).score == g.score && Play(g, idxs, k, d).answer == g.answer
    ensures Play(g, idxs, |idxs|, d) ==
              InitGame(g.(score := g.score + ScoreFor(Extreme)), Extreme, d)
  {
    forall k | 0 <= k < |idxs|
      ensures Play(g, idxs, k, d).score == g.score && Play(g, idxs, k, d).answer == g.answer
    {
      SweepPrefix(g, idxs, d, k);
    }
    SweepLast(g, idxs, d);
  }

  /** Standard mode: clicking every wrong box costs one loss per click and
      nothing more; the last click starts the next round without any further
      score change. */
  lemma StandardSweepSkips(g: Game, idxs: seq<nat>, d: Draw)
    requires g.mode.Listed() && g.mode != Extreme && Fits(d, CountFor(g.mode))
    requires g.score >= 0 && 0 <= g.answer < g.count == CountFor(g.mode) && g.clicked == {}
    requires SweepOf(g, idxs)
    ensures forall k :: 0 <= k < |idxs| ==>
              Play(g, idxs, k, d).score == Losses(g.score, g.mode, k) &&
              Play(g, idxs, k, d).answer == g.answer
    ensures Play(g, idxs, |idxs|, d) ==
              InitGame(g.(score := Losses(g.score, g.mode, g.count - 1)), g.mode, d)
    ensures Play(g, idxs, |idxs|, d).score <= g.score
  {
    forall k | 0 <= k < |idxs|
      ensures Play(g, idxs, k, d).score == Losses(g.score, g.mode, k)
      ensures Play(g, idxs, k, d).answer == g.answer
    {
      SweepPrefix(g, idxs, d, k);
    }
    SweepLast(g, idxs, d);
    LossesClosedForm(g.score, g.mode, |idxs|);
  }
}
