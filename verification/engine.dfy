/** The game engine: the game state, starting a round, the scoring rule,
    and the box-click handler with its two rule sets. Every transition is a
    pure function; the random values a new round needs are passed in as a
    Draw.
 */
module Engine {
  import opened Modes
  import opened Colors

  /** What the target-colour display shows. */
  datatype Target = Blank | Shows(color: Rgb)

  /** The game state. `answer` is the correct box, or -1 while no round has
      been started; `clicked` holds the boxes marked as tried this round;
      `colors` are the round's box colours and `target` the colour the player
      is asked to find. */
  datatype Game = Game(
    answer: int,
    count: nat,
    score: int,
    mode: Mode,
    clicked: set<nat>,
    colors: seq<Rgb>,
    target: Target)

  /** The state the page loads with. */
  const Initial: Game := Game(-1, 0, 0, Unlisted(""), {}, [], Blank)

  /** The random values one new round consumes: the answer index and three
      colour components per box. */
  datatype Draw = Draw(answer: int, samples: seq<int>)

  /** A draw the random helpers could have produced for a round of `count`
      boxes. */
  predicate Fits(d: Draw, count: nat) {
    && 0 <= d.answer < count
    && |d.samples| == 3 * count
    && Samples(d.samples)
  }

  /** The alerts the engine shows. */
  datatype Notice =
    | PickModeFirst   // click before any round was started
    | PickColoredBox  // click on a box outside the round
    | AlreadyTried    // click on a box already marked
    | Guessed         // standard: found the target
    | Missed          // standard: wrong box
    | AllWrongPicked  // standard: every wrong box tried, round skipped
    | HitForbidden    // extreme: clicked the target
    | Avoided         // extreme: clicked another box
    | AllAvoided      // extreme: every other box clicked, round won

  datatype Icon = Success | Error | Warning | Info

  /** The icon each alert is shown with: guidance alerts for a rejected
      click are warnings or information, outcomes are success or error. */
  function IconOf(n: Notice): Icon {
    match n
    case PickModeFirst => Warning
    case PickColoredBox => Warning
    case AlreadyTried => Info
    case Guessed => Success
    case Missed => Error
    case AllWrongPicked => Info
    case HitForbidden => Error
    case Avoided => Success
    case AllAvoided => Success
  }

  /** The state after a click, and the alerts shown, in the order shown. */
  datatype Reply = Reply(game: Game, alerts: seq<Notice>)

  /** Starts a round of `mode` with the random values `d`: the box count comes
      from the mode, every clicked mark is cleared, and the target is the
      answer box's colour. Only the score carries over. */
  function InitGame(g: Game, mode: Mode, d: Draw): (r: Game)
    requires Fits(d, CountFor(mode))
    ensures r.count == CountFor(mode)
    ensures r.mode == mode
    ensures 0 <= r.answer < r.count && r.answer == d.answer
    ensures r.clicked == {}
    ensures |r.colors| == r.count
    ensures r.target == Shows(r.colors[r.answer])
    ensures r.score == g.score
  {
    var colors := ColorsFrom(d.samples);
    Game(d.answer, CountFor(mode), g.score, mode, {}, colors, Shows(colors[d.answer]))
  }

  /** A new round's box colours are displayable and are exactly the drawn
      components, three per box, in box order. */
  lemma InitGameColors(g: Game, mode: Mode, d: Draw)
    requires Fits(d, CountFor(mode))
    ensures AllDisplayable(InitGame(g, mode, d).colors)
    ensures Flatten(InitGame(g, mode, d).colors) == d.samples
  {
    FlattenColorsFrom(d.samples);
  }

  /** Picking a mode from its button starts a round of that mode. */
  function SelectMode(g: Game, name: string, d: Draw): (r: Game)
    requires Fits(d, CountFor(ModeOf(name)))
    ensures r == InitGame(g, ModeOf(name), d)
    ensures name !in ListedNames ==> r.count == 3 && r.mode == Unlisted(name)
  {
    InitGame(g, ModeOf(name), d)
  }

  /** The scoring rule. A win adds the mode's points, a loss subtracts the
      penalty; a change that would take the score below zero is skipped, so
      the score is left as it was rather than set to zero. */
  function UpdateScore(score: int, mode: Mode, won: bool): (r: int)
    requires mode.Listed()
    ensures score >= 0 ==> r >= 0
    ensures won && score >= 0 ==> r == score + ScoreFor(mode)
    ensures !won && score >= Penalty(mode) ==> r == score - Penalty(mode)
    ensures !won && score < Penalty(mode) ==> r == score
    ensures won ==> r >= score
    ensures !won ==> r <= score
  {
    var delta: int := if won then ScoreFor(mode) else 0 - Penalty(mode);
    if score + delta < 0 then score else score + delta
  }

  /** The outcome of the three guards of the click handler. */
  datatype Check = Accept | Reject(notice: Notice)

  /** The click handler's guards, in the order it applies them: a round must
      be running, the box must belong to it, and it must not be marked. */
  function CheckClick(g: Game, index: nat): (c: Check)
    ensures c.Accept? <==>
              g.answer != -1 && g.count != 0 && index < g.count && index !in g.clicked
    ensures c == Reject(PickModeFirst) <==> g.answer == -1 || g.count == 0
    ensures c == Reject(PickColoredBox) <==>
              g.answer != -1 && g.count != 0 && g.count <= index
    ensures c == Reject(AlreadyTried) <==>
              g.answer != -1 && g.count != 0 && index < g.count && index in g.clicked
  {
    if g.answer == -1 || g.count == 0 then Reject(PickModeFirst)
    else if g.count <= index then Reject(PickColoredBox)
    else if index in g.clicked then Reject(AlreadyTried)
    else Accept
  }

  /** The standard rules: find the target. The score is updated first; a
      correct click then starts a new round, a wrong one marks the box, and
      when every box but one is marked the round is skipped without any
      further score change. */
  function StandardRound(g: Game, index: nat, d: Draw): (r: Reply)
    requires CheckClick(g, index).Accept?
    requires g.mode.Listed()
    requires Fits(d, CountFor(g.mode))
    ensures r.game.mode == g.mode
    ensures index == g.answer ==>
              && r.game == InitGame(g.(score := UpdateScore(g.score, g.mode, true)), g.mode, d)
              && r.alerts == [Guessed]
    ensures index == g.answer && g.score >= 0 ==> r.game.score == g.score + ScoreFor(g.mode)
    ensures index != g.answer ==> r.game.score == UpdateScore(g.score, g.mode, false)
    ensures index != g.answer && |g.clicked| + 1 == g.count - 1 ==>
              && r.game == InitGame(g.(score := UpdateScore(g.score, g.mode, false)), g.mode, d)
              && r.alerts == [Missed, AllWrongPicked]
    ensures index != g.answer && |g.clicked| + 1 != g.count - 1 ==>
              && r.game == g.(score := UpdateScore(g.score, g.mode, false),
                              clicked := g.clicked + {index})
              && r.alerts == [Missed]
  {
    var won := index == g.answer;
    var scored := g.(score := UpdateScore(g.score, g.mode, won));
    if won then
      Reply(InitGame(scored, g.mode, d), [Guessed])
    else
      var marked := scored.(clicked := scored.clicked + {index});
      if |marked.clicked| + 1 == marked.count then
        Reply(InitGame(marked, g.mode, d), [Missed, AllWrongPicked])
      else
        Reply(marked, [Missed])
  }

  /** The extreme rules: avoid the target. Clicking it costs the penalty and
      starts a new round; any other click only marks the box, and the click
      that leaves only the target unmarked wins the round's points and starts
      a new round. */
  function ExtremeRound(g: Game, index: nat, d: Draw): (r: Reply)
    requires CheckClick(g, index).Accept?
    requires g.mode == Extreme
    requires Fits(d, CountFor(Extreme))
    ensures r.game.mode == Extreme
    ensures index == g.answer ==>
              && r.game == InitGame(g.(score := UpdateScore(g.score, Extreme, false)), Extreme, d)
              && r.alerts == [HitForbidden]
    ensures index != g.answer && |g.clicked| + 1 != g.count - 1 ==>
              && r.game == g.(clicked := g.clicked + {index})
              && r.alerts == [Avoided]
    ensures index != g.answer && |g.clicked| + 1 == g.count - 1 ==>
              && r.game == InitGame(g.(score := UpdateScore(g.score, Extreme, true)), Extreme, d)
              && r.alerts == [Avoided, AllAvoided]
    ensures index != g.answer && |g.clicked| + 1 == g.count - 1 && g.score >= 0 ==>
              r.game.score == g.score + ScoreFor(Extreme)
  {
    if index == g.answer then
      Reply(InitGame(g.(score := UpdateScore(g.score, g.mode, false)), g.mode, d), [HitForbidden])
    else
      var marked := g.(clicked := g.clicked + {index});
      if |marked.clicked| + 1 == marked.count then
        Reply(InitGame(marked.(score := UpdateScore(marked.score, g.mode, true)), g.mode, d),
              [Avoided, AllAvoided])
      else
        Reply(marked, [Avoided])
  }

  /** The box-click handler. A rejected click changes nothing and shows one
      guidance alert; an accepted one goes to the extreme rules in extreme
      mode and to the standard rules otherwise. The draw is only used when
      the click ends the round. */
  function ClickBox(g: Game, index: nat, d: Draw): (r: Reply)
    requires CheckClick(g, index).Accept? ==> g.mode.Listed() && Fits(d, CountFor(g.mode))
    ensures r.game.mode == g.mode
    ensures CheckClick(g, index).Reject? ==>
              && r.game == g && r.alerts == [CheckClick(g, index).notice]
              && IconOf(r.alerts[0]) in {Warning, Info}
    ensures CheckClick(g, index).Accept? && g.mode == Extreme ==>
              |r.alerts| > 0 && r.alerts[0] in {HitForbidden, Avoided}
    ensures CheckClick(g, index).Accept? && g.mode != Extreme ==>
              |r.alerts| > 0 && r.alerts[0] in {Guessed, Missed}
  {
    match CheckClick(g, index)
    case Reject(n) => Reply(g, [n])
    case Accept =>
      if g.mode == Extreme then ExtremeRound(g, index, d) else StandardRound(g, index, d)
  }

  /** An accepted click is exactly the rule set's transition: the extreme
      rules in extreme mode, the standard rules otherwise. In particular a
      correct click in a standard mode wins the mode's points and starts a
      new round, and hitting the target in extreme mode costs the penalty. */
  lemma ClickBoxAccepted(g: Game, index: nat, d: Draw)
    requires CheckClick(g, index).Accept?
    requires g.mode.Listed() && Fits(d, CountFor(g.mode))
    ensures ClickBox(g, index, d) ==
              if g.mode == Extreme then ExtremeRound(g, index, d) else StandardRound(g, index, d)
    ensures g.mode != Extreme && index == g.answer && g.score >= 0 ==>
              && ClickBox(g, index, d).game.score == g.score + ScoreFor(g.mode)
              && ClickBox(g, index, d).game.clicked == {}
              && ClickBox(g, index, d).game.answer == d.answer
              && ClickBox(g, index, d).alerts == [Guessed]
    ensures g.mode == Extreme && index == g.answer ==>
              && ClickBox(g, index, d).game.score == UpdateScore(g.score, Extreme, false)
              && ClickBox(g, index, d).game.clicked == {}
              && ClickBox(g, index, d).alerts == [HitForbidden]
  {
  }
}
