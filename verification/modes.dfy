/** The game modes and the two per-mode tables of the game configuration:
    how many boxes a round shows, and how many points a round is worth.
 */
module Modes {

  /** A mode as named on a mode button. The four listed modes have entries in
      both tables; any other name (including the empty name the game starts
      with) is Unlisted. */
  datatype Mode = Easy | Medium | Hard | Extreme | Unlisted(name: string)
  {
    /** True when the mode has an entry in the box-count and score tables. */
    predicate Listed() {
      !Unlisted?
    }
  }

  /** The names the tables are keyed by. */
  const ListedNames: set<string> := {"easy", "medium", "hard", "extreme"}

  /** Reads a mode name as it appears in a button's data-mode attribute. */
  function ModeOf(name: string): (m: Mode)
    ensures m.Listed() <==> name in ListedNames
    ensures m.Unlisted? ==> m.name == name
  {
    if name == "easy" then Easy
    else if name == "medium" then Medium
    else if name == "hard" then Hard
    else if name == "extreme" then Extreme
    else Unlisted(name)
  }

  /** The name under which the game records a mode. */
  function NameOf(m: Mode): string
  {
    match m
    case Easy => "easy"
    case Medium => "medium"
    case Hard => "hard"
    case Extreme => "extreme"
    case Unlisted(name) => name
  }

  /** A mode is faithfully kept as its name: reading back the recorded name
      yields the same mode, unless an unlisted mode carries a listed name. */
  lemma ModeNameRoundTrip(m: Mode)
    requires m.Unlisted? ==> m.name !in ListedNames
    ensures ModeOf(NameOf(m)) == m
  {
  }

  /** Names that denote a listed mode are recorded unchanged. */
  lemma NameModeRoundTrip(name: string)
    ensures NameOf(ModeOf(name)) == name
  {
  }

  /** Boxes per round: the countMap entry, or 3 when the mode has none. */
  function CountFor(m: Mode): (n: nat)
    ensures 3 <= n <= 9
    ensures !m.Listed() ==> n == 3
    ensures m == Hard || m == Extreme <==> n == 9
  {
    match m
    case Easy => 3
    case Medium => 6
    case Hard => 9
    case Extreme => 9
    case Unlisted(_) => 3
  }

  /** Points a won round is worth: the scoreMap entry. Every entry is even,
      so halving it for the penalty stays an integer. */
  function ScoreFor(m: Mode): (p: nat)
    requires m.Listed()
    ensures p > 0 && p % 2 == 0
  {
    match m
    case Easy => 10
    case Medium => 20
    case Hard => 50
    case Extreme => 200
  }

  /** Points a lost round costs when the score can afford it: half the
      mode's score plus three. A loss always costs less than a win earns. */
  function Penalty(m: Mode): (p: nat)
    requires m.Listed()
    ensures 2 * (p - 3) == ScoreFor(m)
    ensures 3 < p < ScoreFor(m)
  {
    ScoreFor(m) / 2 + 3
  }
}
