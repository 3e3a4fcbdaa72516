/**
 * The duel as a pure state machine over the two health counters.
 *
 * Both duel loops of the adventurer share one shape: while both sides stand
 * above a floor, each side rolls the die; the lower roll loses `damage`
 * health, a tie changes nothing.  The simple duel uses floor 50 and damage 1,
 * the enhanced duel floor 0 (alive means health > 0) and damage 2.
 */
module Combat {
  import opened Dice

  /** The two health counters a duel works on. */
  datatype Healths = Healths(challenger: int, opponent: int)

  /** The floor a fighter must stay above, and the damage a lost round costs. */
  datatype Rules = Rules(floor: int, damage: nat)

  /** `duel`: fight while both are above 50, one point per lost round. */
  const SimpleRules := Rules(50, 1)

  /** `enhancedDuel`: fight while both are alive, two points per lost round. */
  const EnhancedRules := Rules(0, 2)

  /** Which side the closing if/else names as the winner. */
  datatype Side = Challenger | Opponent

  /** The state a duel method returns in: decided, or out of rolls while still fighting. */
  datatype Outcome = Decided(winner: Side) | Undecided

  /** The loop guard: it fails exactly when one side is at or below the floor. */
  predicate Fighting(rules: Rules, h: Healths)
    ensures !Fighting(rules, h) <==> h.challenger <= rules.floor || h.opponent <= rules.floor
  {
    h.challenger > rules.floor && h.opponent > rules.floor
  }

  /**
   * One round's effect on the counters.  `alias` says that challenger and
   * opponent are the same object, so a decrement of one is a decrement of both.
   */
  function Exchange(rules: Rules, h: Healths, mine: int, theirs: int, alias: bool): (r: Healths)
    ensures mine == theirs ==> r == h
    ensures r.challenger == h.challenger || r.challenger == h.challenger - rules.damage
    ensures r.opponent == h.opponent || r.opponent == h.opponent - rules.damage
    ensures alias ==> r.challenger - r.opponent == h.challenger - h.opponent
    ensures alias && mine != theirs ==>
      r.challenger == h.challenger - rules.damage && r.opponent == h.opponent - rules.damage
    ensures !alias && rules.damage > 0 ==>
      && (r.challenger != h.challenger <==> mine < theirs)
      && (r.opponent != h.opponent <==> mine > theirs)
    ensures !alias ==>
      r.challenger + r.opponent == h.challenger + h.opponent - (if mine == theirs then 0 else rules.damage)
  {
    if mine < theirs then
      Healths(h.challenger - rules.damage, if alias then h.opponent - rules.damage else h.opponent)
    else if mine > theirs then
      Healths(if alias then h.challenger - rules.damage else h.challenger, h.opponent - rules.damage)
    else
      h
  }

  /** Where a run of the loop ends: the final counters and the number of rounds played. */
  datatype Fight = Fight(final: Healths, rounds: nat)

  /**
   * The loop run on a finite supply of roll pairs (challenger's face, opponent's
   * face): it stops when the guard fails or the rolls run out.
   */
  function Play(rules: Rules, h: Healths, rolls: seq<(Die, Die)>, alias: bool): (f: Fight)
    ensures f.rounds <= |rolls|
    ensures Fighting(rules, f.final) ==> f.rounds == |rolls|
    ensures f.rounds == 0 ==> f.final == h
    ensures f.rounds > 0 ==> Fighting(rules, h)
    decreases |rolls|
  {
    if |rolls| == 0 || !Fighting(rules, h) then Fight(h, 0)
    else
      var rest := Play(rules, Exchange(rules, h, rolls[0].0, rolls[0].1, alias), rolls[1..], alias);
      Fight(rest.final, rest.rounds + 1)
  }

  /** The closing if/else: the challenger wins iff it is still above the floor. */
  function Verdict(rules: Rules, h: Healths): (s: Side)
    ensures s == Challenger <==> h.challenger > rules.floor
    ensures s == Opponent <==> h.challenger <= rules.floor
  {
    if h.challenger > rules.floor then Challenger else Opponent
  }

  /** The result a duel method reports for its final counters. */
  function Judge(rules: Rules, h: Healths): (o: Outcome)
    ensures o.Undecided? <==> Fighting(rules, h)
    ensures o.Decided? ==> (o.winner == Challenger <==> h.challenger > rules.floor)
  {
    if Fighting(rules, h) then Undecided else Decided(Verdict(rules, h))
  }

  /** Rounds in which the challenger rolled lower (and so lost health). */
  function Lost(rolls: seq<(Die, Die)>): nat
  {
    if rolls == [] then 0 else (if rolls[0].0 < rolls[0].1 then 1 else 0) + Lost(rolls[1..])
  }

  /** Rounds in which the challenger rolled higher (and so the opponent lost health). */
  function Won(rolls: seq<(Die, Die)>): nat
  {
    if rolls == [] then 0 else (if rolls[0].0 > rolls[0].1 then 1 else 0) + Won(rolls[1..])
  }

  /**
   * The configurations reachable from two fighters above the floor: both still
   * above it, or exactly one knocked down to within one blow below the floor.
   */
  predicate Standing(rules: Rules, h: Healths)
  {
    || Fighting(rules, h)
    || (h.challenger > rules.floor && rules.floor - rules.damage < h.opponent <= rules.floor)
    || (h.opponent > rules.floor && rules.floor - rules.damage < h.challenger <= rules.floor)
  }

  /** A duel between two distinct fighters never leaves `Standing`. */
  lemma {:induction false} PlayKeepsStanding(rules: Rules, h: Healths, rolls: seq<(Die, Die)>)
    requires rules.damage > 0
    requires Standing(rules, h)
    ensures Standing(rules, Play(rules, h, rolls, false).final)
    decreases |rolls|
  {
    if |rolls| > 0 && Fighting(rules, h) {
      PlayKeepsStanding(rules, Exchange(rules, h, rolls[0].0, rolls[0].1, false), rolls[1..]);
    }
  }

  /**
   * When a duel between two fighters who both start above the floor ends,
   * exactly one of them is down, within one blow below the floor, the other
   * is still above it, and the verdict names the one still standing.
   */
  lemma DuelEndsWithOneLoser(rules: Rules, h: Healths, rolls: seq<(Die, Die)>)
    requires rules.damage > 0
    requires Fighting(rules, h)
    ensures var f := Play(rules, h, rolls, false).final;
      !Fighting(rules, f) ==>
        || (f.challenger > rules.floor && rules.floor - rules.damage < f.opponent <= rules.floor
            && Verdict(rules, f) == Challenger)
        || (f.opponent > rules.floor && rules.floor - rules.damage < f.challenger <= rules.floor
            && Verdict(rules, f) == Opponent)
  {
    PlayKeepsStanding(rules, h, rolls);
  }

  /**
   * The health each side loses is the damage times the number of rounds it
   * lost among those played; ties cost nothing, and nobody ever gains health.
   */
  lemma {:induction false} PlayTally(rules: Rules, h: Healths, rolls: seq<(Die, Die)>)
    ensures var f := Play(rules, h, rolls, false);
      && f.final.challenger == h.challenger - rules.damage * Lost(rolls[..f.rounds])
      && f.final.opponent == h.opponent - rules.damage * Won(rolls[..f.rounds])
      && f.final.challenger <= h.challenger && f.final.opponent <= h.opponent
    decreases |rolls|
  {
    var f := Play(rules, h, rolls, false);
    if |rolls| == 0 || !Fighting(rules, h) {
      assert rolls[..f.rounds] == [];
    } else {
      var d := rules.damage;
      var lc := if rolls[0].0 < rolls[0].1 then 1 else 0;
      var wc := if rolls[0].0 > rolls[0].1 then 1 else 0;
      var next := Exchange(rules, h, rolls[0].0, rolls[0].1, false);
      assert next == Healths(h.challenger - d * lc, h.opponent - d * wc);
      var rest := Play(rules, next, rolls[1..], false);
      assert f == Fight(rest.final, rest.rounds + 1);
      PlayTally(rules, next, rolls[1..]);
      TallyStep(rolls, rest.rounds + 1);
      var l, w := Lost(rolls[1..][..rest.rounds]), Won(rolls[1..][..rest.rounds]);
      assert Lost(rolls[..f.rounds]) == lc + l && Won(rolls[..f.rounds]) == wc + w;
      assert d * (lc + l) == d * lc + d * l;
      assert d * (wc + w) == d * wc + d * w;
    }
  }

  /** Counting a non-empty prefix: its first round plus the rest of the prefix. */
  lemma TallyStep(rolls: seq<(Die, Die)>, k: nat)
    requires 0 < k <= |rolls|
    ensures Lost(rolls[..k]) == (if rolls[0].0 < rolls[0].1 then 1 else 0) + Lost(rolls[1..][..k - 1])
    ensures Won(rolls[..k]) == (if rolls[0].0 > rolls[0].1 then 1 else 0) + Won(rolls[1..][..k - 1])
  {
    var played := rolls[..k];
    assert played[0] == rolls[0];
    assert played[1..] == rolls[1..][..k - 1];
  }

  /**
   * A run between distinct fighters is still undecided only while each side has
   * lost fewer rounds than its margin above the floor allows: enough decisive
   * rounds always decide it.
   */
  lemma UndecidedBound(rules: Rules, h: Healths, rolls: seq<(Die, Die)>)
    requires rules.damage > 0
    ensures var f := Play(rules, h, rolls, false);
      Fighting(rules, f.final) ==>
        && f.rounds == |rolls|
        && rules.damage * Lost(rolls) < h.challenger - rules.floor
        && rules.damage * Won(rolls) < h.opponent - rules.floor
  {
    PlayTally(rules, h, rolls);
    assert rolls[..|rolls|] == rolls;
  }

  /** Tied rolls never change a counter, so tied pairs alone never decide a duel. */
  lemma {:induction false} TiesNeverDecide(rules: Rules, h: Healths, rolls: seq<(Die, Die)>, alias: bool)
    requires forall i :: 0 <= i < |rolls| ==> rolls[i].0 == rolls[i].1
    ensures Play(rules, h, rolls, alias).final == h
    ensures Fighting(rules, h) ==> Judge(rules, Play(rules, h, rolls, alias).final) == Undecided
    decreases |rolls|
  {
    if |rolls| > 0 && Fighting(rules, h) {
      TiesNeverDecide(rules, h, rolls[1..], alias);
    }
  }

  /** A challenger who wins every round tallies a win for each round played. */
  lemma {:induction false} WonAll(rolls: seq<(Die, Die)>)
    requires forall i :: 0 <= i < |rolls| ==> rolls[i].0 > rolls[i].1
    ensures Won(rolls) == |rolls| && Lost(rolls) == 0
  {
    if rolls != [] {
      WonAll(rolls[1..]);
    }
  }

  /**
   * A challenger who out-rolls the opponent every round, given enough rounds,
   * ends the duel untouched with the opponent down and is declared the winner.
   */
  lemma {:induction false} OutrollingWins(rules: Rules, h: Healths, rolls: seq<(Die, Die)>)
    requires rules.damage > 0
    requires Fighting(rules, h)
    requires forall i :: 0 <= i < |rolls| ==> rolls[i].0 > rolls[i].1
    requires rules.damage * |rolls| >= h.opponent - rules.floor
    ensures var f := Play(rules, h, rolls, false).final;
      f.challenger == h.challenger && !Fighting(rules, f) && Verdict(rules, f) == Challenger
    decreases |rolls|
  {
    assert |rolls| > 0;
    var next := Exchange(rules, h, rolls[0].0, rolls[0].1, false);
    assert next == Healths(h.challenger, h.opponent - rules.damage);
    if Fighting(rules, next) {
      assert rules.damage * |rolls| == rules.damage * |rolls[1..]| + rules.damage;
      OutrollingWins(rules, next, rolls[1..]);
    }
  }

  /**
   * The simple duel from full health where the challenger always rolls higher:
   * the opponent drops one point a round, the duel ends after exactly 50 rounds
   * with the opponent at 50, and the challenger wins.
   */
  lemma SimpleDuelOutrolled(rolls: seq<(Die, Die)>)
    requires |rolls| >= 50
    requires forall i :: 0 <= i < |rolls| ==> rolls[i].0 > rolls[i].1
    ensures Play(SimpleRules, Healths(100, 100), rolls, false) == Fight(Healths(100, 50), 50)
    ensures Judge(SimpleRules, Healths(100, 50)) == Decided(Challenger)
  {
    var h := Healths(100, 100);
    var f := Play(SimpleRules, h, rolls, false);
    OutrollingWins(SimpleRules, h, rolls);
    DuelEndsWithOneLoser(SimpleRules, h, rolls);
    PlayTally(SimpleRules, h, rolls);
    WonAll(rolls[..f.rounds]);
  }

  /**
   * The enhanced duel in the same setting: two points a round, the opponent
   * reaches exactly 0 after 50 rounds and the challenger wins.
   */
  lemma EnhancedDuelOutrolled(rolls: seq<(Die, Die)>)
    requires |rolls| >= 50
    requires forall i :: 0 <= i < |rolls| ==> rolls[i].0 > rolls[i].1
    ensures Play(EnhancedRules, Healths(100, 100), rolls, false) == Fight(Healths(100, 0), 50)
    ensures Judge(EnhancedRules, Healths(100, 0)) == Decided(Challenger)
  {
    var h := Healths(100, 100);
    var f := Play(EnhancedRules, h, rolls, false);
    OutrollingWins(EnhancedRules, h, rolls);
    DuelEndsWithOneLoser(EnhancedRules, h, rolls);
    PlayTally(EnhancedRules, h, rolls);
    WonAll(rolls[..f.rounds]);
  }

  /**
   * A fighter who duels itself loses both counters together, so whenever such
   * a duel is decided the if/else falls through to the opponent.
   */
  lemma {:induction false} SelfDuelFallsToOpponent(rules: Rules, h: Healths, rolls: seq<(Die, Die)>)
    requires h.challenger == h.opponent
    ensures var f := Play(rules, h, rolls, true).final;
      f.challenger == f.opponent && (!Fighting(rules, f) ==> Verdict(rules, f) == Opponent)
    decreases |rolls|
  {
    if |rolls| > 0 && Fighting(rules, h) {
      SelfDuelFallsToOpponent(rules, Exchange(rules, h, rolls[0].0, rolls[0].1, true), rolls[1..]);
    }
  }
}
