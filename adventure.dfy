/**
 * The character model: a `Character` with a name, a health counter and an
 * inventory, specialized into adventurers (with a validated role and the
 * duels) and companions (with a type tag).
 */
module Adventure {
  import opened Wrappers
  import opened Dice
  import Combat

  /** `Character.MAX_HEALTH`: starting health and the cap healing respects. */
  const MAX_HEALTH: int := 100

  /** `Adventurer.ROLES`: the roles an adventurer may take. */
  const ROLES: seq<string> := ["Fighter", "Healer", "Wizard"]

  /** The two items every adventurer starts with. */
  const STARTING_ITEMS: seq<string> := ["bedroll", "50 gold coins"]

  /** `Adventurer.ROLES.includes(role)`. */
  predicate IsRole(role: string)
    ensures IsRole(role) <==> role == "Fighter" || role == "Healer" || role == "Wizard"
  {
    role in ROLES
  }

  /** The error an adventurer's construction throws for a role outside `ROLES`. */
  datatype RoleError = InvalidRole(role: string)
  {
    /** The thrown error's message: the role followed by a fixed phrase. */
    function Message(): (m: string)
      ensures |m| > |role| && m[..|role|] == role
      ensures m[|role|..] == " is not a valid role."
    {
      role + " is not a valid role."
    }
  }

  /** Which of the three classes a character was constructed as. */
  datatype Kind = Plain | Adventurer(role: string) | Companion(companionType: string)

  /** `heal`'s new health: `Math.min(health + amount, MAX_HEALTH)`. */
  function Healed(health: int, amount: int): (r: int)
    ensures r <= MAX_HEALTH && r <= health + amount
    ensures r == MAX_HEALTH || r == health + amount
  {
    if health + amount < MAX_HEALTH then health + amount else MAX_HEALTH
  }

  /** Healing twice by non-negative amounts is healing once by their sum. */
  lemma HealedTwice(health: int, a: int, b: int)
    requires b >= 0
    ensures Healed(Healed(health, a), b) == Healed(health, a + b)
  {
  }

  /** A non-negative heal never lowers a health that is within the cap. */
  lemma HealedNeverHurts(health: int, amount: int)
    requires health <= MAX_HEALTH && amount >= 0
    ensures health <= Healed(health, amount)
  {
  }

  /** The enhanced duel's loop guard on two characters' counters is "both alive". */
  lemma EnhancedGuardIsAlive(c: Character, o: Character)
    ensures Combat.Fighting(Combat.EnhancedRules, Combat.Healths(c.health, o.health))
      <==> c.IsAlive() && o.IsAlive()
  {
  }

  class Character {
    const name: string
    var health: int
    var inventory: seq<string>
    const kind: Kind

    /** `super(name)` plus the subclass's own field: full health, empty inventory. */
    constructor (name: string, kind: Kind)
      ensures this.name == name && this.kind == kind
      ensures health == MAX_HEALTH && inventory == []
    {
      this.name := name;
      this.health := MAX_HEALTH;
      this.inventory := [];
      this.kind := kind;
    }

    /** `roll(mod = 0)`: the die face plus the modifier; no field changes. */
    method Roll(face: Die, mod: int := 0) returns (r: int)
      ensures 1 + mod <= r <= 20 + mod
      ensures r - mod == face
    {
      r := face + mod;
    }

    /** `heal(amount)`: health becomes `min(health + amount, MAX_HEALTH)`. */
    method Heal(amount: int)
      modifies this`health
      ensures health == Healed(old(health), amount)
      ensures health <= MAX_HEALTH
    {
      health := Healed(health, amount);
    }

    /** `isAlive()`: alive means above the enhanced duel's floor, 0. */
    predicate IsAlive()
      reads this
      ensures IsAlive() <==> health > Combat.EnhancedRules.floor
    {
      health > 0
    }

    /** `scout()`: rolls without a modifier and discards the result. */
    method Scout(face: Die)
      requires kind.Adventurer?
      ensures unchanged(this)
    {
      var _ := Roll(face);
    }

    /**
     * One round of either duel: the lower roll loses `damage` health, a tie
     * changes nothing, and no other field changes.
     */
    method Strike(opponent: Character, myRoll: int, opponentRoll: int, damage: int)
      modifies this`health, opponent`health
      ensures opponent != this ==>
        && (myRoll < opponentRoll ==> health == old(health) - damage && opponent.health == old(opponent.health))
        && (myRoll > opponentRoll ==> health == old(health) && opponent.health == old(opponent.health) - damage)
        && (myRoll == opponentRoll ==> health == old(health) && opponent.health == old(opponent.health))
      ensures opponent == this ==>
        health == old(health) - (if myRoll != opponentRoll then damage else 0)
    {
      if myRoll < opponentRoll {
        health := health - damage;
      } else if myRoll > opponentRoll {
        opponent.health := opponent.health - damage;
      }
    }

    /**
     * `duel(opponent)`: while both are above 50, each rolls and the lower roll
     * loses 1 health.  The source keeps rolling until the guard fails; here the
     * rolls come from `rolls`, and the duel is `Undecided` if they run out first.
     */
    method Duel(opponent: Character, rolls: seq<(Die, Die)>) returns (rounds: nat, outcome: Combat.Outcome)
      requires kind.Adventurer?
      modifies this`health, opponent`health
      ensures var f := Combat.Play(Combat.SimpleRules, Combat.Healths(old(health), old(opponent.health)), rolls, opponent == this);
        Combat.Healths(health, opponent.health) == f.final && rounds == f.rounds
      ensures outcome.Decided? <==> !(health > 50 && opponent.health > 50)
      ensures outcome.Undecided? ==> rounds == |rolls|
      ensures outcome.Decided? ==> (outcome.winner == Combat.Challenger <==> health > 50)
      ensures opponent != this && old(health) > 50 && old(opponent.health) > 50 && outcome.Decided? ==>
        (health == 50 && opponent.health > 50) || (opponent.health == 50 && health > 50)
      ensures opponent == this && outcome.Decided? ==> outcome.winner == Combat.Opponent
    {
      ghost var start := Combat.Healths(health, opponent.health);
      ghost var alias := opponent == this;
      var i := 0;
      while i < |rolls| && health > 50 && opponent.health > 50
        invariant i <= |rolls|
        invariant Combat.Play(Combat.SimpleRules, start, rolls, alias).final
               == Combat.Play(Combat.SimpleRules, Combat.Healths(health, opponent.health), rolls[i..], alias).final
        invariant Combat.Play(Combat.SimpleRules, start, rolls, alias).rounds
               == i + Combat.Play(Combat.SimpleRules, Combat.Healths(health, opponent.health), rolls[i..], alias).rounds
      {
        var myRoll := Roll(rolls[i].0);
        var opponentRoll := opponent.Roll(rolls[i].1);
        Strike(opponent, myRoll, opponentRoll, 1);
        assert rolls[i..][1..] == rolls[i + 1..];
        i := i + 1;
      }
      rounds := i;
      outcome := Combat.Judge(Combat.SimpleRules, Combat.Healths(health, opponent.health));
      if alias {
        Combat.SelfDuelFallsToOpponent(Combat.SimpleRules, start, rolls);
      } else if Combat.Fighting(Combat.SimpleRules, start) {
        Combat.DuelEndsWithOneLoser(Combat.SimpleRules, start, rolls);
      }
    }

    /**
     * `enhancedDuel(opponent)`: while both are alive, each rolls and the lower
     * roll loses 2 health; `Undecided` if the rolls run out first.
     */
    method EnhancedDuel(opponent: Character, rolls: seq<(Die, Die)>) returns (rounds: nat, outcome: Combat.Outcome)
      requires kind.Adventurer?
      modifies this`health, opponent`health
      ensures var f := Combat.Play(Combat.EnhancedRules, Combat.Healths(old(health), old(opponent.health)), rolls, opponent == this);
        Combat.Healths(health, opponent.health) == f.final && rounds == f.rounds
      ensures outcome.Decided? <==> !(IsAlive() && opponent.IsAlive())
      ensures outcome.Undecided? ==> rounds == |rolls|
      ensures outcome.Decided? ==> (outcome.winner == Combat.Challenger <==> IsAlive())
      ensures opponent != this && old(health) > 0 && old(opponent.health) > 0 && outcome.Decided? ==>
        (-1 <= health <= 0 && opponent.IsAlive()) || (-1 <= opponent.health <= 0 && IsAlive())
      ensures opponent == this && outcome.Decided? ==> outcome.winner == Combat.Opponent
    {
      ghost var start := Combat.Healths(health, opponent.health);
      ghost var alias := opponent == this;
      var i := 0;
      while i < |rolls| && IsAlive() && opponent.IsAlive()
        invariant i <= |rolls|
        invariant Combat.Play(Combat.EnhancedRules, start, rolls, alias).final
               == Combat.Play(Combat.EnhancedRules, Combat.Healths(health, opponent.health), rolls[i..], alias).final
        invariant Combat.Play(Combat.EnhancedRules, start, rolls, alias).rounds
               == i + Combat.Play(Combat.EnhancedRules, Combat.Healths(health, opponent.health), rolls[i..], alias).rounds
      {
        var myRoll := Roll(rolls[i].0);
        var opponentRoll := opponent.Roll(rolls[i].1);
        Strike(opponent, myRoll, opponentRoll, 2);
        assert rolls[i..][1..] == rolls[i + 1..];
        i := i + 1;
      }
      rounds := i;
      outcome := Combat.Judge(Combat.EnhancedRules, Combat.Healths(health, opponent.health));
      if alias {
        Combat.SelfDuelFallsToOpponent(Combat.EnhancedRules, start, rolls);
      } else if Combat.Fighting(Combat.EnhancedRules, start) {
        Combat.DuelEndsWithOneLoser(Combat.EnhancedRules, start, rolls);
      }
    }
  }

  /**
   * `new Adventurer(name, role)`: a character with the role, full health and
   * the two starting items, or the invalid-role error.  As in the source, the
   * items are added before the role is checked.
   */
  method NewAdventurer(name: string, role: string) returns (r: Result<Character, RoleError>)
    ensures r.Success? <==> IsRole(role)
    ensures r.Failure? ==> r.error == InvalidRole(role)
    ensures r.Success? ==>
      && fresh(r.value)
      && r.value.name == name && r.value.kind == Adventurer(role)
      && r.value.health == MAX_HEALTH && r.value.inventory == STARTING_ITEMS
  {
    var a := new Character(name, Adventurer(role));
    a.inventory := a.inventory + STARTING_ITEMS;
    if !IsRole(role) {
      return Failure(InvalidRole(role));
    }
    return Success(a);
  }

  /** `new Companion(name, type)`: a plain character plus its type tag. */
  method NewCompanion(name: string, companionType: string) returns (c: Character)
    ensures fresh(c)
    ensures c.name == name && c.kind == Companion(companionType)
    ensures c.health == MAX_HEALTH && c.inventory == []
  {
    c := new Character(name, Companion(companionType));
  }
}
