# Object-oriented adventure: a verified model of the character and combat core

This project models the character classes of a small role-playing-game
simulation written in JavaScript (`index.js`): a `Character` with a name, a
health counter that starts at `MAX_HEALTH = 100` and an inventory; an
`Adventurer` whose role must be one of Fighter, Healer or Wizard and who can
scout, duel and fight an enhanced duel; a `Companion` carrying a type tag; and
an `AdventurerFactory` that produces adventurers of one fixed role, keeps them
in an append-only list and finds them by position or by name.

Modules:

- `Wrappers` (`wrappers.dfy`): `Option` (absent/present, JavaScript's
  `undefined` result of a failed lookup) and `Result` (a thrown error).
- `Dice` (`dice.dfy`): `Die`, the faces 1..20, and `DieFace`, the source's
  `Math.floor(Math.random() * 20) + 1` on a sample in [0, 1).
- `Combat` (`combat.dfy`): both duel loops as one pure state machine over
  the two health counters, parameterised by `Rules` (floor 50 and damage 1
  for `duel`, floor 0 and damage 2 for `enhancedDuel`), with the lemmas about
  how a duel ends.
- `Adventure` (`adventure.dfy`): the class `Character` with `roll`, `heal`,
  `isAlive`, `scout`, one duel round (`Strike`), `duel` and `enhancedDuel`;
  adventurer and companion construction.
- `Party` (`party.dfy`): the class `AdventurerFactory`.

The three JavaScript classes become one Dafny class `Character` whose
constant `kind` says which class the object was built as
(`Plain`, `Adventurer(role)` or `Companion(companionType)`); the
adventurer-only methods require `kind.Adventurer?`, which is where the
source would otherwise fail for lack of the method.

Randomness is an input. Each roll is given as a `Die` face; a duel takes a
finite sequence of (challenger face, opponent face) pairs. The source loop
keeps rolling until its guard fails, and it need not terminate, because tied
rolls change nothing. The model plays rounds while the guard holds and rolls
remain. It returns `Decided(winner)` when the guard has failed, and
`Undecided` when the rolls ran out first, which stands for a source run that
would go on rolling. A source run that ends after n rounds is the model's run
on those n roll pairs. A run ends `Decided` once its rolls contain enough
decisive (untied) rounds; tied pairs alone never decide it, however many there
are (`Combat.UndecidedBound`, `Combat.TiesNeverDecide`). The final counters, the round count and the outcome are all determined
by `Combat.Play`. A duel of a character against itself (the same object as
opponent) is modelled too: both counters are then one field.

Three points about `index.js` that the model makes precise:

- `Companion` (index.js:121-126) has no companion field. The nesting of a
  companion inside a companion exists only in the object literal at
  index.js:8-16, which is not part of the classes.
- From two sides above the floor, the enhanced duel's loser ends at exactly
  -1 or 0, and the simple duel's loser at exactly 50
  (`Combat.DuelEndsWithOneLoser`).
- The adventurer constructor pushes the starting items (index.js:69) before
  it checks the role (index.js:72-74). The model keeps that order, but on an
  invalid role the object is never returned, so no caller can observe the
  pushed items.

## Model

| member | source | states |
|---|---|---|
| `Dice.DieFace` | index.js:54 | the source's face formula on a sample in [0, 1) gives a value in 1..20 |
| `Dice.DieFaceOnto` | index.js:54 | every face 1..20 is produced by some sample, so the `Die` input range is exactly the formula's range |
| `Adventure.IsRole` | index.js:72 | a role is accepted iff it is "Fighter", "Healer" or "Wizard" (the `ROLES` list of line 114) |
| `Adventure.Healed` | index.js:187 | healed health is `min(health + amount, 100)`: at most 100, at most `health + amount`, and equal to one of them |
| `Adventure.HealedTwice` | index.js:186-189 | two heals by `a` then `b >= 0` equal one heal by `a + b` |
| `Adventure.HealedNeverHurts` | index.js:186-189 | a non-negative heal never lowers a health that is within the cap |
| `Adventure.EnhancedGuardIsAlive` | index.js:192-200 | the enhanced duel's guard on the counters is exactly `isAlive()` of both sides |
| `Adventure.RoleError.Message` | index.js:73 | the thrown message is the role followed by " is not a valid role." |
| `Adventure.Character.IsAlive` | index.js:192-194 | `isAlive()` holds iff `health > 0`, the enhanced duel's floor |
| `Adventure.Character.constructor` | index.js:44-48 | a new character has the given name, health 100 and an empty inventory |
| `Adventure.Character.Roll` | index.js:53-57 | `roll(mod)` returns the die face plus `mod`, so a value in `[1 + mod, 20 + mod]`, and changes no field |
| `Adventure.Character.Heal` | index.js:186-189 | health becomes exactly `min(old health + amount, 100)`, hence at most 100; only `health` changes |
| `Adventure.Character.Scout` | index.js:79-82 | scouting rolls and changes no field |
| `Adventure.Character.Strike` | index.js:95-99 | in one round the lower roll loses `damage`, the other side is untouched, a tie changes nothing, and only the two `health` fields may change |
| `Adventure.Character.Duel` | index.js:86-112 | the final counters and round count are those of `Combat.Play` under the simple rules; the duel is decided iff one side is at or below 50; the challenger is declared winner iff its health is above 50; from two sides above 50 exactly one ends at 50 and the other above it; a self-duel is given to the opponent |
| `Adventure.Character.EnhancedDuel` | index.js:196-222 | the same under the enhanced rules: decided iff one side is not alive; challenger wins iff `IsAlive()`; from two living sides the loser ends at -1 or 0 and the other is alive |
| `Adventure.NewAdventurer` | index.js:66-75 | construction succeeds iff the role is in `ROLES`; on success the adventurer has the name, the role, health 100 and inventory `["bedroll", "50 gold coins"]`; otherwise it fails with `InvalidRole(role)` |
| `Adventure.NewCompanion` | index.js:121-126 | a companion has the name, the type tag, health 100 and an empty inventory |
| `Combat.Fighting` | index.js:90 | the loop guard; it fails iff one side is at or below the floor (50 here, 0 at line 200) |
| `Combat.Exchange` | index.js:95-99 | one round on the counters: a tie changes nothing; each counter is unchanged or loses exactly `damage`; between distinct sides only the lower roller loses and the total drops by `damage` on a decisive round; a self-duel moves both counters together, by exactly `damage` on an untied round |
| `Combat.Verdict` | index.js:107-111 | the challenger is named iff its health is above the floor, otherwise the if/else falls through to the opponent (also lines 217-221) |
| `Combat.Judge` | index.js:217-221 | the reported outcome is `Undecided` iff the guard still holds, and otherwise names the challenger iff it is above the floor |
| `Combat.Play` | index.js:90-104 | the loop plays at most one round per roll pair, stops only when the guard fails or the rolls run out, and plays no round from a state outside the guard |
| `Combat.PlayKeepsStanding` | index.js:90-99 | between two distinct fighters, the configurations "both above the floor" or "one above, one at most one blow below it" are preserved by the loop |
| `Combat.DuelEndsWithOneLoser` | index.js:90-111 | when a duel that starts with both above the floor ends, exactly one side is down within one blow of the floor, the other is above it, and the verdict names the one above |
| `Combat.UndecidedBound` | index.js:90-104 | a run between distinct sides that is still undecided used up all its rolls, and each side lost fewer than its margin above the floor divided by the damage, so enough decisive rounds always decide the duel |
| `Combat.TiesNeverDecide` | index.js:90-104 | a run on tied roll pairs only, of any length, leaves both counters unchanged, so a duel inside the guard stays undecided |
| `Combat.PlayTally` | index.js:95-99 | each side loses exactly `damage` times the number of rounds it lost; ties cost nothing; no one gains health |
| `Combat.OutrollingWins` | index.js:90-111 | a challenger who out-rolls the opponent every round, given enough rolls, ends untouched, with the opponent down, and is declared the winner |
| `Combat.SimpleDuelOutrolled` | index.js:86-112 | from 100/100 with the challenger always rolling higher, the simple duel ends after exactly 50 rounds at 100/50, won by the challenger |
| `Combat.EnhancedDuelOutrolled` | index.js:196-222 | in the same setting the enhanced duel ends after exactly 50 rounds at 100/0, won by the challenger |
| `Combat.SelfDuelFallsToOpponent` | index.js:107-111 | a character duelling itself loses both counters together, so the if/else always falls through to the opponent |
| `Party.FirstNamed` | index.js:150 | the position found is the first one holding that name; there is none iff no element has the name |
| `Party.FirstNamedAppend` | index.js:139-151 | appending keeps the answer for a name already present; otherwise the newcomer is found iff it has the name |
| `Party.AdventurerFactory.constructor` | index.js:134-137 | a new factory has the given role and no adventurers |
| `Party.AdventurerFactory.Generate` | index.js:139-143 | succeeds iff the factory's role is valid; on success appends exactly the new adventurer (name, factory role, health 100, starting items), leaves earlier elements unchanged, returns it, makes it findable at the new last index and by name unless an earlier one has that name; on failure the list is unchanged; the all-same-role invariant is preserved |
| `Party.AdventurerFactory.FindByIndex` | index.js:145-147 | present iff `0 <= index < length`, and then the element at that index |
| `Party.AdventurerFactory.FindByName` | index.js:149-151 | the first adventurer with that name; absent iff no adventurer has it |
| `Party.AdventurerFactory.LookupsHaveRole` | index.js:139-151 | in a factory whose elements all have its role, whatever either lookup finds has that role |

## Left out

- Console narration (every `console.log`, including the roll, heal and duel messages): output text, not logic.
- The distribution of `Math.random`: only the range of a roll is modelled, as the `Die` input. `DieFace` uses exact real arithmetic, not IEEE doubles.
- The introductory object literal (lines 4-36), with its nested companions and its non-returning `roll`: a stand-alone illustration, not part of the classes.
- The top-level demonstration script (lines 155-162 and 225-230): it only constructs objects and calls the modelled operations.
- Prototype augmentation: `heal`, `isAlive` and `enhancedDuel` are ordinary members of the class.
- JavaScript `Number` semantics: health, amounts and modifiers are unbounded integers. Non-integer, `NaN` or non-numeric arguments are not modelled, and neither are non-string roles or names.
- Dynamic typing: a duel's opponent is any `Character`, not any object with `health` and `roll`. A duel called on a non-adventurer is excluded by the precondition rather than modelled as a missing-method error.
- Construction of adventurers: the `Character` constructor is public, so a client can build a character of kind `Adventurer(role)` with an invalid role and an empty inventory, which the source cannot produce. Adventurer-kind characters are meant to come only from `NewAdventurer` or `AdventurerFactory.Generate`, and the model does not enforce this.
- Unbounded duels: a run is bounded by the length of its roll sequence, and an `Undecided` outcome marks a run the source would continue.
- Party.AdventurerFactory.Generate: the same-role invariant is stated as preserved (`old(Valid()) ==> Valid()`). It is not guaranteed outright, since outside code may push onto the list in the source.
