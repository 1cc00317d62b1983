/**
 * The battle resolver of backend/game/rules.py.
 *
 * `Resolve` maps the kinds of an attacker and a defender to survival and
 * reveal flags. The source reads only the participants' kinds and
 * priorities, so the model takes kinds. The cascade is: military police,
 * then the special rules (flag, engineer against bomb, bomb, wukong), then
 * a plain priority comparison.
 */
module Rules {
  import opened Optional
  import opened Characters

  datatype BattleResult = BattleResult(
    attackerSurvives: bool,
    defenderSurvives: bool,
    attackerRevealed: bool,
    defenderRevealed: bool)
  {
    predicate BothDie() {
      !attackerSurvives && !defenderSurvives
    }

    predicate AttackerWins() {
      attackerSurvives && !defenderSurvives
    }

    predicate DefenderWins() {
      !attackerSurvives && defenderSurvives
    }
  }

  /** A result built with the source's default reveal flags, which are both true. */
  function Outcome(attackerSurvives: bool, defenderSurvives: bool): BattleResult {
    BattleResult(attackerSurvives, defenderSurvives, true, true)
  }

  /** Plain comparison: the strictly lower priority survives; equal priorities kill both. */
  function ResolveGeneral(attacker: CharacterType, defender: CharacterType): (r: BattleResult)
    ensures r.attackerSurvives <==> Priority(attacker) < Priority(defender)
    ensures r.defenderSurvives <==> Priority(defender) < Priority(attacker)
    ensures r.attackerRevealed && r.defenderRevealed
  {
    if Priority(attacker) < Priority(defender) then Outcome(true, false)
    else if Priority(attacker) > Priority(defender) then Outcome(false, true)
    else Outcome(false, false)
  }

  /**
   * The special rules, tried in order; `None` hands the pair to the plain
   * comparison.
   */
  function ResolveSpecial(attacker: CharacterType, defender: CharacterType): (r: Option<BattleResult>)
    ensures defender == Flag ==> r == Some(Outcome(true, false))
    ensures attacker == Engineer && IsBomb(defender) ==> r == Some(Outcome(true, false))
    ensures IsBomb(attacker) && defender == Engineer ==> r == Some(Outcome(false, true))
    ensures IsBomb(attacker) && !IsBomb(defender) && defender != Engineer ==> r == Some(Outcome(true, false))
    ensures IsBomb(defender) && !IsBomb(attacker) && attacker != Engineer ==> r == Some(Outcome(false, true))
    ensures IsWukong(attacker) && IsTopGeneral(defender) ==> r == Some(Outcome(true, false))
    ensures IsTopGeneral(attacker) && IsWukong(defender) ==> r == Some(Outcome(false, true))
    ensures r.None? <==>
      defender != Flag && IsBomb(attacker) == IsBomb(defender)
      && !(IsWukong(attacker) && IsTopGeneral(defender))
      && !(IsTopGeneral(attacker) && IsWukong(defender))
  {
    if defender == Flag then Some(Outcome(true, false))
    else if attacker == Engineer && IsBomb(defender) then Some(Outcome(true, false))
    else if defender == Engineer && IsBomb(attacker) then Some(Outcome(false, true))
    else if IsBomb(attacker) && !(IsBomb(defender) || defender == Engineer) then Some(Outcome(true, false))
    else if IsBomb(defender) && !(IsBomb(attacker) || attacker == Engineer) then Some(Outcome(false, true))
    else if IsWukong(attacker) && IsTopGeneral(defender) then Some(Outcome(true, false))
    else if IsWukong(defender) && IsTopGeneral(attacker) then Some(Outcome(false, true))
    else None
  }

  /** The outcome of `attacker` moving onto `defender`. */
  function Resolve(attacker: CharacterType, defender: CharacterType): (r: BattleResult)
    // every outcome reveals both participants, and at most one of them survives
    ensures r.attackerRevealed && r.defenderRevealed
    ensures !(r.attackerSurvives && r.defenderSurvives)
    // with the military police on either side only priorities count
    ensures attacker == MP || defender == MP ==>
      (r.attackerSurvives <==> Priority(attacker) < Priority(defender)) &&
      (r.defenderSurvives <==> Priority(defender) < Priority(attacker))
    ensures attacker != MP && defender == Flag ==> r.AttackerWins()
    ensures attacker == Engineer && IsBomb(defender) ==> r.AttackerWins()
    ensures IsBomb(attacker) && defender == Engineer ==> r.DefenderWins()
    ensures IsBomb(attacker) && !IsBomb(defender) && defender != Engineer && defender != MP ==> r.AttackerWins()
    ensures IsBomb(defender) && !IsBomb(attacker) && attacker != Engineer && attacker != MP ==> r.DefenderWins()
    ensures IsWukong(attacker) && IsTopGeneral(defender) ==> r.AttackerWins()
    ensures IsTopGeneral(attacker) && IsWukong(defender) ==> r.DefenderWins()
    // two plain ranks, or any pair the special rules do not cover, compare priorities
    ensures attacker != MP && defender != MP && ResolveSpecial(attacker, defender).None? ==>
      (r.attackerSurvives <==> Priority(attacker) < Priority(defender)) &&
      (r.defenderSurvives <==> Priority(defender) < Priority(attacker))
  {
    if attacker == MP || defender == MP then ResolveGeneral(attacker, defender)
    else match ResolveSpecial(attacker, defender)
      case Some(result) => result
      case None => ResolveGeneral(attacker, defender)
  }

  /** Swaps the roles of the two participants in a result. */
  function Mirror(r: BattleResult): BattleResult {
    BattleResult(r.defenderSurvives, r.attackerSurvives, r.defenderRevealed, r.attackerRevealed)
  }

  /** The three named outcomes exclude one another. */
  lemma OutcomesExclusive(r: BattleResult)
    ensures !(r.BothDie() && r.AttackerWins())
    ensures !(r.BothDie() && r.DefenderWins())
    ensures !(r.AttackerWins() && r.DefenderWins())
  {
  }

  /** Every resolved battle has exactly one of the three named outcomes. */
  lemma ResolveHasOneOutcome(attacker: CharacterType, defender: CharacterType)
    ensures var r := Resolve(attacker, defender);
      (r.BothDie() || r.AttackerWins() || r.DefenderWins())
  {
  }

  /**
   * The resolver does not care who attacks: swapping the participants mirrors
   * the outcome, for every pair of kinds except flag against flag (the flag
   * rule looks only at the defender, and a flag cannot move to attack).
   */
  lemma {:induction false} ResolveSymmetric(attacker: CharacterType, defender: CharacterType)
    requires !(attacker == Flag && defender == Flag)
    ensures Resolve(defender, attacker) == Mirror(Resolve(attacker, defender))
  {
    if attacker == MP || defender == MP {
      GeneralSymmetric(attacker, defender);
    } else if attacker == Flag || defender == Flag {
      FlagSymmetric(attacker, defender);
    } else if IsBomb(attacker) || IsBomb(defender) {
      BombSymmetric(attacker, defender);
    } else {
      PlainSymmetric(attacker, defender);
    }
  }

  lemma PlainSymmetric(attacker: CharacterType, defender: CharacterType)
    requires attacker != MP && defender != MP && attacker != Flag && defender != Flag
    requires !IsBomb(attacker) && !IsBomb(defender)
    ensures Resolve(defender, attacker) == Mirror(Resolve(attacker, defender))
  {
    if IsWukong(attacker) && IsTopGeneral(defender) {
      WukongSymmetric(attacker, defender);
    } else if IsTopGeneral(attacker) && IsWukong(defender) {
      WukongSymmetric(defender, attacker);
    } else {
      RankSymmetric(attacker, defender);
    }
  }

  lemma WukongSymmetric(wukong: CharacterType, general: CharacterType)
    requires IsWukong(wukong) && IsTopGeneral(general)
    ensures Resolve(wukong, general).AttackerWins() && Resolve(general, wukong).DefenderWins()
    ensures Resolve(general, wukong) == Mirror(Resolve(wukong, general))
    ensures Resolve(wukong, general) == Mirror(Resolve(general, wukong))
  {
    assert Resolve(wukong, general) == Outcome(true, false);
  }

  lemma RankSymmetric(attacker: CharacterType, defender: CharacterType)
    requires attacker != MP && defender != MP && attacker != Flag && defender != Flag
    requires !IsBomb(attacker) && !IsBomb(defender)
    requires !(IsWukong(attacker) && IsTopGeneral(defender)) && !(IsTopGeneral(attacker) && IsWukong(defender))
    ensures Resolve(defender, attacker) == Mirror(Resolve(attacker, defender))
  {
    assert ResolveSpecial(attacker, defender).None? && ResolveSpecial(defender, attacker).None?;
  }

  lemma FlagSymmetric(attacker: CharacterType, defender: CharacterType)
    requires attacker != MP && defender != MP
    requires (attacker == Flag) != (defender == Flag)
    ensures defender == Flag ==> Resolve(attacker, defender).AttackerWins()
    ensures attacker == Flag ==> Resolve(defender, attacker).AttackerWins() && Resolve(attacker, defender).DefenderWins()
    ensures Resolve(defender, attacker) == Mirror(Resolve(attacker, defender))
  {
    if defender == Flag {
      assert Resolve(attacker, defender) == Outcome(true, false);
      assert Resolve(defender, attacker) == Outcome(false, true);
    } else {
      assert Resolve(attacker, defender) == Outcome(false, true);
      assert Resolve(defender, attacker) == Outcome(true, false);
    }
  }

  lemma BombSymmetric(attacker: CharacterType, defender: CharacterType)
    requires attacker != MP && defender != MP && attacker != Flag && defender != Flag
    requires IsBomb(attacker) || IsBomb(defender)
    ensures Resolve(defender, attacker) == Mirror(Resolve(attacker, defender))
  {
    if IsBomb(attacker) && IsBomb(defender) {
      assert ResolveSpecial(attacker, defender).None? && ResolveSpecial(defender, attacker).None?;
    } else if IsBomb(attacker) {
      LoneBombSymmetric(attacker, defender);
    } else {
      LoneBombSymmetric(defender, attacker);
    }
  }

  lemma LoneBombSymmetric(bomb: CharacterType, other: CharacterType)
    requires IsBomb(bomb) && !IsBomb(other) && other != MP && other != Flag
    ensures other == Engineer ==> Resolve(bomb, other).DefenderWins() && Resolve(other, bomb).AttackerWins()
    ensures other != Engineer ==> Resolve(bomb, other).AttackerWins() && Resolve(other, bomb).DefenderWins()
    ensures Resolve(other, bomb) == Mirror(Resolve(bomb, other))
    ensures Resolve(bomb, other) == Mirror(Resolve(other, bomb))
  {
    if other == Engineer {
      assert Resolve(bomb, other) == Outcome(false, true);
    } else {
      assert Resolve(bomb, other) == Outcome(true, false);
    }
  }

  /** The plain comparison is symmetric. */
  lemma GeneralSymmetric(attacker: CharacterType, defender: CharacterType)
    ensures ResolveGeneral(defender, attacker) == Mirror(ResolveGeneral(attacker, defender))
  {
  }

  /** Flag against flag is the one pair the resolver treats asymmetrically. */
  lemma FlagAgainstFlagAsymmetric()
    ensures Resolve(Flag, Flag) != Mirror(Resolve(Flag, Flag))
  {
  }

  /** A priority-5 unit attacking a priority-3 unit dies; the defender lives. */
  lemma WeakerAttackerDies()
    ensures Resolve(General1, General3).DefenderWins()
  {
  }

  /** Any unit other than the engineer and the military police dies attacking a bomb. */
  lemma BombDefends(attacker: CharacterType, bomb: CharacterType)
    requires IsBomb(bomb) && attacker != Engineer && attacker != MP && !IsBomb(attacker)
    ensures Resolve(attacker, bomb).DefenderWins()
  {
  }

  /** Two bombs meeting destroy each other. */
  lemma BombsCancel(attacker: CharacterType, defender: CharacterType)
    requires IsBomb(attacker) && IsBomb(defender)
    ensures Resolve(attacker, defender).BothDie()
  {
  }

  /** The military police exposes its opponent even when it loses by priority. */
  lemma PoliceRevealsEvenWhenLosing(defender: CharacterType)
    requires Priority(defender) < Priority(MP)
    ensures Resolve(MP, defender).DefenderWins() && Resolve(MP, defender).defenderRevealed
  {
  }

  /**
   * Equal priorities destroy both participants, whatever the kinds: no special
   * rule separates two kinds of equal priority, except a flag defending
   * against a flag.
   */
  lemma EqualPrioritiesBothDie(attacker: CharacterType, defender: CharacterType)
    requires Priority(attacker) == Priority(defender) && !(attacker == Flag && defender == Flag)
    ensures Resolve(attacker, defender).BothDie()
  {
    if attacker != MP && defender != MP {
      assert ResolveSpecial(attacker, defender).None?;
    }
  }
}
