/**
 * The unit catalog and the unit record of backend/game/character.py.
 *
 * Each of the 21 unit kinds carries a display name, a priority (lower is
 * stronger in a plain comparison) and a special flag. A `Character` is one
 * kind bound to an owner, with its alive and revealed status.
 */
module Characters {

  /** The 21 kinds, in the declaration order of the source enum. */
  datatype CharacterType =
    | General5 | General4 | General3 | General2 | General1
    | Colonel | LtColonel | Major | Captain | FirstLt | SecondLt
    | MasterSgt | Sgt | Corporal
    | Bomb1 | Bomb2 | Engineer | Wukong1 | Wukong2 | Flag | MP

  /** The fourteen plain ranks, priorities 1 (GENERAL_5) to 14 (CORPORAL). */
  predicate IsRank(k: CharacterType) {
    !k.Bomb1? && !k.Bomb2? && !k.Engineer? && !k.Wukong1? && !k.Wukong2? && !k.Flag? && !k.MP?
  }

  predicate IsBomb(k: CharacterType) {
    k == Bomb1 || k == Bomb2
  }

  predicate IsWukong(k: CharacterType) {
    k == Wukong1 || k == Wukong2
  }

  /** The five generals a wukong defeats regardless of priority. */
  predicate IsTopGeneral(k: CharacterType) {
    k == General5 || k == General4 || k == General3 || k == General2 || k == General1
  }

  /** The priority each kind is declared with. */
  function Priority(k: CharacterType): (p: int)
    ensures IsRank(k) <==> 1 <= p <= 14
    ensures IsBomb(k) <==> p == 0
    ensures k == Engineer <==> p == 16
    ensures IsWukong(k) <==> p == 17
    ensures k == MP <==> p == 18
    ensures k == Flag <==> p == 19
    ensures IsTopGeneral(k) <==> 1 <= p <= 5
  {
    match k
    case General5 => 1
    case General4 => 2
    case General3 => 3
    case General2 => 4
    case General1 => 5
    case Colonel => 6
    case LtColonel => 7
    case Major => 8
    case Captain => 9
    case FirstLt => 10
    case SecondLt => 11
    case MasterSgt => 12
    case Sgt => 13
    case Corporal => 14
    case Bomb1 => 0
    case Bomb2 => 0
    case Engineer => 16
    case Wukong1 => 17
    case Wukong2 => 17
    case Flag => 19
    case MP => 18
  }

  /** The Korean display name each kind is declared with. */
  function DisplayName(k: CharacterType): string {
    match k
    case General5 => "원수"
    case General4 => "대장"
    case General3 => "중장"
    case General2 => "소장"
    case General1 => "준장"
    case Colonel => "대령"
    case LtColonel => "중령"
    case Major => "소령"
    case Captain => "대위"
    case FirstLt => "중위"
    case SecondLt => "소위"
    case MasterSgt => "상사"
    case Sgt => "중사"
    case Corporal => "하사"
    case Bomb1 => "폭탄1"
    case Bomb2 => "폭탄2"
    case Engineer => "공병"
    case Wukong1 => "손오공1"
    case Wukong2 => "손오공2"
    case Flag => "국기"
    case MP => "헌병"
  }

  /** The enum member's own name, which the board projection reports as the unit's type. */
  function TypeName(k: CharacterType): string {
    match k
    case General5 => "GENERAL_5"
    case General4 => "GENERAL_4"
    case General3 => "GENERAL_3"
    case General2 => "GENERAL_2"
    case General1 => "GENERAL_1"
    case Colonel => "COLONEL"
    case LtColonel => "LT_COLONEL"
    case Major => "MAJOR"
    case Captain => "CAPTAIN"
    case FirstLt => "FIRST_LT"
    case SecondLt => "SECOND_LT"
    case MasterSgt => "MASTER_SGT"
    case Sgt => "SGT"
    case Corporal => "CORPORAL"
    case Bomb1 => "BOMB_1"
    case Bomb2 => "BOMB_2"
    case Engineer => "ENGINEER"
    case Wukong1 => "WUKONG_1"
    case Wukong2 => "WUKONG_2"
    case Flag => "FLAG"
    case MP => "MP"
  }

  /** The special flag each kind is declared with. */
  function IsSpecialKind(k: CharacterType): (s: bool)
    ensures s <==> !IsRank(k)
  {
    match k
    case Bomb1 | Bomb2 | Engineer | Wukong1 | Wukong2 | Flag | MP => true
    case _ => false
  }

  /** A unit: one kind, its owner (0 for the AI, 1 for the human player), and its status. */
  datatype Character = Character(kind: CharacterType, playerId: int, isAlive: bool, isRevealed: bool)

  /** The unit a fresh `Character(kind, player_id)` starts as. */
  function NewCharacter(k: CharacterType, playerId: int): (c: Character)
    ensures c.kind == k && c.playerId == playerId
    ensures c.isAlive && !c.isRevealed
  {
    Character(k, playerId, true, false)
  }

  function Name(c: Character): string {
    DisplayName(c.kind)
  }

  function CharPriority(c: Character): int {
    Priority(c.kind)
  }

  /** Only the flag and the two bombs are fixed in place. */
  function CanMove(c: Character): (b: bool)
    ensures !b <==> c.kind in {Flag, Bomb1, Bomb2}
  {
    match c.kind
    case Flag | Bomb1 | Bomb2 => false
    case _ => true
  }

  /** Marks the unit as known to the opponent; nothing else about it changes. */
  function Reveal(c: Character): (r: Character)
    ensures r.isRevealed
    ensures r.kind == c.kind && r.playerId == c.playerId && r.isAlive == c.isAlive
  {
    c.(isRevealed := true)
  }

  /** The position of each kind in the team list `create_full_team` builds. */
  function TeamIndex(k: CharacterType): (i: nat)
    ensures i < 21
  {
    match k
    case General5 => 0
    case General4 => 1
    case General3 => 2
    case General2 => 3
    case General1 => 4
    case Colonel => 5
    case LtColonel => 6
    case Major => 7
    case Captain => 8
    case FirstLt => 9
    case SecondLt => 10
    case MasterSgt => 11
    case Sgt => 12
    case Corporal => 13
    case Bomb1 => 14
    case Bomb2 => 15
    case Engineer => 16
    case Wukong1 => 17
    case Wukong2 => 18
    case Flag => 19
    case MP => 20
  }

  /** The kind at each position of the team list; the inverse of `TeamIndex`. */
  function TeamKind(i: nat): (k: CharacterType)
    requires i < 21
    ensures TeamIndex(k) == i
  {
    [General5, General4, General3, General2, General1, Colonel, LtColonel, Major,
     Captain, FirstLt, SecondLt, MasterSgt, Sgt, Corporal,
     Bomb1, Bomb2, Engineer, Wukong1, Wukong2, Flag, MP][i]
  }

  /** `TeamKind` undoes `TeamIndex`: the two are inverse bijections between kinds and 0..20. */
  lemma TeamKindOfIndex(k: CharacterType)
    ensures TeamKind(TeamIndex(k)) == k
  {
  }

  /** The full 21-unit team of one player, one unit of every kind. */
  function CreateFullTeam(playerId: int): (team: seq<Character>)
    ensures |team| == 21
    ensures forall i :: 0 <= i < |team| ==>
      team[i].playerId == playerId && team[i].isAlive && !team[i].isRevealed
    ensures forall k: CharacterType :: team[TeamIndex(k)].kind == k
    ensures forall i, j :: 0 <= i < j < |team| ==> team[i].kind != team[j].kind
  {
    seq(21, i requires 0 <= i < 21 => NewCharacter(TeamKind(i), playerId))
  }

  /** Revealing twice is the same as revealing once. */
  lemma RevealIdempotent(c: Character)
    ensures Reveal(Reveal(c)) == Reveal(c)
  {
  }

  /** Name and priority are read from the kind alone. */
  lemma NameAndPriorityFollowKind(c1: Character, c2: Character)
    requires c1.kind == c2.kind
    ensures Name(c1) == Name(c2) && CharPriority(c1) == CharPriority(c2)
  {
  }

  /** The immovable kinds are exactly those with the extreme priorities 0 and 19. */
  lemma ImmovableIffExtremePriority(c: Character)
    ensures !CanMove(c) <==> (CharPriority(c) == 0 || CharPriority(c) == 19)
  {
  }

  /** A team holds exactly one flag, one MP, one engineer, both bombs and both wukongs. */
  lemma TeamComposition(playerId: int, k: CharacterType)
    ensures var team := CreateFullTeam(playerId);
      exists i :: 0 <= i < |team| && team[i].kind == k
    ensures var team := CreateFullTeam(playerId);
      forall i, j :: 0 <= i < |team| && 0 <= j < |team| && team[i].kind == k && team[j].kind == k ==> i == j
  {
    var team := CreateFullTeam(playerId);
    assert team[TeamIndex(k)].kind == k;
  }
}
