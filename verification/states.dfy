/** The engine's vocabulary: lifecycle phases (`PbrStates`), screens
    (`PbrGuis`), controller buttons (`WiimoteButton`), the expected cause of
    the next action prompt (`ActionCause`) and the cursor layout
    (`CursorOffsets`, `CursorPosBP`). The module defining the phases and
    screens is not part of this model; the phase order is the one the
    engine's comparisons and `state + 1` steps rely on. The button and
    cursor codes are kept abstract. */
module States {

  datatype Phase =
    | Init
    | WaitingForNew
    | CreatingSave1
    | CreatingSave2
    | EmptyingBp2
    | EmptyingBp1
    | PreparingBp1
    | PreparingBp2
    | PreparingStage
    | PreparingStart
    | WaitingForStart
    | SelectingOrder
    | MatchRunning
    | MatchEnded

  /** The position of a phase in the enumeration. */
  function Rank(p: Phase): nat
  {
    match p
    case Init => 0
    case WaitingForNew => 1
    case CreatingSave1 => 2
    case CreatingSave2 => 3
    case EmptyingBp2 => 4
    case EmptyingBp1 => 5
    case PreparingBp1 => 6
    case PreparingBp2 => 7
    case PreparingStage => 8
    case PreparingStart => 9
    case WaitingForStart => 10
    case SelectingOrder => 11
    case MatchRunning => 12
    case MatchEnded => 13
  }

  const LastRank: nat := 13

  predicate Before(a: Phase, b: Phase)
  {
    Rank(a) < Rank(b)
  }

  /** `state + 1`, on every phase but the last. */
  function Next(p: Phase): (r: Phase)
    requires p != MatchEnded
    ensures Rank(r) == Rank(p) + 1
  {
    match p
    case Init => WaitingForNew
    case WaitingForNew => CreatingSave1
    case CreatingSave1 => CreatingSave2
    case CreatingSave2 => EmptyingBp2
    case EmptyingBp2 => EmptyingBp1
    case EmptyingBp1 => PreparingBp1
    case PreparingBp1 => PreparingBp2
    case PreparingBp2 => PreparingStage
    case PreparingStage => PreparingStart
    case PreparingStart => WaitingForStart
    case WaitingForStart => SelectingOrder
    case SelectingOrder => MatchRunning
    case MatchRunning => MatchEnded
  }

  /** Distinct phases have distinct ranks, so comparing ranks is comparing
      phases. */
  lemma RankInjective(a: Phase, b: Phase)
    ensures Rank(a) == Rank(b) ==> a == b
    ensures Rank(a) <= LastRank
  {
  }

  /** The screens the engine reacts to; `Unrecognised` stands for every other
      value the classifier may report. */
  datatype Gui =
    | MenuMain
    | MenuBattleType
    | MenuBattlePass
    | MenuBattlePlayers
    | MenuBattleRemotes
    | MenuSave
    | MenuSaveConfirm
    | MenuSaveContinue
    | MenuSaveTyp2
    | StartMenu
    | StartOptions
    | StartOptionsSave
    | StartMode
    | StartSavefile
    | StartWiimoteInfo
    | BpsSelect
    | BpsSlots
    | BpsPkmnGrabbed
    | BpsBoxes
    | BpsPkmn
    | BpsPkmnConfirm
    | RulesStage
    | RulesSettings
    | RulesBattleStyle
    | RulesBpsConfirm
    | BpselectSelect
    | BpselectConfirm
    | OrderSelect
    | OrderConfirm
    | MatchFadeIn
    | MatchMoveSelect
    | MatchPkmnSelect
    | MatchIdle
    | MatchPopup
    | Unrecognised(code: int)

  /** Controller buttons; `NoButton` is the press of button code 0. */
  datatype Button = NoButton | Right | Down | Up | Left | Two | One | Minus

  /** `ActionCause`. */
  datatype Cause = Regular | Faint | OtherCause

  /** Cursor positions the engine selects; their numeric values are not part
      of this model. */
  datatype Layout = Layout(
    bps: int,
    bpNext: int,
    bpPrev: int,
    bpSlots: int,
    box: int,
    pkmn: int,
    remove: int,
    stage: int,
    rulesets: int,
    rulesConfirm: int,
    menuSave: int,
    menuSaveConfirm: int,
    menuBp: int,
    menuBattle: int)
}
