/** The screen handler `_distinguishGui` of `pbrEngine/engine.py`. A new
    screen is recorded in `gui`, answered by the two chains of the handler,
    and reported with `on_gui` when the second chain takes it; a screen the
    second chain does not take is withdrawn again. The first chain answers
    the main and start menus, the second everything from the battle-pass
    menu to the match screens. */
module Screens {
  import opened Util
  import opened States
  import opened EngineState
  import MatchModel
  import OrderCodec
  import Actions
  import opened BattlePass

  /** What the constructor and `new` fixed for the match being prepared:
      the cursor layout, whether the announcer speaks, and the two
      avatars (battle-pass numbers). */
  datatype Settings = Settings(lay: Layout, announcer: bool, avatarBlue: int, avatarRed: int)

  /** The screens the first chain (lines 1059-1133) answers. */
  predicate InMenuChain(g: Gui)
  {
    match g
    case MenuMain | MenuBattleType | MenuBattlePass | MenuBattlePlayers | MenuBattleRemotes
       | MenuSave | MenuSaveConfirm | MenuSaveContinue | MenuSaveTyp2
       | StartMenu | StartOptions | StartOptionsSave | StartMode | StartSavefile | StartWiimoteInfo => true
    case _ => false
  }

  /** The screens the second chain (lines 1136-1295) takes in a phase; any
      other screen reaches its `else`. */
  predicate GateAccepts(p: Phase, g: Gui)
  {
    match g
    case BpsSelect | BpsSlots | BpsBoxes | BpsPkmn | BpsPkmnConfirm => Before(p, PreparingStart)
    case BpselectSelect | BpselectConfirm => !Before(p, PreparingStart)
    case MatchPopup => p == MatchRunning
    case BpsPkmnGrabbed | RulesStage | RulesSettings | RulesBattleStyle | RulesBpsConfirm
       | OrderSelect | OrderConfirm | MatchFadeIn | MatchMoveSelect | MatchPkmnSelect | MatchIdle => true
    case _ => false
  }

  /** The two chains take disjoint sets of screens, whatever the phase. */
  lemma ChainsDisjoint(p: Phase, g: Gui)
    ensures !(InMenuChain(g) && GateAccepts(p, g))
    ensures g.Unrecognised? ==> !InMenuChain(g) && !GateAccepts(p, g)
  {
  }

  // ---------------------------------------------------------------- menus

  /** The announcer byte written on the options screen, if any: the
      announcer is switched on exactly when the setting differs from "this
      is the first save run", and off when it differs from "this is the
      second". */
  function AnnouncerFlag(announcer: bool, p: Phase): Option<int>
  {
    if announcer != (p == CreatingSave1) then Some(1)
    else if announcer != (p == CreatingSave2) then Some(0)
    else None
  }

  /** The two save runs write opposite announcer bytes, so the two save
      files differ in exactly that setting; outside them the byte is only
      written to switch the announcer on. */
  lemma AnnouncerPerSave(announcer: bool, p: Phase)
    ensures AnnouncerFlag(announcer, CreatingSave1) == Some(if announcer then 0 else 1)
    ensures AnnouncerFlag(announcer, CreatingSave2) == Some(if announcer then 1 else 0)
    ensures p != CreatingSave1 && p != CreatingSave2 ==>
      AnnouncerFlag(announcer, p) == if announcer then Some(1) else None
  {
  }

  /** The input a menu screen is answered with. */
  datatype MenuInput =
    | SelectItem(index: int)
    | PressNow(button: Button)
    | After(frames: nat, job: Job)
    | Announce(flag: Option<int>)

  /** The first chain's answer to each of its screens. `saving` is "the
      announcer is not set yet and a save file is being created". */
  function MenuInputFor(p: Phase, f: Flags, s: Settings, g: Gui): MenuInput
    requires InMenuChain(g)
  {
    var lay := s.lay;
    var saving := !f.setAnnouncer && (p == CreatingSave1 || p == CreatingSave2);
    var early := Before(p, PreparingStage);
    match g
    case MenuMain =>
      SelectItem(if saving then lay.menuSave else if early then lay.menuBp else lay.menuBattle)
    case MenuBattleType => if early then PressNow(One) else SelectItem(2)
    case MenuBattlePass => if !early || saving then PressNow(One) else SelectItem(1)
    case MenuBattlePlayers => if early then PressNow(One) else SelectItem(2)
    case MenuBattleRemotes => if early then PressNow(One) else SelectItem(1)
    case MenuSave => SelectItem(1)
    case MenuSaveConfirm => SelectItem(lay.menuSaveConfirm + 1)
    case MenuSaveContinue => SelectItem(2)
    case MenuSaveTyp2 => After(60, PressJob(Two))
    case StartMenu => After(10, SelectAt(if saving then 3 else 1))
    case StartOptions => Announce(AnnouncerFlag(s.announcer, p))
    case _ => After(10, PressJob(Two))
  }

  /** Carries out a menu input. */
  function Answer(r: Run, input: MenuInput, now: int): (r': Run)
    ensures r'.e == r.e.(lastInput := r'.e.lastInput, lastInputFrame := r'.e.lastInputFrame)
    ensures |r'.out| > |r.out| && r'.out[..|r.out|] == r.out
    ensures forall k :: |r.out| <= k < |r'.out| ==> !r'.out[k].GuiChanged?
  {
    match input
    case SelectItem(i) => Select(r, i, now)
    case PressNow(b) => PressButton(r, b, now)
    case After(n, job) => Run(r.e, r.out + [Later(n, job)])
    case Announce(flag) =>
      var w := if flag.Some? then [WriteAnnouncer(flag.value)] else [];
      Run(r.e, r.out + w + [Later(10, PressJob(One))])
  }

  /** The first chain: answers the screen; the battle-pass menu resets the
      page flag when it enters the passes, and the options screen marks
      the announcer as set. */
  function MenuScreen(r: Run, f: Flags, s: Settings, g: Gui, now: int): (x: Reaction)
    requires InMenuChain(g)
    ensures x.err.None?
    ensures x.flags == f.(setAnnouncer := f.setAnnouncer || g == StartOptions)
    ensures x.run.e == r.e.(lastInput := x.run.e.lastInput, lastInputFrame := x.run.e.lastInputFrame,
      bpPage2 := x.run.e.bpPage2)
    ensures |x.run.out| > |r.out| && x.run.out[..|r.out|] == r.out
    ensures forall k :: |r.out| <= k < |x.run.out| ==> !x.run.out[k].GuiChanged?
  {
    var input := MenuInputFor(r.e.phase, f, s, g);
    var a := Answer(r, input, now);
    var e := if g == MenuBattlePass && input.SelectItem? then a.e.(bpPage2 := false) else a.e;
    Reaction(Run(e, a.out), if g == StartOptions then f.(setAnnouncer := true) else f, None)
  }

  // ------------------------------------------------------------ setup screens

  /** The battle-pass menu screens of the second chain (lines 1136-1175). */
  function SetupScreen(r: Run, f: Flags, lay: Layout, g: Gui, now: int): (x: Reaction)
    requires g in {BpsSelect, BpsSlots, BpsPkmnGrabbed, BpsBoxes, BpsPkmn, BpsPkmnConfirm}
    ensures x.run.e.gui == r.e.gui && x.run.e.m == r.e.m
    ensures g != BpsSlots ==> x.run.e.phase == r.e.phase
    ensures x.err.Some? ==> g in {BpsBoxes, BpsPkmn}
    ensures g == BpsSlots && Before(r.e.phase, CreatingSave2) ==>
      x.run.out == r.out + [Press(One)] && x.run.e.phase == r.e.phase
    ensures g == BpsSlots && !Before(r.e.phase, CreatingSave2) && f.enteredBp ==> x == Reaction(r, f, None)
    ensures g == BpsPkmnConfirm ==> x == Reaction(r, f, None)
  {
    match g
    case BpsSelect => Reaction(Run(r.e, r.out + [OnCursor(lay.bps, BpsSelectJob)]), f, None)
    case BpsSlots =>
      if Before(r.e.phase, CreatingSave2) then Reaction(PressButton(r, One, now), f, None)
      else if !f.enteredBp then DistinguishBpSlots(r, f, lay, now)
      else Reaction(r, f, None)
    case BpsPkmnGrabbed => Reaction(Select(r, lay.remove, now), f, None)
    case BpsBoxes => BoxesScreen(r, f, lay, now)
    case BpsPkmn => PkmnScreen(r, f, lay, now)
    case BpsPkmnConfirm => Reaction(r, f, None)
  }

  /** `RULES_SETTINGS`: the first visit chooses the rule set (and arms the
      cursor jobs confirming it), the second the battle style, the third
      closes the screen and starts the cycle over. */
  function SettingsScreen(r: Run, f: Flags, lay: Layout, now: int): (x: Reaction)
    ensures x.err.None?
    ensures x.flags == f.(selectedTppRules := x.flags.selectedTppRules,
      selectedSingleBattle := x.flags.selectedSingleBattle)
    ensures !f.selectedTppRules ==> x.flags.selectedTppRules && x.flags.selectedSingleBattle == f.selectedSingleBattle
    ensures f.selectedTppRules && !f.selectedSingleBattle ==> x.flags.selectedTppRules && x.flags.selectedSingleBattle
    ensures f.selectedTppRules && f.selectedSingleBattle ==> !x.flags.selectedTppRules && !x.flags.selectedSingleBattle
    ensures |x.run.out| >= |r.out| && Selections(x.run.out[|r.out|..]) ==
      if !f.selectedTppRules then [1] else if !f.selectedSingleBattle then [2] else [3]
    ensures !f.selectedTppRules ==>
      && |x.run.out| >= |r.out| + 2
      && x.run.out[|r.out|] == OnCursor(lay.rulesets, SelectAt(lay.rulesets + 1))
      && x.run.out[|r.out| + 1] == OnCursor(lay.rulesConfirm, PressJob(Two))
    ensures f.selectedTppRules ==> forall k :: |r.out| <= k < |x.run.out| ==> !x.run.out[k].OnCursor?
  {
    if !f.selectedTppRules then
      var armed := Run(r.e, r.out + [OnCursor(lay.rulesets, SelectAt(lay.rulesets + 1)),
                                     OnCursor(lay.rulesConfirm, PressJob(Two))]);
      var s := Select(armed, 1, now);
      SelectionsOf(r.out, [OnCursor(lay.rulesets, SelectAt(lay.rulesets + 1)),
                           OnCursor(lay.rulesConfirm, PressJob(Two)), SetCursor(1), Press(Two)], s.out);
      Reaction(s, f.(selectedTppRules := true), None)
    else if !f.selectedSingleBattle then
      var s := Select(r, 2, now);
      SelectionsOf(r.out, [SetCursor(2), Press(Two)], s.out);
      Reaction(s, f.(selectedSingleBattle := true), None)
    else
      var s := Select(r, 3, now);
      SelectionsOf(r.out, [SetCursor(3), Press(Two)], s.out);
      Reaction(s, f.(selectedSingleBattle := false, selectedTppRules := false), None)
  }

  /** The selections of what was appended to a trace. */
  lemma SelectionsOf(pre: seq<Out>, added: seq<Out>, out: seq<Out>)
    requires out == pre + added
    requires |added| >= 2 && added[|added| - 2].SetCursor? && added[|added| - 1] == Press(Two)
    requires forall k :: 0 <= k < |added| - 2 ==> added[k].OnCursor?
    ensures Selections(out[|pre|..]) == [added[|added| - 2].pos]
  {
    assert out[|pre|..] == added;
    SelectionsSkip(added);
  }

  lemma {:induction false} SelectionsSkip(added: seq<Out>)
    requires |added| >= 2 && added[|added| - 2].SetCursor? && added[|added| - 1] == Press(Two)
    requires forall k :: 0 <= k < |added| - 2 ==> added[k].OnCursor?
    ensures Selections(added) == [added[|added| - 2].pos]
    decreases |added|
  {
    if |added| == 2 {
      assert added[1..] == [Press(Two)];
      assert added[1..][1..] == [];
      assert Selections(added[1..]) == [];
    } else {
      SelectionsSkip(added[1..]);
    }
  }

  /** Three visits of the settings screen select items 1, 2 and 3 and
      leave both flags as they were at the start of the cycle. */
  lemma RulesSettingsCycle(r: Run, f: Flags, lay: Layout, t1: int, t2: int, t3: int)
    requires !f.selectedTppRules && !f.selectedSingleBattle
    ensures var x1 := SettingsScreen(r, f, lay, t1);
      var x2 := SettingsScreen(x1.run, x1.flags, lay, t2);
      var x3 := SettingsScreen(x2.run, x2.flags, lay, t3);
      && Selections(x1.run.out[|r.out|..]) == [1]
      && Selections(x2.run.out[|x1.run.out|..]) == [2]
      && Selections(x3.run.out[|x2.run.out|..]) == [3]
      && x3.flags == f
  {
  }

  /** `BPSELECT_SELECT`: the pass menu starts on page one and the passes
      are chosen alternately, blue's avatar first. */
  function ChooseAvatar(r: Run, f: Flags, s: Settings): (x: Reaction)
    ensures x.err.None? && x.run.e == r.e.(bpPage2 := false)
    ensures x.flags == f.(blueSelectedBp := !f.blueSelectedBp)
    ensures x.run.out == r.out + [OnCursor(s.lay.bps, SelectBpJob(if f.blueSelectedBp then s.avatarRed else s.avatarBlue))]
  {
    var num := if f.blueSelectedBp then s.avatarRed else s.avatarBlue;
    Reaction(Run(r.e.(bpPage2 := false), r.out + [OnCursor(s.lay.bps, SelectBpJob(num))]),
             f.(blueSelectedBp := !f.blueSelectedBp), None)
  }

  /** Two visits choose blue's pass, then red's, and leave the flag as it
      was. */
  lemma AvatarsAlternate(r: Run, f: Flags, s: Settings)
    requires !f.blueSelectedBp
    ensures var x1 := ChooseAvatar(r, f, s);
      var x2 := ChooseAvatar(x1.run, x1.flags, s);
      && x2.run.out == r.out + [OnCursor(s.lay.bps, SelectBpJob(s.avatarBlue)),
                                OnCursor(s.lay.bps, SelectBpJob(s.avatarRed))]
      && x2.flags == f
  {
  }

  /** The rules menu and the pass selection (lines 1178-1229). The
      Pokémon injection before the intro is skipped is not part of this
      model. */
  function RulesScreen(r: Run, f: Flags, s: Settings, g: Gui, now: int): (x: Reaction)
    requires g in {RulesStage, RulesSettings, RulesBattleStyle, RulesBpsConfirm, BpselectSelect, BpselectConfirm}
    ensures x.err.None? && x.run.e.gui == r.e.gui && x.run.e.m == r.e.m
    ensures x.run.e.phase == if g == RulesStage && !Before(r.e.phase, PreparingStage) then PreparingStart else r.e.phase
    ensures g == RulesStage && Before(r.e.phase, PreparingStage) ==> x.run.out == r.out + [Press(One)]
    ensures g == RulesBpsConfirm ==> x.run.out == r.out + [Press(Two), Spawn(SkipIntroJob)]
  {
    match g
    case RulesStage =>
      if Before(r.e.phase, PreparingStage) then Reaction(PressButton(r, One, now), f, None)
      else
        var c := Select(Run(r.e, r.out + [WriteColosseum]), s.lay.stage, now);
        Reaction(SetState(c, PreparingStart), f, None)
    case RulesSettings => SettingsScreen(r, f, s.lay, now)
    case RulesBattleStyle => Reaction(Select(r, 1, now), f, None)
    case RulesBpsConfirm =>
      var p := PressButton(r, Two, now);
      Reaction(Run(p.e, p.out + [Spawn(SkipIntroJob)]), f, None)
    case BpselectSelect => ChooseAvatar(r, f, s)
    case BpselectConfirm => Reaction(PressButton(r, Two, now), f, None)
  }

  /** The stage screen moves the phase to PREPARING_START once stage
      preparation has begun, and only then. */
  lemma StageStartsPreparation(r: Run, f: Flags, s: Settings, now: int)
    ensures var x := RulesScreen(r, f, s, RulesStage, now);
      (x.run.e.phase == PreparingStart && x.run.e.phase != r.e.phase) <==>
        !Before(r.e.phase, PreparingStage) && r.e.phase != PreparingStart
  {
  }

  // ----------------------------------------------------------- order screens

  /** `_initOrderSelection`: with the start signal the order is chosen at
      once; without it the game pauses until `start` is called. */
  function InitOrderSelection(r: Run): (r': Run)
    ensures r'.e == r.e.(phase := r'.e.phase)
    ensures r.e.startsignal ==> r' == SetState(r, SelectingOrder)
    ensures !r.e.startsignal ==> r' == SetState(Run(r.e, r.out + [Paused]), WaitingForStart)
  {
    if r.e.startsignal then SetState(r, SelectingOrder)
    else SetState(Run(r.e, r.out + [Paused]), WaitingForStart)
  }

  /** `ORDER_SELECT`: starts the order selection if that has not happened
      yet, then presses Right. */
  function SelectOrder(r: Run, now: int): (r': Run)
    ensures r'.e.phase == if !Before(r.e.phase, WaitingForStart) then r.e.phase
      else if r.e.startsignal then SelectingOrder else WaitingForStart
    ensures r'.e.gui == r.e.gui && r'.e.m == r.e.m
    ensures r'.out != [] && r'.out[|r'.out| - 1] == Press(Right)
  {
    var r1 := if Before(r.e.phase, WaitingForStart) then InitOrderSelection(r) else r;
    PressButton(r1, Right, now)
  }

  /** Writes a side's order words, `orderToInts` of its order. The order
      of a valid match is a permutation of `1..n`, so the words fit
      exactly when the roster has at most six members; otherwise the
      table lookup `vals[v-1]` fails. */
  function WriteOrderOf(r: Run, side: Side, now: int): (x: Result<Run, ScreenError>)
    ensures x.Ok? <==> OrderCodec.Entries(r.e.m.TeamOf(side).order)
    ensures x.Ok? ==> x.value.e == r.e.(lastInput := Two, lastInputFrame := now)
    ensures x.Ok? ==> var w := OrderCodec.OrderToInts(r.e.m.TeamOf(side).order);
      x.value.out == r.out + [WriteOrder(side, w.0, w.1), Press(Two)]
  {
    var order := r.e.m.TeamOf(side).order;
    if !OrderCodec.Entries(order) then Err(OrderTooLong)
    else
      var w := OrderCodec.OrderToInts(order);
      Ok(PressButton(Run(r.e, r.out + [WriteOrder(side, w.0, w.1)]), Two, now))
  }

  /** `ORDER_CONFIRM`: the first confirmation applies both orders to the
      rosters and writes blue's order, the second writes red's and starts
      the match (`_initMatch`; its speed, volume and blur effects are not
      part of this model). */
  function ConfirmOrder(r: Run, f: Flags, now: int): (x: Reaction)
    requires MatchModel.Valid(r.e.m)
    ensures x.flags == f && x.run.e.gui == r.e.gui
    ensures x.run.e.blueChoseOrder == !r.e.blueChoseOrder
    ensures x.run.e.m == if r.e.blueChoseOrder then r.e.m else MatchModel.ApplyOrder(r.e.m)
    ensures x.err.Some? <==> !OrderCodec.Entries(r.e.m.TeamOf(if r.e.blueChoseOrder then Red else Blue).order)
  {
    if r.e.blueChoseOrder then
      var e := r.e.(blueChoseOrder := false);
      match WriteOrderOf(Run(e, r.out), Red, now)
      case Err(err) => Reaction(Run(e, r.out), f, Some(err))
      case Ok(w) => Reaction(SetState(w, MatchRunning), f, None)
    else
      var e := r.e.(m := MatchModel.ApplyOrder(r.e.m), blueChoseOrder := true);
      match WriteOrderOf(Run(e, r.out), Blue, now)
      case Err(err) => Reaction(Run(e, r.out), f, Some(err))
      case Ok(w) => Reaction(w, f, None)
  }

  /** Applying the orders leaves the orders themselves alone. */
  lemma ApplyOrderKeepsOrders(m: MatchModel.Match)
    requires MatchModel.Valid(m)
    ensures MatchModel.ApplyOrder(m).blue.order == m.blue.order
    ensures MatchModel.ApplyOrder(m).red.order == m.red.order
  {
    assert MatchModel.ApplyOrder(m).TeamOf(Blue).order == m.TeamOf(Blue).order;
    assert MatchModel.ApplyOrder(m).TeamOf(Red).order == m.TeamOf(Red).order;
  }

  /** The first confirmation: rosters reordered, blue's words written. */
  lemma ConfirmBlue(r: Run, f: Flags, now: int)
    requires MatchModel.Valid(r.e.m) && !r.e.blueChoseOrder && OrderCodec.Entries(r.e.m.blue.order)
    ensures var x := ConfirmOrder(r, f, now);
      var w := OrderCodec.OrderToInts(r.e.m.blue.order);
      && x.err.None? && x.run.e.blueChoseOrder && x.run.e.phase == r.e.phase
      && x.run.e.m == MatchModel.ApplyOrder(r.e.m) && MatchModel.Valid(x.run.e.m)
      && x.run.e.m.red.order == r.e.m.red.order
      && x.run.out == r.out + [WriteOrder(Blue, w.0, w.1), Press(Two)]
  {
    ApplyOrderKeepsOrders(r.e.m);
  }

  /** The second confirmation: red's words written, the match started. */
  lemma ConfirmRed(r: Run, f: Flags, now: int)
    requires MatchModel.Valid(r.e.m) && r.e.blueChoseOrder && OrderCodec.Entries(r.e.m.red.order)
    ensures var x := ConfirmOrder(r, f, now);
      var w := OrderCodec.OrderToInts(r.e.m.red.order);
      && x.err.None? && !x.run.e.blueChoseOrder && x.run.e.phase == MatchRunning && x.run.e.m == r.e.m
      && x.run.out == r.out + [WriteOrder(Red, w.0, w.1), Press(Two)] + Started(r.e.phase)
  {
  }

  /** The state event `_initMatch` fires, if the phase changes. */
  function Started(p: Phase): seq<Out>
  {
    if p == MatchRunning then [] else [StateChanged(MatchRunning)]
  }

  /** In a valid match the order words fit exactly when the roster has at
      most six members. */
  lemma OrderFits(t: MatchModel.Team)
    requires MatchModel.ValidTeam(t)
    ensures OrderCodec.Entries(t.order) <==> |t.pkmn| <= 6
  {
  }

  /** The order-confirmation screen seen twice in a row. */
  function ConfirmTwice(r: Run, f: Flags, now: int, later: int): (x: Reaction)
    requires MatchModel.Valid(r.e.m)
  {
    var x1 := ConfirmOrder(r, f, now);
    if x1.err.Some? then x1 else ConfirmOrder(x1.run, x1.flags, later)
  }

  /** The two confirmations of a match with rosters of at most six: blue's
      words are written first and red's second, each reads back as that
      side's order, and the match is running afterwards. */
  lemma OrdersWrittenBlueThenRed(r: Run, f: Flags, now: int, later: int)
    requires MatchModel.Valid(r.e.m) && !r.e.blueChoseOrder
    requires OrderCodec.Entries(r.e.m.blue.order) && OrderCodec.Entries(r.e.m.red.order)
    ensures var x := ConfirmTwice(r, f, now, later);
      var wb := OrderCodec.OrderToInts(r.e.m.blue.order);
      var wr := OrderCodec.OrderToInts(r.e.m.red.order);
      && x.err.None?
      && x.run.out == r.out + [WriteOrder(Blue, wb.0, wb.1), Press(Two), WriteOrder(Red, wr.0, wr.1), Press(Two)]
         + Started(r.e.phase)
      && x.run.e.phase == MatchRunning && !x.run.e.blueChoseOrder
      && x.run.e.m == MatchModel.ApplyOrder(r.e.m)
  {
    var m := r.e.m;
    ConfirmBlue(r, f, now);
    var x1 := ConfirmOrder(r, f, now);
    SecondConfirm(x1, m.red.order, r.e.phase, r.out, OrderCodec.OrderToInts(m.blue.order), later);
  }

  /** A valid roster's order words read back as its order. */
  lemma OrderReadsBack(t: MatchModel.Team)
    requires MatchModel.ValidTeam(t) && OrderCodec.Entries(t.order)
    ensures var w := OrderCodec.OrderToInts(t.order);
      OrderCodec.IntsToOrder(w.0, w.1, |t.pkmn|) == t.order
  {
    OrderCodec.RoundTrip(t.order);
  }

  /** The second step of `OrdersWrittenBlueThenRed`, with the first
      confirmation's result taken as given. */
  lemma SecondConfirm(x1: Reaction, order: seq<int>, p: Phase, pre: seq<Out>, blue: (int, int), later: int)
    requires MatchModel.Valid(x1.run.e.m) && x1.run.e.blueChoseOrder && x1.err.None?
    requires x1.run.e.m.red.order == order && OrderCodec.Entries(order) && x1.run.e.phase == p
    requires x1.run.out == pre + [WriteOrder(Blue, blue.0, blue.1), Press(Two)]
    ensures var x2 := ConfirmOrder(x1.run, x1.flags, later);
      var w := OrderCodec.OrderToInts(order);
      && x2.err.None? && !x2.run.e.blueChoseOrder && x2.run.e.phase == MatchRunning && x2.run.e.m == x1.run.e.m
      && x2.run.out == pre + [WriteOrder(Blue, blue.0, blue.1), Press(Two), WriteOrder(Red, w.0, w.1), Press(Two)]
         + Started(p)
  {
    ConfirmRed(x1.run, x1.flags, later);
  }

  // ----------------------------------------------------------- match screens

  /** The match screens (lines 1261-1295). The camera writes on fade-in and
      move selection are floating-point and not part of this model. */
  function MatchScreen(r: Run, f: Flags, g: Gui, cb: Actions.Callback, pick: Actions.Chooser,
                       fuel: nat, now: int): (x: Reaction)
    requires g in {MatchFadeIn, MatchMoveSelect, MatchPkmnSelect, MatchIdle, MatchPopup}
    requires |r.e.movesBlocked| == 4
    ensures x.flags == f && x.run.e.gui == r.e.gui
    ensures g != MatchMoveSelect ==> x.err.None? && x.run.e == r.e.(lastInput := x.run.e.lastInput,
      lastInputFrame := x.run.e.lastInputFrame)
    ensures g == MatchFadeIn || g == MatchIdle ==> x == Reaction(r, f, None)
    ensures g == MatchPkmnSelect ==> x.run.out == r.out + (if r.e.tryingToSwitch then [] else [Spawn(NextPkmnJob)])
    ensures g == MatchPopup ==> x.run.out == r.out + [Press(Two)]
  {
    match g
    case MatchMoveSelect => MoveSelectPhase(r, f, cb, pick, fuel, now); MoveSelect(r, f, cb, pick, fuel, now)
    case MatchPkmnSelect =>
      if r.e.tryingToSwitch then Reaction(r, f, None)
      else Reaction(Run(r.e, r.out + [Spawn(NextPkmnJob)]), f, None)
    case MatchPopup => Reaction(PressButton(r, Two, now), f, None)
    case _ => Reaction(r, f, None)
  }

  /** `MATCH_MOVE_SELECT`: the match is running; the attack text is
      invalidated, the random seed replaced, and `_nextMove` run. */
  function MoveSelect(r: Run, f: Flags, cb: Actions.Callback, pick: Actions.Chooser,
                      fuel: nat, now: int): (x: Reaction)
    requires |r.e.movesBlocked| == 4
    ensures x.flags == f
  {
    var s := SetState(r, MatchRunning);
    var h := Actions.NextMove(Run(s.e, s.out + [ClearAttackText, NewRngSeed]), cb, pick, fuel, now);
    Reaction(h.run, f, if h.err.Some? then Some(ActionFailed(h.err.value)) else None)
  }

  /** The move-selection screen keeps the screen recorded and leaves the
      match running, unless the match was cancelled, which ends it. */
  lemma MoveSelectPhase(r: Run, f: Flags, cb: Actions.Callback, pick: Actions.Chooser, fuel: nat, now: int)
    requires |r.e.movesBlocked| == 4
    ensures var x := MoveSelect(r, f, cb, pick, fuel, now);
      && x.run.e.gui == r.e.gui
      && x.run.e.phase == if r.e.matchCancelled then MatchEnded else MatchRunning
  {
    var s := SetState(r, MatchRunning);
    var r2 := Run(s.e, s.out + [ClearAttackText, NewRngSeed]);
    var r3 := PressButton(r2, NoButton, now);
    if !r3.e.matchCancelled {
      var e := Actions.Prepared(r3.e);
      var switch := Actions.SwitchPossible(r3.e);
      var d := Actions.GetAction(Run(e, r3.out), true, switch, cb, pick, fuel);
      var q := Actions.AskFor(e, true, switch);
      var r4 := Actions.Settle(Run(e, r3.out), q, d);
      assert r4.e.gui == r.e.gui && r4.e.phase == MatchRunning;
      var h := Actions.Carry(r4, d.result, now);
      assert h.run.e.gui == r.e.gui && h.run.e.phase == MatchRunning;
    }
  }

  // ------------------------------------------------------------ the handler

  /** The second chain: the handler of a screen it takes. */
  function GateScreen(r: Run, f: Flags, s: Settings, g: Gui, cb: Actions.Callback, pick: Actions.Chooser,
                      fuel: nat, now: int): (x: Reaction)
    requires GateAccepts(r.e.phase, g) && |r.e.movesBlocked| == 4 && MatchModel.Valid(r.e.m)
    ensures x.run.e.gui == r.e.gui
    ensures g != OrderConfirm && g != MatchMoveSelect ==> x.run.e.m == r.e.m
    ensures x.err.Some? ==> g in {BpsBoxes, BpsPkmn, OrderConfirm, MatchMoveSelect}
  {
    if g in {BpsSelect, BpsSlots, BpsPkmnGrabbed, BpsBoxes, BpsPkmn, BpsPkmnConfirm} then
      SetupScreen(r, f, s.lay, g, now)
    else if g in {RulesStage, RulesSettings, RulesBattleStyle, RulesBpsConfirm, BpselectSelect, BpselectConfirm} then
      RulesScreen(r, f, s, g, now)
    else if g == OrderSelect then Reaction(SelectOrder(r, now), f, None)
    else if g == OrderConfirm then ConfirmOrder(r, f, now)
    else MatchScreen(r, f, g, cb, pick, fuel, now)
  }

  /** `_distinguishGui(gui)` as written: the first chain answers a menu
      screen, and the second chain, which begins with a fresh `if` at line
      1136, then sends that screen to its `else` and withdraws it. An
      exception inside a handler leaves the new screen recorded but
      unreported. */
  function DistinguishGui(r: Run, f: Flags, s: Settings, g: Option<Gui>, cb: Actions.Callback,
                          pick: Actions.Chooser, fuel: nat, now: int): (x: Reaction)
    requires |r.e.movesBlocked| == 4 && MatchModel.Valid(r.e.m)
    ensures g.None? ==> x == Reaction(r, f, None)
  {
    match g
    case None => Reaction(r, f, None)
    case Some(gui) =>
      var r1 := Run(r.e.(gui := gui), r.out);
      var a := if InMenuChain(gui) then MenuScreen(r1, f, s, gui, now) else Reaction(r1, f, None);
      Conclude(r.e.gui, a, s, gui, cb, pick, fuel, now)
  }

  /** The second chain after the first: its handler and `on_gui`, or the
      old screen put back. */
  function Conclude(backup: Gui, a: Reaction, s: Settings, gui: Gui, cb: Actions.Callback,
                    pick: Actions.Chooser, fuel: nat, now: int): (x: Reaction)
    requires |a.run.e.movesBlocked| == 4 && MatchModel.Valid(a.run.e.m)
  {
    if !GateAccepts(a.run.e.phase, gui) then Reaction(Run(a.run.e.(gui := backup), a.run.out), a.flags, None)
    else
      var b := GateScreen(a.run, a.flags, s, gui, cb, pick, fuel, now);
      if b.err.Some? then b else Reaction(Run(b.run.e, b.run.out + [GuiChanged(gui)]), b.flags, None)
  }

  /** A screen neither chain takes in the current phase changes nothing:
      the screen is put back and nothing is output. */
  lemma RejectedChangesNothing(r: Run, f: Flags, s: Settings, gui: Gui, cb: Actions.Callback,
                               pick: Actions.Chooser, fuel: nat, now: int)
    requires |r.e.movesBlocked| == 4 && MatchModel.Valid(r.e.m)
    requires !InMenuChain(gui) && !GateAccepts(r.e.phase, gui)
    ensures DistinguishGui(r, f, s, Some(gui), cb, pick, fuel, now) == Reaction(r, f, None)
  {
  }

  /** A screen the second chain takes is recorded, and unless its handler
      failed, it is reported with `on_gui` as the last output. */
  lemma AcceptedReported(r: Run, f: Flags, s: Settings, gui: Gui, cb: Actions.Callback,
                         pick: Actions.Chooser, fuel: nat, now: int)
    requires |r.e.movesBlocked| == 4 && MatchModel.Valid(r.e.m)
    requires GateAccepts(r.e.phase, gui)
    ensures var x := DistinguishGui(r, f, s, Some(gui), cb, pick, fuel, now);
      && x.run.e.gui == gui
      && (x.err.None? ==> x.run.out != [] && x.run.out[|x.run.out| - 1] == GuiChanged(gui))
  {
    ChainsDisjoint(r.e.phase, gui);
  }

  /** As written, a menu screen is answered but then withdrawn: the old
      screen is put back and no `on_gui` is emitted. */
  lemma MenuScreensRestored(r: Run, f: Flags, s: Settings, gui: Gui, cb: Actions.Callback,
                            pick: Actions.Chooser, fuel: nat, now: int)
    requires |r.e.movesBlocked| == 4 && MatchModel.Valid(r.e.m)
    requires InMenuChain(gui)
    ensures var x := DistinguishGui(r, f, s, Some(gui), cb, pick, fuel, now);
      && x.err.None? && x.run.e.gui == r.e.gui
      && |x.run.out| > |r.out| && x.run.out[..|r.out|] == r.out
      && forall k :: |r.out| <= k < |x.run.out| ==> !x.run.out[k].GuiChanged?
  {
    ChainsDisjoint(r.e.phase, gui);
    var a := MenuScreen(Run(r.e.(gui := gui), r.out), f, s, gui, now);
    assert a.run.e.phase == r.e.phase;
    assert Conclude(r.e.gui, a, s, gui, cb, pick, fuel, now) == Reaction(Run(a.run.e.(gui := r.e.gui), a.run.out), a.flags, None);
  }

  /** `_distinguishGui` with the second chain continuing the first (`elif`
      at line 1136): a menu screen is answered, kept and reported like any
      other accepted screen. */
  function DistinguishGuiIntended(r: Run, f: Flags, s: Settings, g: Option<Gui>, cb: Actions.Callback,
                                  pick: Actions.Chooser, fuel: nat, now: int): (x: Reaction)
    requires |r.e.movesBlocked| == 4 && MatchModel.Valid(r.e.m)
    ensures g.None? ==> x == Reaction(r, f, None)
  {
    match g
    case None => Reaction(r, f, None)
    case Some(gui) =>
      var r1 := Run(r.e.(gui := gui), r.out);
      if InMenuChain(gui) then
        var a := MenuScreen(r1, f, s, gui, now);
        Reaction(Run(a.run.e, a.run.out + [GuiChanged(gui)]), a.flags, None)
      else Conclude(r.e.gui, Reaction(r1, f, None), s, gui, cb, pick, fuel, now)
  }

  /** Under the intended chain every menu screen is recorded and reported. */
  lemma MenuScreensReported(r: Run, f: Flags, s: Settings, gui: Gui, cb: Actions.Callback,
                            pick: Actions.Chooser, fuel: nat, now: int)
    requires |r.e.movesBlocked| == 4 && MatchModel.Valid(r.e.m)
    requires InMenuChain(gui)
    ensures var x := DistinguishGuiIntended(r, f, s, Some(gui), cb, pick, fuel, now);
      && x.err.None? && x.run.e.gui == gui
      && |x.run.out| > |r.out| && x.run.out[..|r.out|] == r.out
      && x.run.out[|x.run.out| - 1] == GuiChanged(gui)
  {
    var a := MenuScreen(Run(r.e.(gui := gui), r.out), f, s, gui, now);
    assert DistinguishGuiIntended(r, f, s, Some(gui), cb, pick, fuel, now) ==
      Reaction(Run(a.run.e, a.run.out + [GuiChanged(gui)]), a.flags, None);
  }

  /** The two readings differ only on menu screens. */
  lemma IntendedAgreesElsewhere(r: Run, f: Flags, s: Settings, g: Option<Gui>, cb: Actions.Callback,
                                pick: Actions.Chooser, fuel: nat, now: int)
    requires |r.e.movesBlocked| == 4 && MatchModel.Valid(r.e.m)
    ensures (g.None? || !InMenuChain(g.value)) <==>
      DistinguishGuiIntended(r, f, s, g, cb, pick, fuel, now) == DistinguishGui(r, f, s, g, cb, pick, fuel, now)
  {
    if g.Some? && InMenuChain(g.value) {
      MenuScreensRestored(r, f, s, g.value, cb, pick, fuel, now);
      MenuScreensReported(r, f, s, g.value, cb, pick, fuel, now);
    }
  }

  /** The main menu seen while another screen is recorded: as written the
      main menu is answered but forgotten, while the intended handler
      records and reports it. */
  lemma MainMenuForgotten(r: Run, f: Flags, s: Settings, cb: Actions.Callback,
                          pick: Actions.Chooser, fuel: nat, now: int)
    requires |r.e.movesBlocked| == 4 && MatchModel.Valid(r.e.m) && r.e.gui != MenuMain
    ensures DistinguishGui(r, f, s, Some(MenuMain), cb, pick, fuel, now).run.e.gui != MenuMain
    ensures DistinguishGuiIntended(r, f, s, Some(MenuMain), cb, pick, fuel, now).run.e.gui == MenuMain
  {
    MenuScreensRestored(r, f, s, MenuMain, cb, pick, fuel, now);
    MenuScreensReported(r, f, s, MenuMain, cb, pick, fuel, now);
  }
}
