/** The engine record of `PBREngine` (`pbrEngine/engine.py`) and the small
    operations everything else is built from: button presses, cursor
    selections, the phase setter, the stuck checker's threshold, the
    battle-pass page logic, the status byte and the hand-over of match
    events. Emulator writes, button presses, scheduled jobs and the
    engine's observer events are collected in an output trace. */
module EngineState {
  import opened Util
  import opened States
  import MatchModel

  /** Work handed to the cursor watcher or the frame timer. */
  datatype Job =
    | SelectAt(index: int)
    | QuitMatch
    | BpsSelectJob
    | BpSlotsJob
    | ConfirmPkmnJob
    | NextPkmnJob
    | PressJob(button: Button)
    | SelectBpJob(num: int)
    | SkipIntroJob

  /** What the engine writes to the match screen's target word. */
  datatype Target = SelectMove | InstaGiveIn

  /** One effect of the engine, in the order it happens. */
  datatype Out =
    | Press(button: Button)
    | SetCursor(pos: int)
    | Later(frames: nat, job: Job)
    | OnCursor(pos: int, job: Job)
    | Spawn(job: Job)
    | Paused
    | WriteTarget(target: Target)
    | WriteMove(move: nat)
    | WriteColosseum
    | WriteAnnouncer(flag: int)
    | ClearAttackText
    | NewRngSeed
    | Asked(side: Side, fails: int, moves: bool, switch: bool, cause: Cause)
    | WriteOrder(side: Side, word: int, half: int)
    | StateChanged(phase: Phase)
    | GuiChanged(gui: Gui)
    | Infobox(text: string)
    | GuiRaised
    | StatUpdate(status: Status, side: Side, monindex: nat)
    | Died(side: Side, monindex: nat)
    | SwitchedOut(side: Side, monindex: nat, obj: Option<int>)
    | Won(outcome: MatchModel.Outcome)

  /** The status a status byte stands for; sleep carries the byte itself as
      the number of rounds left. */
  datatype Status = Healthy | Psn | Brn | Frz | Par | Tox | Slp(rounds: int)

  datatype Engine = Engine(
    phase: Phase,
    gui: Gui,
    bluesTurn: bool,
    fails: int,
    movesBlocked: seq<bool>,
    causeBlue: Cause,
    causeRed: Cause,
    bpPage2: bool,
    bpOffset: int,
    startsignal: bool,
    blueChoseOrder: bool,
    tryingToSwitch: bool,
    matchCancelled: bool,
    lastInput: Button,
    lastInputFrame: int,
    objBlue: Option<int>,
    objRed: Option<int>,
    posBlues: seq<int>,
    posReds: seq<int>,
    m: MatchModel.Match)
  {
    function Turn(): Side
    {
      if bluesTurn then Blue else Red
    }

    function CauseOf(side: Side): Cause
    {
      if side == Blue then causeBlue else causeRed
    }

    function WithCause(side: Side, c: Cause): (e: Engine)
      ensures e.CauseOf(side) == c && e.CauseOf(Invert(side)) == CauseOf(Invert(side))
      ensures e == this.(causeBlue := e.causeBlue, causeRed := e.causeRed)
    {
      if side == Blue then this.(causeBlue := c) else this.(causeRed := c)
    }

    function ObjOf(side: Side): Option<int>
    {
      if side == Blue then objBlue else objRed
    }

    function WithObj(side: Side, o: Option<int>): (e: Engine)
      ensures e.ObjOf(side) == o && e.ObjOf(Invert(side)) == ObjOf(Invert(side))
      ensures e == this.(objBlue := e.objBlue, objRed := e.objRed)
    {
      if side == Blue then this.(objBlue := o) else this.(objRed := o)
    }
  }

  /** The engine together with everything it has emitted so far. */
  datatype Run = Run(e: Engine, out: seq<Out>)

  /** `_pressButton`: remembers the button and the frame for the stuck
      checker and sends the press. */
  function PressButton(r: Run, b: Button, now: int): (r': Run)
    ensures r'.out == r.out + [Press(b)]
    ensures r'.e == r.e.(lastInput := b, lastInputFrame := now)
  {
    Run(r.e.(lastInput := b, lastInputFrame := now), r.out + [Press(b)])
  }

  /** `_select`: moves the cursor, then presses Two. */
  function Select(r: Run, index: int, now: int): (r': Run)
    ensures r'.out == r.out + [SetCursor(index), Press(Two)]
    ensures r'.e == r.e.(lastInput := Two, lastInputFrame := now)
  {
    PressButton(Run(r.e, r.out + [SetCursor(index)]), Two, now)
  }

  /** `_setState`: fires the state event only on a change. */
  function SetState(r: Run, p: Phase): (r': Run)
    ensures r'.e == r.e.(phase := p)
    ensures r.e.phase == p ==> r'.out == r.out
    ensures r.e.phase != p ==> r'.out == r.out + [StateChanged(p)]
  {
    if r.e.phase == p then r else Run(r.e.(phase := p), r.out + [StateChanged(p)])
  }

  /** Setting the same phase twice emits what setting it once does. */
  lemma SetStateIdempotent(r: Run, p: Phase)
    ensures SetState(SetState(r, p), p) == SetState(r, p)
    ensures |SetState(r, p).out| <= |r.out| + 1
  {
  }

  /** The stuck checker's inactivity limit in frames for a phase and screen;
      None while a match runs, when the checker does nothing. */
  function StuckLimit(p: Phase, g: Gui): (r: Option<nat>)
    ensures r.None? <==> p == MatchRunning
    ensures r.Some? ==> r.value in {80, 300, 600}
    ensures r.Some? && g == RulesBpsConfirm ==> r.value == 600
    ensures r.Some? && r.value == 80 <==>
      && p != MatchRunning && g != RulesBpsConfirm
      && (p == CreatingSave1 || p == CreatingSave2)
      && g !in {MenuMain, MenuBattlePass, BpsSelect}
  {
    if p == MatchRunning then None
    else
      var limit :=
        if (p == CreatingSave1 || p == CreatingSave2) && g !in {MenuMain, MenuBattlePass, BpsSelect}
        then 80 else 300;
      if g == RulesBpsConfirm then Some(600) else Some(limit)
  }

  /** One wake-up of the stuck checker at frame `now`: when no input was
      sent for longer than the limit, the last input is sent again. */
  function StuckCheck(r: Run, now: int): (r': Run)
    ensures r' == r || r' == PressButton(r, r.e.lastInput, now)
    ensures r' != r ==>
      StuckLimit(r.e.phase, r.e.gui).Some? &&
      now - r.e.lastInputFrame > StuckLimit(r.e.phase, r.e.gui).value
    ensures (StuckLimit(r.e.phase, r.e.gui).Some? &&
      now - r.e.lastInputFrame > StuckLimit(r.e.phase, r.e.gui).value) ==> |r'.out| == |r.out| + 1
  {
    match StuckLimit(r.e.phase, r.e.gui)
    case None => r
    case Some(limit) =>
      if now - r.e.lastInputFrame > limit then PressButton(r, r.e.lastInput, now) else r
  }

  /** A resent input resets the inactivity window: a second check at the
      same frame sends nothing, and the phase, screen and match are
      untouched. */
  lemma StuckCheckSettles(r: Run, now: int)
    ensures StuckCheck(StuckCheck(r, now), now) == StuckCheck(r, now)
    ensures StuckCheck(r, now).e.phase == r.e.phase && StuckCheck(r, now).e.gui == r.e.gui
    ensures StuckCheck(r, now).e.m == r.e.m
  {
    var s := StuckCheck(r, now);
    if s != r {
      assert s.e.lastInputFrame == now && s.e.lastInput == r.e.lastInput;
    }
  }

  /** `pkmnIndexToButton`: the button choosing switch-menu position `i`. */
  function PkmnIndexToButton(i: nat): (b: Button)
    requires i < 6
    ensures b != NoButton && b != Minus
  {
    [Right, Down, Up, Left, Two, One][i]
  }

  /** The switch-menu position a button chooses. */
  function ButtonToPkmnIndex(b: Button): Option<nat>
  {
    match b
    case Right => Some(0)
    case Down => Some(1)
    case Up => Some(2)
    case Left => Some(3)
    case Two => Some(4)
    case One => Some(5)
    case _ => None
  }

  /** Each position has its own button, and the button gives the position
      back. */
  lemma PkmnButtonsInverse(i: nat, b: Button)
    requires i < 6
    ensures ButtonToPkmnIndex(PkmnIndexToButton(i)) == Some(i)
    ensures ButtonToPkmnIndex(b) == Some(i) ==> b == PkmnIndexToButton(i)
  {
  }

  lemma PkmnButtonsInjective(i: nat, j: nat)
    requires i < 6 && j < 6 && PkmnIndexToButton(i) == PkmnIndexToButton(j)
    ensures i == j
  {
    PkmnButtonsInverse(i, PkmnIndexToButton(i));
    PkmnButtonsInverse(j, PkmnIndexToButton(j));
  }

  /** The cursor positions a trace selects, now or later, in order. */
  function Selections(out: seq<Out>): (r: seq<int>)
  {
    if out == [] then []
    else
      var rest := Selections(out[1..]);
      match out[0]
      case SetCursor(p) => [p] + rest
      case Later(_, SelectAt(p)) => [p] + rest
      case _ => rest
  }

  lemma {:induction false} SelectionsAppend(a: seq<Out>, b: seq<Out>)
    ensures Selections(a + b) == Selections(a) + Selections(b)
  {
    if a == [] {
      assert a + b == b;
    } else {
      assert (a + b)[1..] == a[1..] + b;
      SelectionsAppend(a[1..], b);
    }
  }

  /** `_select_bp(num)`: battle passes sit four to a page; the page is
      turned first when the wanted pass is on the other page, and the pass
      is selected 60 frames later. */
  function SelectBp(r: Run, lay: Layout, num: int, now: int): (r': Run)
    ensures r'.e.bpPage2 == (num >= 4)
    ensures r'.e == r.e.(bpPage2 := r'.e.bpPage2, lastInput := Two, lastInputFrame := now)
    ensures |r'.out| > |r.out| && r'.out[..|r.out|] == r.out
    ensures var sel := Selections(r'.out[|r.out|..]);
      && |sel| >= 1 && sel[|sel| - 1] == lay.bps + num % 4
      && (r.e.bpPage2 == (num >= 4) <==> |sel| == 1)
      && (r.e.bpPage2 != (num >= 4) ==> sel[0] == if num >= 4 then lay.bpNext else lay.bpPrev)
  {
    var index := lay.bps + num % 4;
    if r.e.bpPage2 == (num >= 4) then
      var s := Select(r, index, now);
      SelectionsAdded(r.out, [SetCursor(index), Press(Two)], s.out, [index]);
      s
    else
      var page := if num >= 4 then lay.bpNext else lay.bpPrev;
      var s := Select(r, page, now);
      var added := [SetCursor(page), Press(Two), Later(60, SelectAt(index))];
      SelectionsAdded(r.out, added, s.out + [Later(60, SelectAt(index))], [page, index]);
      Run(s.e.(bpPage2 := num >= 4), s.out + [Later(60, SelectAt(index))])
  }

  /** The selections of what was appended to a trace, for the two shapes
      `SelectBp` appends. */
  lemma SelectionsAdded(pre: seq<Out>, added: seq<Out>, out: seq<Out>, sel: seq<int>)
    requires out == pre + added
    requires (|added| == 2 && added[0].SetCursor? && added[1].Press? && sel == [added[0].pos])
          || (|added| == 3 && added[0].SetCursor? && added[1].Press? && added[2].Later? && added[2].job.SelectAt?
              && sel == [added[0].pos, added[2].job.index])
    ensures out[..|pre|] == pre && Selections(out[|pre|..]) == sel
  {
    assert out[|pre|..] == added;
    assert added[1..][1..] == added[2..];
    if |added| == 3 {
      assert added[2..][1..] == [];
      assert Selections(added[2..]) == [added[2].job.index];
    } else {
      assert Selections(added[2..]) == [];
    }
    assert Selections(added[1..]) == Selections(added[2..]);
  }

  /** Selecting the same pass twice turns the page at most once. */
  lemma SelectBpTwice(r: Run, lay: Layout, num: int, now: int, later: int)
    ensures var s := SelectBp(r, lay, num, now);
      Selections(SelectBp(s, lay, num, later).out[|s.out|..]) == [lay.bps + num % 4]
  {
  }

  /** `_distinguishStatus`'s table: one bit per status, any other non-zero
      byte is sleep with that many rounds left. */
  function StatusOf(val: int): (s: Status)
    ensures s.Slp? <==> val !in {0x00, 0x08, 0x10, 0x20, 0x40, 0x80}
    ensures s.Slp? ==> s.rounds == val
  {
    if val == 0x00 then Healthy
    else if val == 0x08 then Psn
    else if val == 0x10 then Brn
    else if val == 0x20 then Frz
    else if val == 0x40 then Par
    else if val == 0x80 then Tox
    else Slp(val)
  }

  /** The byte the game stores for a status. */
  function StatusByte(s: Status): int
  {
    match s
    case Healthy => 0x00
    case Psn => 0x08
    case Brn => 0x10
    case Frz => 0x20
    case Par => 0x40
    case Tox => 0x80
    case Slp(rounds) => rounds
  }

  /** Decoding inverts encoding for every status whose sleep counter is not
      one of the other statuses' bytes, and encoding inverts decoding for
      every byte. */
  lemma StatusRoundTrip(s: Status, val: int)
    ensures (s.Slp? ==> s.rounds !in {0x00, 0x08, 0x10, 0x20, 0x40, 0x80}) ==>
      StatusOf(StatusByte(s)) == s
    ensures StatusByte(StatusOf(val)) == val
  {
  }

  /** `_distinguishStatus`: reports the status of the side's active
      Pokémon. */
  function DistinguishStatus(r: Run, val: int, side: Side): (r': Run)
    ensures r'.e == r.e
    ensures r'.out == r.out + [StatUpdate(StatusOf(val), side, r.e.m.TeamOf(side).current)]
  {
    Run(r.e, r.out + [StatUpdate(StatusOf(val), side, r.e.m.TeamOf(side).current)])
  }

  /** `_matchOver`: only a running match can end; the win event is fired
      once, after the phase moved to MATCH_ENDED, and "Quit" is clicked
      when the cursor reaches position 1. */
  function MatchOver(r: Run, w: MatchModel.Outcome): (r': Run)
    ensures r.e.phase != MatchRunning ==> r' == r
    ensures r.e.phase == MatchRunning ==>
      && r'.e == r.e.(phase := MatchEnded, matchCancelled := false)
      && r'.out == r.out + [OnCursor(1, QuitMatch), StateChanged(MatchEnded), Won(w)]
  {
    if r.e.phase != MatchRunning then r
    else
      var s := Run(r.e.(matchCancelled := false), r.out + [OnCursor(1, QuitMatch)]);
      var s' := SetState(s, MatchEnded);
      Run(s'.e, s'.out + [Won(w)])
  }

  /** A second verdict in the same match changes nothing. */
  lemma MatchOverOnce(r: Run, w1: MatchModel.Outcome, w2: MatchModel.Outcome)
    ensures MatchOver(MatchOver(r, w1), w2) == MatchOver(r, w1)
    ensures |set k | 0 <= k < |MatchOver(r, w1).out| && MatchOver(r, w1).out[k].Won? :: k|
      <= |set k | 0 <= k < |r.out| && r.out[k].Won? :: k| + 1
  {
    var s := MatchOver(r, w1);
    if r.e.phase == MatchRunning {
      var n := |r.out|;
      assert s.out[n + 2] == Won(w1);
      var a := set k | 0 <= k < |s.out| && s.out[k].Won? :: k;
      var b := set k | 0 <= k < n && r.out[k].Won? :: k;
      assert a == b + {n + 2} by {
        forall k | k in a ensures k in b + {n + 2} {
          if k < n { assert s.out[k] == r.out[k]; }
        }
        forall k | k in b + {n + 2} ensures k in a {
          if k < n { assert s.out[k] == r.out[k]; }
        }
      }
    }
  }

  /** `_switched`: the switch event carries the object the action callback
      returned with the command that caused it, which is then dropped. */
  function NotifySwitch(r: Run, side: Side, monindex: nat): (r': Run)
    ensures r'.out == r.out + [SwitchedOut(side, monindex, r.e.ObjOf(side))]
    ensures r'.e == r.e.WithObj(side, None)
  {
    Run(r.e.WithObj(side, None), r.out + [SwitchedOut(side, monindex, r.e.ObjOf(side))])
  }

  /** Some event of the list is a verdict. */
  predicate HasVerdict(events: seq<MatchModel.Event>)
  {
    exists k :: 0 <= k < |events| && events[k].Win?
  }

  /** Hands the events of a match operation to the engine's observers, in
      order: deaths are forwarded, switches go through `_switched`, a
      verdict through `_matchOver`. */
  function Absorb(r: Run, events: seq<MatchModel.Event>): (r': Run)
    ensures r'.e.m == r.e.m && r'.e.gui == r.e.gui && r'.e.bluesTurn == r.e.bluesTurn
    ensures |r'.out| >= |r.out| && r'.out[..|r.out|] == r.out
    ensures (forall k :: 0 <= k < |events| ==> events[k].Death?) ==>
      r' == Run(r.e, r.out + seq(|events|, k requires 0 <= k < |events| =>
        Died(events[k].side, events[k].monindex)))
    ensures r'.e.phase == if r.e.phase == MatchRunning && HasVerdict(events) then MatchEnded else r.e.phase
    decreases |events|
  {
    if events == [] then
      assert r.out + [] == r.out;
      r
    else
      assert HasVerdict(events) <==> events[0].Win? || HasVerdict(events[1..]) by {
        assert forall k :: 1 <= k < |events| ==> events[k] == events[1..][k - 1];
      }
      var s := match events[0]
        case Death(side, i) => Run(r.e, r.out + [Died(side, i)])
        case Switch(side, i) => NotifySwitch(r, side, i)
        case Win(w) => MatchOver(r, w);
      var t := Absorb(s, events[1..]);
      assert t.out[..|r.out|] == s.out[..|s.out|][..|r.out|];
      t
  }
}
