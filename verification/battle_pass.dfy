/** The battle-pass setup of `pbrEngine/engine.py`: the storage positions
    `new` gives the two rosters, the box/slot arithmetic of the battle-pass
    screens, and the cursor jobs `_confirmPkmn` and `_distinguishBpSlots`
    that clear both passes and fill them again. Storage boxes hold 30
    Pokémon each; position `p` is slot `p % 30` of box `p // 30`. */
module BattlePass {
  import opened Util
  import opened States
  import opened EngineState
  import Actions

  /** The setup flags only the screen handlers read and write:
      `_fSetAnnouncer`, `_fEnteredBp`, `_fClearedBp`, `_fSelectedTppRules`,
      `_fSelectedSingleBattle` and `_fBlueSelectedBP`. */
  datatype Flags = Flags(
    setAnnouncer: bool,
    enteredBp: bool,
    clearedBp: bool,
    selectedTppRules: bool,
    selectedSingleBattle: bool,
    blueSelectedBp: bool)

  /** The exceptions a screen handler or setup job can raise. */
  datatype ScreenError =
    | ActionFailed(err: Actions.ActionError)  // raised inside `_nextMove`
    | NoPosition                              // `_posBlues[0]` or `pop(0)` on an empty list
    | OrderTooLong                            // `vals[v-1]` past the six order bytes

  /** What a handler leaves behind; after an error, the effects that came
      before the raise. */
  datatype Reaction = Reaction(run: Run, flags: Flags, err: Option<ScreenError>)

  const BoxSize: int := 30

  /** `pos // 30` and `pos % 30`; Python floors like Dafny does for a
      positive divisor. */
  function Box(p: int): int { p / BoxSize }

  function SlotInBox(p: int): int { p % BoxSize }

  /** A position is its box and its slot, and the slot is one of 30. */
  lemma BoxAndSlot(p: int)
    ensures 0 <= SlotInBox(p) < BoxSize
    ensures p == BoxSize * Box(p) + SlotInBox(p)
    ensures p >= 0 ==> Box(p) >= 0
  {
  }

  /** Different positions are different (box, slot) places. */
  lemma PlacesDiffer(p: int, q: int)
    requires Box(p) == Box(q) && SlotInBox(p) == SlotInBox(q)
    ensures p == q
  {
    BoxAndSlot(p);
    BoxAndSlot(q);
  }

  /** The positions of `new` (lines 324-325): blue takes `0..nb-1`, red the
      `nr` positions after them. */
  function Positions(nb: nat, nr: nat): (r: (seq<int>, seq<int>))
    ensures |r.0| == nb && |r.1| == nr
  {
    (Iota(0, nb), Iota(nb, nr))
  }

  /** Together the two lists number the positions `0..nb+nr-1` once each,
      so no two Pokémon of the match share a storage place. */
  lemma PositionsApart(nb: nat, nr: nat)
    ensures Positions(nb, nr).0 + Positions(nb, nr).1 == Iota(0, nb + nr)
    ensures var all := Positions(nb, nr).0 + Positions(nb, nr).1;
      forall i, j :: 0 <= i < j < |all| ==>
        Box(all[i]) != Box(all[j]) || SlotInBox(all[i]) != SlotInBox(all[j])
  {
    var all := Positions(nb, nr).0 + Positions(nb, nr).1;
    assert forall k :: 0 <= k < |all| ==> all[k] == k;
    forall i, j | 0 <= i < j < |all|
      ensures Box(all[i]) != Box(all[j]) || SlotInBox(all[i]) != SlotInBox(all[j])
    {
      if Box(all[i]) == Box(all[j]) && SlotInBox(all[i]) == SlotInBox(all[j]) {
        PlacesDiffer(all[i], all[j]);
      }
    }
  }

  /** The roster being put on a pass in a filling phase: blue's in
      PREPARING_BP1, red's otherwise. */
  function Filling(p: Phase): Side
  {
    if p == PreparingBp1 then Blue else Red
  }

  function PosOf(e: Engine, side: Side): seq<int>
  {
    if side == Blue then e.posBlues else e.posReds
  }

  function WithPos(e: Engine, side: Side, pos: seq<int>): (e': Engine)
    ensures PosOf(e', side) == pos && PosOf(e', Invert(side)) == PosOf(e, Invert(side))
    ensures e' == e.(posBlues := e'.posBlues, posReds := e'.posReds)
  {
    if side == Blue then e.(posBlues := pos) else e.(posReds := pos)
  }

  /** `BPS_BOXES` (lines 1149-1163): while filling, opens the box of the next
      position to place; otherwise backs out and waits for the slot view.
      Either way the pass counts as entered and cleared. */
  function BoxesScreen(r: Run, f: Flags, lay: Layout, now: int): (x: Reaction)
    ensures x.flags == f.(enteredBp := true, clearedBp := true)
    ensures x.run.e.gui == r.e.gui && x.run.e.phase == r.e.phase && x.run.e.m == r.e.m
    ensures x.err.Some? <==> r.e.phase in {PreparingBp1, PreparingBp2} && PosOf(r.e, Filling(r.e.phase)) == []
  {
    var f' := f.(enteredBp := true, clearedBp := true);
    if r.e.phase in {PreparingBp1, PreparingBp2} then
      var pos := PosOf(r.e, Filling(r.e.phase));
      if pos == [] then Reaction(r, f', Some(NoPosition))
      else Reaction(Select(r, lay.box + Box(pos[0]), now), f', None)
    else
      var s := PressButton(r, One, now);
      Reaction(Run(s.e, s.out + [OnCursor(lay.bpSlots, BpSlotsJob)]), f', None)
  }

  /** `BPS_PKMN` (lines 1164-1170): picks the slot of the next position in
      the open box and confirms it once the model has loaded. */
  function PkmnScreen(r: Run, f: Flags, lay: Layout, now: int): (x: Reaction)
    ensures x.flags == f && x.run.e.gui == r.e.gui && x.run.e.phase == r.e.phase && x.run.e.m == r.e.m
    ensures x.err.Some? <==> PosOf(r.e, Filling(r.e.phase)) == []
  {
    var pos := PosOf(r.e, Filling(r.e.phase));
    if pos == [] then Reaction(r, f, Some(NoPosition))
    else
      var s := Select(r, lay.pkmn + SlotInBox(pos[0]), now);
      Reaction(Run(s.e, s.out + [OnCursor(1, ConfirmPkmnJob)]), f, None)
  }

  /** The box screen and then the Pokémon screen select the box and the
      slot of the same position, the head of the list being filled, and the
      two cursor positions give that position back. */
  lemma PlacedAt(r: Run, f: Flags, lay: Layout, now: int, later: int)
    requires r.e.phase in {PreparingBp1, PreparingBp2} && PosOf(r.e, Filling(r.e.phase)) != []
    ensures var p := PosOf(r.e, Filling(r.e.phase))[0];
      var b := BoxesScreen(r, f, lay, now);
      var k := PkmnScreen(b.run, b.flags, lay, later);
      && b.err.None? && k.err.None?
      && b.run.out == r.out + [SetCursor(lay.box + Box(p)), Press(Two)]
      && k.run.out == b.run.out + [SetCursor(lay.pkmn + SlotInBox(p)), Press(Two), OnCursor(1, ConfirmPkmnJob)]
      && p == BoxSize * ((lay.box + Box(p)) - lay.box) + ((lay.pkmn + SlotInBox(p)) - lay.pkmn)
  {
    BoxAndSlot(PosOf(r.e, Filling(r.e.phase))[0]);
  }

  /** `_confirmPkmn`: confirms the chosen Pokémon, moves the pass cursor on
      by one and drops the placed position from the list being filled; an
      empty list is the IndexError of `pop(0)`, after the press. */
  function ConfirmPkmn(r: Run, f: Flags, lay: Layout, now: int): (x: Reaction)
    ensures x.flags == f && x.run.e.gui == r.e.gui && x.run.e.phase == r.e.phase && x.run.e.m == r.e.m
    ensures x.run.e.bpOffset == r.e.bpOffset + 1
    ensures x.err.Some? <==> PosOf(r.e, Filling(r.e.phase)) == []
    ensures x.err.None? ==>
      var side := Filling(r.e.phase);
      && PosOf(x.run.e, side) == PosOf(r.e, side)[1..]
      && PosOf(x.run.e, Invert(side)) == PosOf(r.e, Invert(side))
      && x.run.out == r.out + [Press(Two), OnCursor(lay.bpSlots - 1 + x.run.e.bpOffset, BpSlotsJob)]
    ensures x.err.Some? ==> x.run.out == r.out + [Press(Two)]
  {
    var s := PressButton(r, Two, now);
    var e := s.e.(bpOffset := s.e.bpOffset + 1);
    var side := Filling(r.e.phase);
    var pos := PosOf(e, side);
    if pos == [] then Reaction(Run(e, s.out), f, Some(NoPosition))
    else
      var e' := WithPos(e, side, pos[1..]);
      Reaction(Run(e', s.out + [OnCursor(lay.bpSlots - 1 + e'.bpOffset, BpSlotsJob)]), f, None)
  }

  /** `k` confirmations in a row drop the first `k` positions, in order. */
  lemma {:induction false} ConfirmDrains(r: Run, f: Flags, lay: Layout, now: int, k: nat)
    requires k <= |PosOf(r.e, Filling(r.e.phase))|
    ensures var x := ConfirmRepeated(r, f, lay, now, k);
      && x.err.None?
      && PosOf(x.run.e, Filling(r.e.phase)) == PosOf(r.e, Filling(r.e.phase))[k..]
      && x.run.e.bpOffset == r.e.bpOffset + k
    decreases k
  {
    if k > 0 {
      var x := ConfirmPkmn(r, f, lay, now);
      ConfirmDrains(x.run, f, lay, now, k - 1);
      assert PosOf(x.run.e, Filling(r.e.phase))[k - 1..] == PosOf(r.e, Filling(r.e.phase))[k..];
    }
  }

  /** `_confirmPkmn` run `k` times, stopping at the first error. */
  function ConfirmRepeated(r: Run, f: Flags, lay: Layout, now: int, k: nat): Reaction
    decreases k
  {
    if k == 0 then Reaction(r, f, None)
    else
      var x := ConfirmPkmn(r, f, lay, now);
      if x.err.Some? then x else ConfirmRepeated(x.run, f, lay, now, k - 1)
  }

  /** The slot view while the second pass is cleared: back out once it
      is empty, grab its first Pokémon otherwise. */
  function ClearSecond(r: Run, f: Flags, lay: Layout, now: int): (r': Run)
    ensures r'.e == r.e.(phase := r'.e.phase, lastInput := r'.e.lastInput, lastInputFrame := r'.e.lastInputFrame)
    ensures r'.e.phase == if f.clearedBp then EmptyingBp1 else r.e.phase
  {
    if f.clearedBp then SetState(PressButton(r, One, now), EmptyingBp1)
    else Select(r, lay.bpSlots, now)
  }

  /** The slot view while the first pass is cleared: once it is empty the
      flag is reset and filling starts. */
  function ClearFirst(r: Run, f: Flags, lay: Layout, now: int): (r': Run)
    requires r.e.phase == EmptyingBp1
    ensures r'.e == r.e.(phase := r'.e.phase, lastInput := r'.e.lastInput, lastInputFrame := r'.e.lastInputFrame)
    ensures r'.e.phase == if f.clearedBp then PreparingBp1 else EmptyingBp1
  {
    if f.clearedBp then PressButton(SetState(r, PreparingBp1), One, now)
    else Select(r, lay.bpSlots, now)
  }

  /** The slot view while a pass is filled: the phase moves on once the
      side's list is exhausted; otherwise the last slot is opened. */
  function FillSlots(r: Run, lay: Layout, now: int): (r': Run)
    requires r.e.phase == PreparingBp1 || r.e.phase == PreparingBp2
    ensures r'.e == r.e.(phase := r'.e.phase, lastInput := r'.e.lastInput, lastInputFrame := r'.e.lastInputFrame)
    ensures r'.e.phase == if PosOf(r.e, Filling(r.e.phase)) == [] then Next(r.e.phase) else r.e.phase
  {
    if PosOf(r.e, Filling(r.e.phase)) == [] then PressButton(SetState(r, Next(r.e.phase)), One, now)
    else Select(r, lay.bpSlots + 5, now)
  }

  /** `_distinguishBpSlots`: what to do on a pass's slot view. The second
      pass is cleared, then the first; the first is filled with blue's
      roster, then the second with red's. Only the phase, the last input
      and the cleared flag can change. */
  function DistinguishBpSlots(r: Run, f: Flags, lay: Layout, now: int): (x: Reaction)
    ensures x.err.None? && x.flags == f.(clearedBp := x.flags.clearedBp)
    ensures x.run.e == r.e.(phase := x.run.e.phase, lastInput := x.run.e.lastInput,
      lastInputFrame := x.run.e.lastInputFrame)
  {
    var p := r.e.phase;
    if Rank(p) <= Rank(EmptyingBp2) then Reaction(ClearSecond(r, f, lay, now), f, None)
    else if p == EmptyingBp1 then
      Reaction(ClearFirst(r, f, lay, now), f.(clearedBp := false), None)
    else if p == PreparingBp1 || p == PreparingBp2 then Reaction(FillSlots(r, lay, now), f, None)
    else Reaction(r, f, None)
  }

  /** The phase steps of the slot view: clearing ends when the pass is
      cleared, filling ends exactly when the side's list is exhausted, and
      from PREPARING_STAGE on the view is ignored. */
  lemma BpSlotsPhases(r: Run, f: Flags, lay: Layout, now: int)
    ensures var x := DistinguishBpSlots(r, f, lay, now);
      && (Rank(r.e.phase) <= Rank(EmptyingBp2) ==>
            (x.run.e.phase == EmptyingBp1 <==> f.clearedBp) && (!f.clearedBp ==> x.run.e.phase == r.e.phase))
      && (r.e.phase == EmptyingBp1 ==>
            (x.run.e.phase == PreparingBp1 <==> f.clearedBp) && !x.flags.clearedBp)
      && (r.e.phase == PreparingBp1 || r.e.phase == PreparingBp2 ==>
            x.run.e.phase == (if PosOf(r.e, Filling(r.e.phase)) == [] then Next(r.e.phase) else r.e.phase))
      && (Rank(r.e.phase) >= Rank(PreparingStage) ==> x == Reaction(r, f, None))
  {
    if Rank(r.e.phase) <= Rank(EmptyingBp2) {
      assert r.e.phase != EmptyingBp1;
    }
  }

  /** Filling a pass from PREPARING_BP1: each position is placed through
      the slot view, the box and Pokémon screens and a confirmation, and
      the slot view seen after the last confirmation moves on to red's
      pass. */
  lemma FillingEnds(r: Run, f: Flags, lay: Layout, now: int)
    requires r.e.phase == PreparingBp1 && |r.e.posBlues| == 1
    ensures var c := ConfirmPkmn(r, f, lay, now);
      && c.err.None? && c.run.e.posBlues == []
      && DistinguishBpSlots(c.run, c.flags, lay, now).run.e.phase == PreparingBp2
  {
    var c := ConfirmPkmn(r, f, lay, now);
    assert PosOf(c.run.e, Blue) == [];
    BpSlotsPhases(c.run, c.flags, lay, now);
  }
}
