/** `_distinguishInfo` (`pbrEngine/engine.py`): the reaction to a new text
    in the in-battle info box. During a match each text is reported; a
    faint message marks the Pokémon dead and makes a faint the expected
    cause of that side's next action, a Roar/Whirlwind message records the
    undetected switch, and any other message re-arms the win check. */
module Info {
  import opened Util
  import opened States
  import opened EngineState
  import MatchModel

  /** What the two regular expressions of the handler recognise. */
  datatype Notice =
    | Fainted(side: Side, name: string)
    | Dragged(side: Side, name: string)
    | Other

  const FaintEnd: string := " fainted!"
  const DragEnd: string := " was dragged out!"

  /** The start both messages share, `Team Blue's ` or `Team Red's `. */
  function TeamStart(side: Side): string
  {
    "Team " + (if side == Blue then "Blue" else "Red") + "'s "
  }

  /** A name `(.+?)` can stand for: not empty, and no line break, which
      `.` does not match. */
  predicate IsName(s: string)
  {
    |s| > 0 && forall i :: 0 <= i < |s| ==> s[i] != '\n'
  }

  /** The text `$` sees as the end of the string: a single line break at
      the very end may follow the match. */
  function Body(text: string): (b: string)
    ensures b == text || b + "\n" == text
  {
    if |text| > 0 && text[|text| - 1] == '\n' then text[..|text| - 1] else text
  }

  /** The name between `start` and `end`, when `^start(.+?)end$` matches. */
  function Between(text: string, start: string, end: string): (r: Option<string>)
    ensures r.Some? ==>
      && IsName(r.value)
      && (text == start + r.value + end || text == start + r.value + end + "\n")
  {
    var b := Body(text);
    if |b| > |start| + |end| && b[..|start|] == start && b[|b| - |end|..] == end
       && IsName(b[|start|..|b| - |end|])
    then
      var name := b[|start|..|b| - |end|];
      assert b == start + name + end;
      Some(name)
    else None
  }

  /** The matching of lines 936-937: the faint message for either side. */
  function MatchFaint(text: string): (r: Option<(Side, string)>)
  {
    match Between(text, TeamStart(Blue), FaintEnd)
    case Some(name) => Some((Blue, name))
    case None =>
      match Between(text, TeamStart(Red), FaintEnd)
      case Some(name) => Some((Red, name))
      case None => None
  }

  /** The matching of lines 948-949: the dragged-out message for either side. */
  function MatchDrag(text: string): (r: Option<(Side, string)>)
  {
    match Between(text, TeamStart(Blue), DragEnd)
    case Some(name) => Some((Blue, name))
    case None =>
      match Between(text, TeamStart(Red), DragEnd)
      case Some(name) => Some((Red, name))
      case None => None
  }

  /** The two matches in the order the handler tries them. */
  function Parse(text: string): (n: Notice)
    ensures n.Fainted? ==> IsName(n.name)
    ensures n.Dragged? ==> IsName(n.name)
  {
    match MatchFaint(text)
    case Some((side, name)) => Fainted(side, name)
    case None =>
      match MatchDrag(text)
      case Some((side, name)) => Dragged(side, name)
      case None => Other
  }

  /** The message the game shows for a notice. */
  function Render(n: Notice): string
  {
    match n
    case Fainted(side, name) => TeamStart(side) + name + FaintEnd
    case Dragged(side, name) => TeamStart(side) + name + DragEnd
    case Other => ""
  }

  /** A rendered message reads back between its start and end, with or
      without a final line break. */
  lemma BetweenRendered(start: string, name: string, end: string, nl: bool)
    requires IsName(name) && |end| > 0 && end[|end| - 1] != '\n'
    ensures Between(start + name + end + (if nl then "\n" else ""), start, end) == Some(name)
  {
    var text := start + name + end + (if nl then "\n" else "");
    var b := start + name + end;
    assert Body(text) == b;
    assert b[..|start|] == start;
    assert b[|b| - |end|..] == end;
    assert b[|start|..|b| - |end|] == name;
  }

  /** Where a match puts the start and the end, character by character. */
  lemma BetweenShape(text: string, start: string, end: string)
    ensures Between(text, start, end).Some? ==>
      && |Body(text)| > |start| + |end|
      && (forall k :: 0 <= k < |start| ==> Body(text)[k] == start[k])
      && (forall k :: |Body(text)| - |end| <= k < |Body(text)| ==>
            Body(text)[k] == end[k - (|Body(text)| - |end|)])
  {
    if Between(text, start, end).Some? {
      var b := Body(text);
      forall k | 0 <= k < |start| ensures b[k] == start[k] {
        assert b[..|start|][k] == b[k];
      }
      forall k | |b| - |end| <= k < |b| ensures b[k] == end[k - (|b| - |end|)] {
        assert b[|b| - |end|..][k - (|b| - |end|)] == b[k];
      }
    }
  }

  /** A message of one side is no message of the other: the two starts
      differ in their sixth character. */
  lemma SidesExclusive(text: string, side: Side, e1: string, e2: string)
    requires Between(text, TeamStart(side), e1).Some?
    ensures Between(text, TeamStart(Invert(side)), e2).None?
  {
    BetweenShape(text, TeamStart(side), e1);
    BetweenShape(text, TeamStart(Invert(side)), e2);
    assert Body(text)[5] == TeamStart(side)[5];
  }

  /** A faint message is no dragged-out message and the other way round:
      the ends differ in their second-to-last character. */
  lemma EndsExclusive(text: string, s1: string, s2: string, faint: bool)
    requires Between(text, s1, if faint then FaintEnd else DragEnd).Some?
    ensures Between(text, s2, if faint then DragEnd else FaintEnd).None?
  {
    var e1 := if faint then FaintEnd else DragEnd;
    BetweenShape(text, s1, e1);
    BetweenShape(text, s2, if faint then DragEnd else FaintEnd);
    assert Body(text)[|Body(text)| - 2] == e1[|e1| - 2];
  }

  /** Every notice with a proper name is read back from its message,
      whether or not a line break follows it. */
  lemma ParseRender(n: Notice, nl: bool)
    requires !n.Other? ==> IsName(n.name)
    ensures !n.Other? ==> Parse(Render(n) + (if nl then "\n" else "")) == n
  {
    if !n.Other? {
      var end := if n.Fainted? then FaintEnd else DragEnd;
      var text := Render(n) + (if nl then "\n" else "");
      BetweenRendered(TeamStart(n.side), n.name, end, nl);
      SidesExclusive(text, n.side, end, end);
      if n.Dragged? {
        EndsExclusive(text, TeamStart(n.side), TeamStart(Blue), false);
        EndsExclusive(text, TeamStart(n.side), TeamStart(Red), false);
      }
    }
  }

  /** Only rendered messages are recognised: whatever `Parse` finds, the
      text is its message, possibly followed by a line break. */
  lemma ParseFindsRendered(text: string)
    ensures !Parse(text).Other? ==>
      text == Render(Parse(text)) || text == Render(Parse(text)) + "\n"
  {
  }

  /** `string.startswith("##")`: the text written to blank the box. */
  predicate Invalidation(text: string)
  {
    |text| >= 2 && text[0] == '#' && text[1] == '#'
  }

  /** No message starts like the blanking text. */
  lemma RenderedShown(n: Notice, tail: string)
    requires !n.Other?
    ensures !Invalidation(Render(n) + tail)
  {
    assert (Render(n) + tail)[0] == TeamStart(n.side)[0] == 'T';
  }

  /** What the handler did: the new run, and the match error it raised
      (the run then holds the outputs up to the raise). */
  datatype Noticed = Noticed(run: Run, err: Option<MatchModel.MatchError>)

  /** `_distinguishInfo(text)`. The shift of the on-screen text
      (`setGuiPosY`, a float) is the output `GuiRaised`; the decoding of the
      raw bytes is not part of this model. */
  function DistinguishInfo(r: Run, text: string, now: int): (x: Noticed)
    requires MatchModel.Valid(r.e.m)
    ensures MatchModel.Valid(x.run.e.m)
    ensures r.e.phase != MatchRunning || Invalidation(text) ==> x == Noticed(r, None)
    ensures x.run.e.gui == r.e.gui && x.run.e.phase == r.e.phase
  {
    if r.e.phase != MatchRunning || Invalidation(text) then Noticed(r, None)
    else
      var shown := Run(r.e, r.out + [GuiRaised, Infobox(text)]);
      match Parse(text)
      case Fainted(side, name) => OnFaint(shown, side, name, now)
      case Dragged(side, name) => OnDrag(shown, side, name)
      case Other => Noticed(Run(r.e.(m := MatchModel.UpdateWinningChecker(r.e.m, now)), shown.out), None)
  }

  /** Case 1: the side's Pokémon of that name (or its active one) dies,
      and that side's next action is expected because of a faint. */
  function OnFaint(r: Run, side: Side, name: string, now: int): (x: Noticed)
    requires MatchModel.Valid(r.e.m)
    ensures MatchModel.Valid(x.run.e.m)
    ensures x.err.Some? <==> |r.e.m.TeamOf(side).pkmn| == 0
    ensures x.err.Some? ==> x.run == r
    ensures x.run.e.gui == r.e.gui && x.run.e.phase == r.e.phase
    ensures x.err.None? ==>
      var i := MatchModel.FaintTarget(r.e.m.TeamOf(side), name);
      && x.run.out == r.out + [Died(side, i)]
      && x.run.e == r.e.(m := x.run.e.m).WithCause(side, States.Faint)
      && x.run.e.m.TeamOf(side).alive == r.e.m.TeamOf(side).alive[i := false]
      && x.run.e.m.TeamOf(Invert(side)) == r.e.m.TeamOf(Invert(side))
  {
    match MatchModel.Fainted(r.e.m, side, name, now)
    case Err(err) => Noticed(r, Some(err))
    case Ok(step) =>
      var a := Absorb(Run(r.e.(m := step.m), r.out), step.events);
      assert a == Run(r.e.(m := step.m), r.out + [Died(side, step.events[0].monindex)]);
      Noticed(Run(a.e.WithCause(side, States.Faint), a.out), None)
  }

  /** Case 2: the named Pokémon was switched in by Roar or Whirlwind, and
      the switch is reported like any other. */
  function OnDrag(r: Run, side: Side, name: string): (x: Noticed)
    requires MatchModel.Valid(r.e.m)
    ensures MatchModel.Valid(x.run.e.m)
    ensures x.err.Some? <==> MatchModel.DraggedOut(r.e.m, side, name).Err?
    ensures x.err.Some? ==> x.run == r
    ensures x.run.e.gui == r.e.gui && x.run.e.phase == r.e.phase
    ensures x.err.None? ==>
      var j := x.run.e.m.TeamOf(side).current;
      && x.run.e.m == MatchModel.DraggedOut(r.e.m, side, name).value.m
      && x.run.out == r.out + [SwitchedOut(side, j, r.e.ObjOf(side))]
      && x.run.e == r.e.(m := x.run.e.m).WithObj(side, None)
  {
    match MatchModel.DraggedOut(r.e.m, side, name)
    case Err(err) => Noticed(r, Some(err))
    case Ok(step) =>
      var s := Run(r.e.(m := step.m), r.out);
      var a := NotifySwitch(s, side, step.events[0].monindex);
      assert step.events[1..] == [];
      assert Absorb(s, step.events) == Absorb(a, []);
      Noticed(Absorb(s, step.events), None)
  }

  /** A text outside a running match, or an invalidation (`##`), is
      ignored; any other is reported, and what follows depends only on what
      `Parse` finds in it. */
  lemma InfoFollowsParse(r: Run, text: string, now: int)
    requires MatchModel.Valid(r.e.m) && r.e.phase == MatchRunning && !Invalidation(text)
    ensures var x := DistinguishInfo(r, text, now);
      var shown := Run(r.e, r.out + [GuiRaised, Infobox(text)]);
      && (Parse(text).Other? ==>
            x == Noticed(Run(r.e.(m := MatchModel.UpdateWinningChecker(r.e.m, now)), shown.out), None))
      && (Parse(text).Fainted? ==> x == OnFaint(shown, Parse(text).side, Parse(text).name, now))
      && (Parse(text).Dragged? ==> x == OnDrag(shown, Parse(text).side, Parse(text).name))
  {
  }

  /** The faint message of a Pokémon on the roster kills exactly that
      Pokémon, reports its death after the message, and marks a faint as
      the cause of its side's next action. */
  lemma FaintMessageKills(r: Run, side: Side, name: string, i: nat, now: int)
    requires MatchModel.Valid(r.e.m) && r.e.phase == MatchRunning
    requires IsName(name) && MatchModel.IndexByName(r.e.m.TeamOf(side).pkmn, name) == Some(i)
    ensures var text := Render(Fainted(side, name));
      var x := DistinguishInfo(r, text, now);
      && x.err.None?
      && x.run.out == r.out + [GuiRaised, Infobox(text), Died(side, i)]
      && x.run.e.m.TeamOf(side).alive == r.e.m.TeamOf(side).alive[i := false]
      && x.run.e.m.TeamOf(Invert(side)) == r.e.m.TeamOf(Invert(side))
      && x.run.e.CauseOf(side) == States.Faint && x.run.e.CauseOf(Invert(side)) == r.e.CauseOf(Invert(side))
  {
    var text := Render(Fainted(side, name));
    ParseRender(Fainted(side, name), false);
    RenderedShown(Fainted(side, name), "");
    assert text + "" == text;
  }

  /** The dragged-out message of a Pokémon on the roster switches exactly
      that Pokémon in and reports the switch after the message. */
  lemma DragMessageSwitches(r: Run, side: Side, name: string, j: nat, now: int)
    requires MatchModel.Valid(r.e.m) && r.e.phase == MatchRunning
    requires IsName(name) && MatchModel.IndexByName(r.e.m.TeamOf(side).pkmn, name) == Some(j)
    ensures var text := Render(Dragged(side, name));
      var x := DistinguishInfo(r, text, now);
      && x.err.None?
      && x.run.out == r.out + [GuiRaised, Infobox(text), SwitchedOut(side, j, r.e.ObjOf(side))]
      && x.run.e.m.TeamOf(side).current == j
      && x.run.e.ObjOf(side).None?
  {
    var text := Render(Dragged(side, name));
    ParseRender(Dragged(side, name), false);
    RenderedShown(Dragged(side, name), "");
    assert text + "" == text;
    InfoFollowsParse(r, text, now);
    DragOnRoster(Run(r.e, r.out + [GuiRaised, Infobox(text)]), side, name, j);
  }

  /** Case 2 for a name on the roster: that Pokémon is switched in. */
  lemma DragOnRoster(r: Run, side: Side, name: string, j: nat)
    requires MatchModel.Valid(r.e.m) && MatchModel.IndexByName(r.e.m.TeamOf(side).pkmn, name) == Some(j)
    ensures var x := OnDrag(r, side, name);
      && x.err.None?
      && x.run.out == r.out + [SwitchedOut(side, j, r.e.ObjOf(side))]
      && x.run.e.m.TeamOf(side).current == j
      && x.run.e.ObjOf(side).None?
  {
    assert MatchModel.DraggedOut(r.e.m, side, name).value == MatchModel.Switched(r.e.m, side, j);
  }
}
