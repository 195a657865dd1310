/** Properties of the match record that relate several operations: the
    debounced win check seen over a run of frames, the switch-mapping
    invariant over any sequence of switches, and the outcome of concrete
    three-against-three matches. */
module MatchFacts {
  import opened Util
  import opened MatchModel

  /** Runs the frame-driven win-check timer over the `k` frames
      `now .. now+k-1`, collecting what it fires. */
  function RunFrames(m: Match, now: int, k: nat): (r: Step)
    ensures r.m == m.(winCheckAt := r.m.winCheckAt)
    decreases k
  {
    if k == 0 then Step(m, [])
    else
      var s := FireWinCheck(m, now);
      var rest := RunFrames(s.m, now + 1, k - 1);
      Step(rest.m, s.events + rest.events)
  }

  /** No deadline inside the window: nothing fires and nothing changes. */
  lemma {:induction false} RunFramesQuiet(m: Match, now: int, k: nat)
    requires m.winCheckAt.None? || m.winCheckAt.value >= now + k
    ensures RunFrames(m, now, k) == Step(m, [])
    decreases k
  {
    if k > 0 {
      RunFramesQuiet(m, now + 1, k - 1);
    }
  }

  /** A deadline inside the window fires the check exactly once, with the
      verdict of the record as it stands, and leaves nothing pending. */
  lemma {:induction false} RunFramesFiresOnce(m: Match, now: int, k: nat)
    requires k > 0 && m.winCheckAt.Some? && m.winCheckAt.value < now + k
    ensures RunFrames(m, now, k).events == [Win(CheckWinner(m))]
    ensures RunFrames(m, now, k).m.winCheckAt.None?
    decreases k
  {
    if now >= m.winCheckAt.value {
      var s := FireWinCheck(m, now);
      RunFramesQuiet(s.m, now + 1, k - 1);
      assert CheckWinner(s.m) == CheckWinner(m);
    } else {
      RunFramesFiresOnce(m, now + 1, k - 1);
    }
  }

  ghost predicate Wiped(m: Match)
  {
    NoneAlive(m.blue.alive) || NoneAlive(m.red.alive)
  }

  /** A faint never brings a side back. */
  lemma FaintKeepsWiped(m: Match, side: Side, name: string, now: int)
    requires Valid(m) && |m.TeamOf(side).pkmn| > 0 && Wiped(m)
    ensures Wiped(Fainted(m, side, name, now).value.m)
  {
    var m' := Fainted(m, side, name, now).value.m;
    var t := m.TeamOf(side);
    var i := FaintTarget(t, name);
    assert m'.TeamOf(side).alive == t.alive[i := false];
    if NoneAlive(m.blue.alive) {
      assert forall k :: 0 <= k < |m'.blue.alive| ==> !m'.blue.alive[k] by {
        if side == Blue {
          assert m'.blue.alive == m.blue.alive[i := false];
        } else {
          assert m'.blue == m.blue;
        }
      }
    } else {
      assert forall k :: 0 <= k < |m'.red.alive| ==> !m'.red.alive[k] by {
        if side == Red {
          assert m'.red.alive == m.red.alive[i := false];
        } else {
          assert m'.red == m.red;
        }
      }
    }
  }

  /** Two faints less than 660 frames apart, with the timer ticking in
      between and afterwards: no verdict is fired before the second faint's
      deadline, and over the 661 frames from the second faint exactly one
      verdict is fired when a side is wiped out (none otherwise). */
  lemma DebouncedFaints(m: Match, s1: Side, n1: string, s2: Side, n2: string, t1: int, t2: int)
    requires Valid(m) && m.winCheckAt.None?
    requires |m.blue.pkmn| > 0 && |m.red.pkmn| > 0
    requires t1 <= t2 < t1 + WinCheckDelay
    ensures
      var a := Fainted(m, s1, n1, t1).value;
      var idle := RunFrames(a.m, t1, t2 - t1);
      var b := Fainted(idle.m, s2, n2, t2).value;
      && idle.events == []
      && RunFrames(b.m, t2, WinCheckDelay as nat).events == []
      && RunFrames(b.m, t2, WinCheckDelay as nat + 1).events ==
           (if Wiped(b.m) then [Win(CheckWinner(b.m))] else [])
  {
    var a := Fainted(m, s1, n1, t1).value;
    assert |m.TeamOf(s1).pkmn| > 0;
    RunFramesQuiet(a.m, t1, t2 - t1);
    var idle := RunFrames(a.m, t1, t2 - t1);
    assert idle.m == a.m;
    assert |idle.m.TeamOf(s2).pkmn| > 0 by {
      assert idle.m.blue.pkmn == m.blue.pkmn && idle.m.red.pkmn == m.red.pkmn;
    }
    var b := Fainted(idle.m, s2, n2, t2).value;
    if Wiped(b.m) {
      assert b.m.winCheckAt == Some(t2 + WinCheckDelay);
      RunFramesQuiet(b.m, t2, WinCheckDelay as nat);
      RunFramesFiresOnce(b.m, t2, WinCheckDelay as nat + 1);
    } else {
      if Wiped(a.m) {
        FaintKeepsWiped(idle.m, s2, n2, t2);
      }
      assert b.m.winCheckAt.None?;
      RunFramesQuiet(b.m, t2, WinCheckDelay as nat);
      RunFramesQuiet(b.m, t2, WinCheckDelay as nat + 1);
    }
  }

  /** Applies a sequence of switches `(side, slot)`. */
  function Replay(m: Match, switches: seq<(Side, nat)>): (r: Match)
    requires Valid(m)
    requires forall k :: 0 <= k < |switches| ==> switches[k].1 < |m.TeamOf(switches[k].0).pkmn|
    ensures Valid(r)
    ensures r.blue.pkmn == m.blue.pkmn && r.red.pkmn == m.red.pkmn
    ensures r.blue.alive == m.blue.alive && r.red.alive == m.red.alive
    decreases |switches|
  {
    if switches == [] then m
    else
      var s := Switched(m, switches[0].0, switches[0].1).m;
      assert s.blue.pkmn == m.blue.pkmn && s.red.pkmn == m.red.pkmn;
      Replay(s, switches[1..])
  }

  /** After any sequence of switches both button maps are still orderings
      of the roster slots, and the active slot is on button 0. */
  lemma SwitchesKeepButtonMaps(m: Match, switches: seq<(Side, nat)>)
    requires Valid(m)
    requires forall k :: 0 <= k < |switches| ==> switches[k].1 < |m.TeamOf(switches[k].0).pkmn|
    ensures forall side: Side ::
      var t := Replay(m, switches).TeamOf(side);
      && multiset(t.buttons) == multiset(Iota(0, |t.pkmn|))
      && IsPermutationOf(t.buttons, 0, |t.pkmn|)
      && (|t.pkmn| > 0 ==> t.buttons[t.current] == 0)
  {
    var r := Replay(m, switches);
    PermutationIff(r.blue.buttons, 0, |r.blue.pkmn|);
    PermutationIff(r.red.buttons, 0, |r.red.pkmn|);
    assert r.TeamOf(Blue) == r.blue && r.TeamOf(Red) == r.red;
  }

  /** A switch to one of the offered targets leaves a living Pokémon
      active. */
  lemma SwitchToOptionIsAlive(m: Match, side: Side, j: nat)
    requires Valid(m) && m.TeamOf(side).current < |m.TeamOf(side).alive|
    requires j in SwitchOptions(m, side)
    ensures j < |m.TeamOf(side).pkmn|
    ensures var t := Switched(m, side, j).m.TeamOf(side); t.alive[t.current]
  {
  }

  /** The rosters used in the scenarios below. */
  const BlueRoster: seq<Pkmn> := [Pkmn("Foo"), Pkmn("Bar"), Pkmn("Baz")]
  const RedRoster: seq<Pkmn> := [Pkmn("Qux"), Pkmn("Quux"), Pkmn("Corge")]
  const Blank: Match := Match(FreshTeam([]), FreshTeam([]), -1, (Blue, ""), None)

  /** Faints the given names of one side in turn, all at frame `now`. */
  function FaintAll(m: Match, side: Side, names: seq<string>, now: int): (r: Result<Match, MatchError>)
    requires Valid(m)
    ensures r.Ok? ==> Valid(r.value)
    ensures r.Ok? ==> r.value.TeamOf(Invert(side)) == m.TeamOf(Invert(side))
    ensures r.Ok? ==> r.value.lastMove == m.lastMove
    ensures r.Ok? ==> r.value.TeamOf(side) == m.TeamOf(side).(alive := r.value.TeamOf(side).alive)
    decreases |names|
  {
    if names == [] then Ok(m)
    else
      var s :- Fainted(m, side, names[0], now);
      FaintAll(s.m, side, names[1..], now)
  }

  /** A fresh three-against-three match accepts both rosters, and the
      text "Team Blue's Bar fainted!" clears blue slot 1 only and fires a
      death event for blue slot 1. */
  lemma FreshMatchFaint()
    ensures New(Blank, BlueRoster, RedRoster).Ok?
    ensures
      var m := New(Blank, BlueRoster, RedRoster).value;
      var r := Fainted(m, Blue, "Bar", 100);
      && r.Ok?
      && r.value.m.blue.alive == [true, false, true]
      && r.value.m.red.alive == [true, true, true]
      && r.value.events == [Death(Blue, 1)]
      && r.value.m.winCheckAt.None?
  {
    var both := BlueRoster + RedRoster;
    assert !SharedName(both) by {
      forall i, j | 0 <= i < j < |both| ensures both[i].ingamename != both[j].ingamename {
        assert both == [Pkmn("Foo"), Pkmn("Bar"), Pkmn("Baz"), Pkmn("Qux"), Pkmn("Quux"), Pkmn("Corge")];
      }
    }
    var m := New(Blank, BlueRoster, RedRoster).value;
    assert m.blue.pkmn[0].ingamename == "Foo" != "Bar";
    assert IndexByName(m.blue.pkmn, "Bar") == Some(1);
    var r := Fainted(m, Blue, "Bar", 100).value;
    assert m.blue.alive == [true, true, true] && m.red.alive == [true, true, true];
    assert r.m.blue.alive == [true, false, true];
    assert r.m.blue.alive[0] && r.m.red.alive[0];
    assert !NoneAlive(r.m.blue.alive) && !NoneAlive(r.m.red.alive);
  }

  /** Fainting all three blue Pokémon of a fresh match while red stays
      whole gives red the win when the delayed check fires. */
  lemma BlueWipedRedWins(now: int)
    ensures New(Blank, BlueRoster, RedRoster).Ok?
    ensures
      var m := New(Blank, BlueRoster, RedRoster).value;
      var r := FaintAll(m, Blue, ["Foo", "Bar", "Baz"], now);
      && r.Ok?
      && r.value.winCheckAt == Some(now + WinCheckDelay)
      && RunFrames(r.value, now, WinCheckDelay as nat + 1).events == [Win(Winner(Red))]
  {
    FreshMatchFaint();
    var m := New(Blank, BlueRoster, RedRoster).value;
    assert Names(m.blue.pkmn) == ["Foo", "Bar", "Baz"];
    assert m.blue.alive == [true, true, true];
    var r := WipeThree(m, Blue, "Foo", "Bar", "Baz", now);
    RunFramesFiresOnce(r, now, WinCheckDelay as nat + 1);
    assert r.red.alive == [true, true, true];
    assert r.red.alive[0];
  }

  /** A fresh match in which blue used `move` and then all six Pokémon
      fainted at frame `now`, blue first. */
  function WipeBoth(now: int, move: string): (r: Result<Match, MatchError>)
    ensures r.Ok? ==> Valid(r.value)
  {
    var m :- New(Blank, BlueRoster, RedRoster);
    var a :- FaintAll(SetLastMove(m, Blue, move), Blue, ["Foo", "Bar", "Baz"], now);
    FaintAll(a, Red, ["Qux", "Quux", "Corge"], now)
  }

  lemma BothWiped(now: int, move: string)
    ensures WipeBoth(now, move).Ok?
    ensures var b := WipeBoth(now, move).value;
      && NoneAlive(b.blue.alive) && NoneAlive(b.red.alive)
      && b.lastMove == (Blue, move) && b.winCheckAt == Some(now + WinCheckDelay)
  {
    FreshRosters(move);
    var m := SetLastMove(New(Blank, BlueRoster, RedRoster).value, Blue, move);
    var a := WipeThree(m, Blue, "Foo", "Bar", "Baz", now);
    var b := WipeThree(a, Red, "Qux", "Quux", "Corge", now);
  }

  lemma FreshRosters(move: string)
    ensures New(Blank, BlueRoster, RedRoster).Ok?
    ensures var m := SetLastMove(New(Blank, BlueRoster, RedRoster).value, Blue, move);
      && Valid(m)
      && Names(m.blue.pkmn) == ["Foo", "Bar", "Baz"] && m.blue.alive == [true, true, true]
      && Names(m.red.pkmn) == ["Qux", "Quux", "Corge"] && m.red.alive == [true, true, true]
  {
    FreshMatchFaint();
  }

  /** "Self-Destruct" lower-cases to one of the self-destructing moves,
      "Tackle" to none of them. */
  lemma SelfKoSpelling()
    ensures Lower("Self-Destruct") in SelfKoMoves
    ensures Lower("Tackle") !in SelfKoMoves
  {
    var sd := Lower("Self-Destruct");
    assert forall i | 0 <= i < 13 :: sd[i] == "self-destruct"[i];
    assert sd == "self-destruct";
    var tk := Lower("Tackle");
    assert tk[0] == 't';
    assert tk != "explosion" && tk != "selfdestruct" && tk != "self-destruct";
  }

  /** Both sides wiped out in the same window: a draw after an ordinary
      move, a loss for the user after "Self-Destruct". */
  lemma BothWipedOutcome(now: int)
    ensures WipeBoth(now, "Self-Destruct").Ok? && WipeBoth(now, "Tackle").Ok?
    ensures RunFrames(WipeBoth(now, "Self-Destruct").value, now, WinCheckDelay as nat + 1).events
      == [Win(Winner(Red))]
    ensures RunFrames(WipeBoth(now, "Tackle").value, now, WinCheckDelay as nat + 1).events
      == [Win(Draw)]
  {
    SelfKoSpelling();
    BothWiped(now, "Self-Destruct");
    RunFramesFiresOnce(WipeBoth(now, "Self-Destruct").value, now, WinCheckDelay as nat + 1);
    BothWiped(now, "Tackle");
    RunFramesFiresOnce(WipeBoth(now, "Tackle").value, now, WinCheckDelay as nat + 1);
  }

  /** One faint of a name found at slot `i`. */
  lemma FaintAt(m: Match, side: Side, name: string, i: nat, now: int) returns (r: Match)
    requires Valid(m) && i < |m.TeamOf(side).pkmn|
    requires m.TeamOf(side).pkmn[i].ingamename == name
    requires forall j :: 0 <= j < i ==> m.TeamOf(side).pkmn[j].ingamename != name
    ensures Fainted(m, side, name, now) == Ok(Step(r, [Death(side, i)]))
    ensures Valid(r)
    ensures r.TeamOf(side) == m.TeamOf(side).(alive := m.TeamOf(side).alive[i := false])
    ensures r.TeamOf(Invert(side)) == m.TeamOf(Invert(side))
    ensures r.lastMove == m.lastMove
    ensures NoneAlive(r.TeamOf(side).alive) ==> r.winCheckAt == Some(now + WinCheckDelay)
  {
    assert IndexByName(m.TeamOf(side).pkmn, name) == Some(i);
    r := Fainted(m, side, name, now).value.m;
    if NoneAlive(r.TeamOf(side).alive) {
      if side == Blue { assert NoneAlive(r.blue.alive); } else { assert NoneAlive(r.red.alive); }
    }
  }

  /** Fainting, in roster order, the three Pokémon of a side of three
      living members clears all its alive flags and arms the check at
      `now`. */
  lemma WipeThree(m: Match, side: Side, n0: string, n1: string, n2: string, now: int) returns (r: Match)
    requires Valid(m)
    requires Names(m.TeamOf(side).pkmn) == [n0, n1, n2] && n0 != n1 && n0 != n2 && n1 != n2
    ensures FaintAll(m, side, [n0, n1, n2], now) == Ok(r)
    ensures NoneAlive(r.TeamOf(side).alive)
    ensures r.TeamOf(Invert(side)) == m.TeamOf(Invert(side))
    ensures r.lastMove == m.lastMove
    ensures r.winCheckAt == Some(now + WinCheckDelay)
  {
    var ps := m.TeamOf(side).pkmn;
    assert ps[0].ingamename == n0 && ps[1].ingamename == n1 && ps[2].ingamename == n2;
    var a := FaintAt(m, side, n0, 0, now);
    var b := FaintAt(a, side, n1, 1, now);
    var c := FaintAt(b, side, n2, 2, now);
    assert !c.TeamOf(side).alive[0] && !c.TeamOf(side).alive[1] && !c.TeamOf(side).alive[2];
    FaintAllThree(m, side, n0, n1, n2, now, a, b, c);
    r := c;
  }

  lemma FaintAllThree(m: Match, side: Side, n0: string, n1: string, n2: string, now: int, a: Match, b: Match, c: Match)
    requires Valid(m)
    requires Fainted(m, side, n0, now) == Ok(Step(a, [Death(side, 0)])) && Valid(a)
    requires Fainted(a, side, n1, now) == Ok(Step(b, [Death(side, 1)])) && Valid(b)
    requires Fainted(b, side, n2, now) == Ok(Step(c, [Death(side, 2)]))
    ensures FaintAll(m, side, [n0, n1, n2], now) == Ok(c)
  {
    assert FaintAll(c, side, [], now) == Ok(c);
    assert FaintAll(b, side, [n2], now) == Ok(c) by {
      assert [n2][1..] == [];
    }
    assert FaintAll(a, side, [n1, n2], now) == Ok(c) by {
      assert [n1, n2][1..] == [n2];
    }
    assert [n0, n1, n2][1..] == [n1, n2];
  }
}
