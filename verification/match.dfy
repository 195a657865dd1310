/** The referee's match record (`pbrEngine/abstractions/match.py`): both
    rosters, which members are still alive, the active roster slot of each
    side, the roster-slot to button mapping used in the switch menu, the
    chosen turn orders, the last move used and the pending delayed win
    check. Every mutator of the Python class becomes a pure function that
    returns the new record together with the events it fires. */
module MatchModel {
  import opened Util

  /** A roster entry; the referee only ever looks at the in-game name. */
  datatype Pkmn = Pkmn(ingamename: string)

  /** One side's part of the record. `buttons` is `map_blue`/`map_red`:
      `buttons[i]` is the button position through which roster slot `i`
      is selected in the switch menu. */
  datatype Team = Team(
    pkmn: seq<Pkmn>,
    alive: seq<bool>,
    current: nat,
    buttons: seq<int>,
    order: seq<int>)

  /** The argument of `on_win`: "blue", "red" or "draw". */
  datatype Outcome = Winner(side: Side) | Draw

  /** The events `on_death`, `on_switch` and `on_win`. */
  datatype Event =
    | Death(side: Side, monindex: nat)
    | Switch(side: Side, monindex: nat)
    | Win(outcome: Outcome)

  /** The exceptions the class raises. `NoSwitchTarget` is the IndexError of
      `get_switch_options(side)[0]` (or of deleting `current` from an empty
      list); `EmptyTeam` the IndexError of `alive[current]` on an empty
      roster; `EmptyOrder` the ValueError of `max([])`. */
  datatype MatchError =
    | DuplicateNames
    | EmptyOrder
    | OrderLengthMismatch
    | NotAnOrder
    | NoSwitchTarget
    | EmptyTeam
    | NoActiveSlot   // `del options[current]` past the end of the roster

  datatype Match = Match(
    blue: Team,
    red: Team,
    nextPkmn: int,
    lastMove: (Side, string),
    winCheckAt: Option<int>)
  {
    function TeamOf(side: Side): Team
    {
      if side == Blue then blue else red
    }

    function With(side: Side, t: Team): (m: Match)
      ensures m.TeamOf(side) == t && m.TeamOf(Invert(side)) == TeamOf(Invert(side))
      ensures m.nextPkmn == nextPkmn && m.lastMove == lastMove && m.winCheckAt == winCheckAt
    {
      if side == Blue then this.(blue := t) else this.(red := t)
    }
  }

  datatype Step = Step(m: Match, events: seq<Event>)

  /** Frames between the latest arming of the win check and its run
      (11 seconds at 60 frames per second). */
  const WinCheckDelay: int := 660

  /** The moves whose user faints by using them; compared lower-cased. */
  const SelfKoMoves: set<string> := {"explosion", "selfdestruct", "self-destruct"}

  /** The invariant every operation below keeps: per-side sequences agree
      in length, `current` is a roster slot, the button mapping and the
      turn order are permutations, and the active slot sits on button 0. */
  ghost predicate ValidTeam(t: Team)
  {
    var n := |t.pkmn|;
    && |t.alive| == n && |t.buttons| == n && |t.order| == n
    && (t.current < n || (n == 0 && t.current == 0))
    && multiset(t.buttons) == multiset(Iota(0, n))
    && (n > 0 ==> t.buttons[t.current] == 0)
    && IsPermutationOf(t.order, 1, n)
  }

  ghost predicate Valid(m: Match)
  {
    ValidTeam(m.blue) && ValidTeam(m.red)
  }

  /** Python's `not any(alive)`. */
  predicate NoneAlive(alive: seq<bool>)
  {
    forall i :: 0 <= i < |alive| ==> !alive[i]
  }

  function Names(ps: seq<Pkmn>): (r: seq<string>)
    ensures |r| == |ps| && forall i :: 0 <= i < |ps| ==> r[i] == ps[i].ingamename
  {
    seq(|ps|, i requires 0 <= i < |ps| => ps[i].ingamename)
  }

  ghost predicate SharedName(ps: seq<Pkmn>)
  {
    exists i, j :: 0 <= i < j < |ps| && ps[i].ingamename == ps[j].ingamename
  }

  /** A roster as `new` sets it up: everyone alive, slot 0 active, the
      identity button mapping and the identity order `[1..n]`. */
  function FreshTeam(ps: seq<Pkmn>): (t: Team)
    ensures ValidTeam(t) && t.pkmn == ps
  {
    var n := |ps|;
    var t := Team(ps, seq(n, _ => true), 0, Iota(0, n), Iota(1, n));
    assert n > 0 ==> t.buttons[0] == 0;
    assert Distinct(t.order);
    t
  }

  /** `Match.new`: fails exactly when two Pokémon of the two rosters share
      an in-game name; otherwise resets both sides. The last move and a
      pending win check are left as they were, as in the source. */
  function New(m: Match, blue: seq<Pkmn>, red: seq<Pkmn>): (r: Result<Match, MatchError>)
    ensures r.Err? <==> SharedName(blue + red)
    ensures r.Err? ==> r.error == DuplicateNames
    ensures r.Ok? ==> Valid(r.value)
    ensures r.Ok? ==> r.value.blue.pkmn == blue && r.value.red.pkmn == red
    ensures r.Ok? ==> forall side: Side ::
      var t := r.value.TeamOf(side);
      && (forall i :: 0 <= i < |t.alive| ==> t.alive[i])
      && t.current == 0
      && (forall i :: 0 <= i < |t.buttons| ==> t.buttons[i] == i)
      && (forall i :: 0 <= i < |t.order| ==> t.order[i] == i + 1)
    ensures r.Ok? ==> r.value.nextPkmn == -1
    ensures r.Ok? ==> r.value.lastMove == m.lastMove && r.value.winCheckAt == m.winCheckAt
  {
    var both := blue + red;
    var names := Names(both);
    ElemsCard(names);
    assert Distinct(names) <==> !SharedName(both);
    if |Elems(names)| < |names| then Err(DuplicateNames)
    else Ok(Match(FreshTeam(blue), FreshTeam(red), -1, m.lastMove, m.winCheckAt))
  }

  /** The match object after `new`, whether or not it raised: the rosters
      are stored before the name check, so on a clash they sit next to the
      old alive lists, active slots, button maps and orders. */
  function NewState(m: Match, blue: seq<Pkmn>, red: seq<Pkmn>): (m': Match)
    ensures m'.blue.pkmn == blue && m'.red.pkmn == red
    ensures m'.lastMove == m.lastMove && m'.winCheckAt == m.winCheckAt
    ensures !SharedName(blue + red) ==> Valid(m') && m'.nextPkmn == -1
    ensures SharedName(blue + red) ==>
      && m'.nextPkmn == m.nextPkmn
      && m'.blue == m.blue.(pkmn := blue) && m'.red == m.red.(pkmn := red)
  {
    match New(m, blue, red)
    case Ok(made) => made
    case Err(_) => m.(blue := m.blue.(pkmn := blue), red := m.red.(pkmn := red))
  }

  function Max(s: seq<int>): (r: int)
    requires |s| > 0
    ensures r in s && forall k :: 0 <= k < |s| ==> s[k] <= r
  {
    if |s| == 1 then s[0]
    else
      var m := Max(s[1..]);
      assert forall k :: 1 <= k < |s| ==> s[k] == s[1..][k - 1];
      if s[0] >= m then s[0] else m
  }

  /** In an ordering of `1..n` the largest entry is `n`. */
  lemma PermutationTop(order: seq<int>, n: nat)
    ensures |order| > 0 && IsPermutationOf(order, 1, n) ==> Max(order) == n
  {
    if |order| > 0 && IsPermutationOf(order, 1, n) {
      PermutationIff(order, 1, n);
      IotaMembers(1, n, n);
      assert n in multiset(Iota(1, n));
    }
  }

  datatype Verdict = Accepted | Rejected(why: MatchError)

  /** `_checkOrder(order, n)`: `max(order)` must be `n` (and `max` of an
      empty list raises), then `sorted(order)` must be `[1..n]`; comparing
      sorted lists is comparing multisets. Accepts exactly the orderings of
      `1..n`, for `n >= 1`. */
  function CheckOrder(order: seq<int>, n: nat): (r: Verdict)
    ensures r.Accepted? <==> n >= 1 && IsPermutationOf(order, 1, n)
    ensures |order| == 0 ==> r == Rejected(EmptyOrder)
    ensures |order| > 0 && n !in order ==> r == Rejected(OrderLengthMismatch)
  {
    PermutationIff(order, 1, n);
    if |order| == 0 then Rejected(EmptyOrder)
    else if Max(order) != n then
      PermutationTop(order, n);
      Rejected(OrderLengthMismatch)
    else if multiset(order) != multiset(Iota(1, n)) then Rejected(NotAnOrder)
    else Accepted
  }

  /** The `order_blue`/`order_red` setters: check against the roster size,
      then store. */
  function SetOrder(m: Match, side: Side, order: seq<int>): (r: Result<Match, MatchError>)
    requires Valid(m)
    ensures r.Ok? <==> |m.TeamOf(side).pkmn| >= 1 && IsPermutationOf(order, 1, |m.TeamOf(side).pkmn|)
    ensures r.Ok? ==> Valid(r.value) && r.value == m.With(side, m.TeamOf(side).(order := order))
  {
    var t := m.TeamOf(side);
    match CheckOrder(order, |t.pkmn|)
    case Rejected(why) => Err(why)
    case Accepted =>
      PermutationIff(order, 1, |t.pkmn|);
      Ok(m.With(side, t.(order := order)))
  }

  /** `apply_order`: slot `k` of the new roster holds the old
      `pkmn[order[k]-1]`, on both sides; nothing else changes. */
  function ApplyOrder(m: Match): (r: Match)
    requires Valid(m)
    ensures Valid(r)
    ensures forall side: Side :: |r.TeamOf(side).pkmn| == |m.TeamOf(side).pkmn|
    ensures forall side: Side, k :: 0 <= k < |m.TeamOf(side).order| ==>
      r.TeamOf(side).pkmn[k] == m.TeamOf(side).pkmn[m.TeamOf(side).order[k] - 1]
    ensures forall side: Side ::
      multiset(r.TeamOf(side).pkmn) == multiset(m.TeamOf(side).pkmn)
    ensures forall side: Side ::
      r.TeamOf(side) == m.TeamOf(side).(pkmn := r.TeamOf(side).pkmn)
    ensures r.nextPkmn == m.nextPkmn && r.lastMove == m.lastMove && r.winCheckAt == m.winCheckAt
  {
    var b := ApplyTeamOrder(m.blue);
    var d := ApplyTeamOrder(m.red);
    m.(blue := b, red := d)
  }

  function ApplyTeamOrder(t: Team): (r: Team)
    requires ValidTeam(t)
    ensures ValidTeam(r) && r == t.(pkmn := r.pkmn)
    ensures |r.pkmn| == |t.pkmn|
    ensures forall k :: 0 <= k < |r.pkmn| ==> r.pkmn[k] == t.pkmn[t.order[k] - 1]
    ensures multiset(r.pkmn) == multiset(t.pkmn)
  {
    PickPermutes(t.pkmn, t.order);
    t.(pkmn := Pick(t.pkmn, t.order))
  }

  /** The options from slot `k` onward, in increasing order. */
  function OptionsFrom(alive: seq<bool>, current: nat, k: nat): (r: seq<nat>)
    requires k <= |alive|
    ensures forall i: int :: i in r <==> k <= i < |alive| && alive[i] && i != current
    ensures forall a, b :: 0 <= a < b < |r| ==> r[a] < r[b]
    decreases |alive| - k
  {
    if k == |alive| then []
    else
      var rest := OptionsFrom(alive, current, k + 1);
      assert forall x: int :: x in rest ==> x > k;
      if alive[k] && k != current then
        var r := [k] + rest;
        assert forall b :: 0 < b < |r| ==> r[b] == rest[b - 1] && rest[b - 1] in rest;
        r
      else rest
  }

  /** The list `get_switch_options(side)` builds once entry `current` is
      deleted: the living roster slots other than the active one, in
      increasing order. */
  function SwitchOptions(m: Match, side: Side): (r: seq<nat>)
    ensures forall i: int :: i in r <==>
      0 <= i < |m.TeamOf(side).alive| && m.TeamOf(side).alive[i] && i != m.TeamOf(side).current
    ensures forall a, b :: 0 <= a < b < |r| ==> r[a] < r[b]
  {
    var t := m.TeamOf(side);
    OptionsFrom(t.alive, t.current, 0)
  }

  /** `get_switch_options(side)`: the `del` raises an IndexError when the
      active slot is not a roster index, which covers every empty roster. */
  function GetSwitchOptions(m: Match, side: Side): (r: Result<seq<nat>, MatchError>)
    ensures r.Err? <==> m.TeamOf(side).current >= |m.TeamOf(side).alive|
    ensures r.Err? ==> r.error == NoActiveSlot
    ensures |m.TeamOf(side).alive| == 0 ==> r.Err?
    ensures r.Ok? ==> forall i: int :: i in r.value <==>
      0 <= i < |m.TeamOf(side).alive| && m.TeamOf(side).alive[i] && i != m.TeamOf(side).current
  {
    var t := m.TeamOf(side);
    if t.current >= |t.alive| then Err(NoActiveSlot) else Ok(SwitchOptions(m, side))
  }

  /** `get_pkmn_index_by_name`: the first roster slot with that name. */
  function IndexByName(ps: seq<Pkmn>, name: string): (r: Option<nat>)
    ensures r.Some? ==> r.value < |ps| && ps[r.value].ingamename == name
    ensures r.Some? ==> forall j :: 0 <= j < r.value ==> ps[j].ingamename != name
    ensures r.None? <==> forall j :: 0 <= j < |ps| ==> ps[j].ingamename != name
  {
    if ps == [] then None
    else if ps[0].ingamename == name then Some(0)
    else
      match IndexByName(ps[1..], name)
      case None =>
        assert forall j :: 1 <= j < |ps| ==> ps[j] == ps[1..][j - 1];
        None
      case Some(i) => Some(i + 1)
  }

  /** `update_winning_checker`: arms the delayed win check, replacing any
      pending one, when some side has no living member. */
  function UpdateWinningChecker(m: Match, now: int): (r: Match)
    ensures r == m.(winCheckAt := r.winCheckAt)
    ensures (NoneAlive(m.blue.alive) || NoneAlive(m.red.alive)) ==> r.winCheckAt == Some(now + WinCheckDelay)
    ensures !(NoneAlive(m.blue.alive) || NoneAlive(m.red.alive)) ==> r.winCheckAt == m.winCheckAt
  {
    if !NoneAlive(m.blue.alive) && !NoneAlive(m.red.alive) then m
    else m.(winCheckAt := Some(now + WinCheckDelay))
  }

  /** The slot `fainted` marks: the first slot with that name, or the
      active slot when the name is not on the roster. */
  function FaintTarget(t: Team, name: string): nat
  {
    match IndexByName(t.pkmn, name)
    case Some(i) => i
    case None => t.current
  }

  /** `fainted(side, name)`: clears exactly one alive flag, fires one death
      event, then re-arms the win check if a side is wiped out. */
  function Fainted(m: Match, side: Side, name: string, now: int): (r: Result<Step, MatchError>)
    requires Valid(m)
    ensures r.Err? <==> |m.TeamOf(side).pkmn| == 0
    ensures r.Ok? ==>
      var t := m.TeamOf(side);
      var i := FaintTarget(t, name);
      var m' := r.value.m;
      && i < |t.alive|
      && (IndexByName(t.pkmn, name).None? ==> i == t.current)
      && m'.TeamOf(side) == t.(alive := t.alive[i := false])
      && m'.TeamOf(Invert(side)) == m.TeamOf(Invert(side))
      && m'.nextPkmn == m.nextPkmn && m'.lastMove == m.lastMove
      && r.value.events == [Death(side, i)]
      && Valid(m')
      && m' == UpdateWinningChecker(m'.(winCheckAt := m.winCheckAt), now)
  {
    var t := m.TeamOf(side);
    if |t.pkmn| == 0 then Err(EmptyTeam)
    else
      var i := FaintTarget(t, name);
      var m1 := m.With(side, t.(alive := t.alive[i := false]));
      Ok(Step(UpdateWinningChecker(m1, now), [Death(side, i)]))
  }

  /** `switched(side, j)`: swaps the buttons of the active slot and `j`,
      makes `j` active and fires one switch event. */
  function Switched(m: Match, side: Side, j: nat): (r: Step)
    requires Valid(m) && j < |m.TeamOf(side).pkmn|
    ensures Valid(r.m)
    ensures
      var t := m.TeamOf(side);
      && r.m.TeamOf(side) == t.(current := j, buttons := Swap(t.buttons, t.current, j))
      && r.m.TeamOf(Invert(side)) == m.TeamOf(Invert(side))
      && r.m.nextPkmn == m.nextPkmn && r.m.lastMove == m.lastMove && r.m.winCheckAt == m.winCheckAt
    ensures r.m.TeamOf(side).current == j && r.m.TeamOf(side).buttons[j] == 0
    ensures r.events == [Switch(side, j)]
  {
    var t := m.TeamOf(side);
    var t' := t.(current := j, buttons := Swap(t.buttons, t.current, j));
    Step(m.With(side, t'), [Switch(side, j)])
  }

  /** `draggedOut(side, name)`: a switch the menu flow did not see; an
      unknown name falls back to the lowest switch option. */
  function DraggedOut(m: Match, side: Side, name: string): (r: Result<Step, MatchError>)
    requires Valid(m)
    ensures r.Err? <==>
      IndexByName(m.TeamOf(side).pkmn, name).None? &&
      forall i :: 0 <= i < |m.TeamOf(side).alive| ==>
        !m.TeamOf(side).alive[i] || i == m.TeamOf(side).current
    ensures r.Ok? ==> exists j :: 0 <= j < |m.TeamOf(side).pkmn| && r.value == Switched(m, side, j)
    ensures r.Ok? && IndexByName(m.TeamOf(side).pkmn, name).Some? ==>
      r.value == Switched(m, side, IndexByName(m.TeamOf(side).pkmn, name).value)
    ensures r.Ok? && IndexByName(m.TeamOf(side).pkmn, name).None? ==>
      var t := m.TeamOf(side);
      var j := r.value.m.TeamOf(side).current;
      && t.alive[j] && j != t.current
      && forall i :: 0 <= i < j && t.alive[i] ==> i == t.current
  {
    var t := m.TeamOf(side);
    match IndexByName(t.pkmn, name)
    case Some(i) => Ok(Switched(m, side, i))
    case None =>
      if |t.pkmn| == 0 then Err(NoSwitchTarget)
      else
        var options := SwitchOptions(m, side);
        if options == [] then Err(NoSwitchTarget)
        else
          assert options[0] in options;
          assert forall i :: 0 <= i < options[0] && t.alive[i] && i != t.current ==> i in options && false;
          Ok(Switched(m, side, options[0]))
  }

  /** `checkWinner`: who won once the delayed check runs. */
  function CheckWinner(m: Match): (r: Outcome)
    ensures r == Draw ==> NoneAlive(m.blue.alive) && NoneAlive(m.red.alive)
    ensures !NoneAlive(m.blue.alive) ==> r == Winner(Blue)
    ensures NoneAlive(m.blue.alive) && !NoneAlive(m.red.alive) ==> r == Winner(Red)
    ensures NoneAlive(m.blue.alive) && NoneAlive(m.red.alive) ==>
      (r == Winner(Invert(m.lastMove.0)) <==> Lower(m.lastMove.1) in SelfKoMoves)
    ensures NoneAlive(m.blue.alive) && NoneAlive(m.red.alive) && Lower(m.lastMove.1) !in SelfKoMoves ==> r == Draw
  {
    var deadBlue := NoneAlive(m.blue.alive);
    var deadRed := NoneAlive(m.red.alive);
    if deadBlue && deadRed then
      if Lower(m.lastMove.1) in SelfKoMoves then Winner(Invert(m.lastMove.0)) else Draw
    else if deadBlue then Winner(Red)
    else Winner(Blue)
  }

  /** The frame-counter side of `spawn_later(660, checkWinner)`: once the
      frame count reaches the pending deadline the check runs exactly once
      and is no longer pending. */
  function FireWinCheck(m: Match, now: int): (r: Step)
    ensures r.m == m.(winCheckAt := r.m.winCheckAt)
    ensures (m.winCheckAt.Some? && now >= m.winCheckAt.value) ==>
      r.m.winCheckAt.None? && r.events == [Win(CheckWinner(m))]
    ensures !(m.winCheckAt.Some? && now >= m.winCheckAt.value) ==> r == Step(m, [])
  {
    match m.winCheckAt
    case Some(d) => if now >= d then Step(m.(winCheckAt := None), [Win(CheckWinner(m))]) else Step(m, [])
    case None => Step(m, [])
  }

  /** `setLastMove`. */
  function SetLastMove(m: Match, side: Side, move: string): (r: Match)
    ensures r.lastMove == (side, move) && r == m.(lastMove := r.lastMove)
  {
    m.(lastMove := (side, move))
  }
}
