/** Action selection during a match (`pbrEngine/engine.py`): the random
    fallback `_getRandomAction`, the legality and retry loop `_getAction`,
    the move-selection handler `_nextMove` and the attempt loop of
    `_nextPkmn`. The upper layer's action callback and `random.choice` are
    oracles; every call of the callback is recorded in the trace as an
    `Asked` entry carrying the arguments it was given. */
module Actions {
  import opened Util
  import opened States
  import opened EngineState
  import MatchModel

  /** The callback's answer on its `call`-th invocation within one
      `_getAction`, given the side, the fail counter, whether moves and
      switches are allowed, and the expected cause: the action tag as `str`
      renders it, and the object handed back with the matching event. */
  type Callback = (Side, int, bool, bool, Cause, nat) -> (string, Option<int>)

  /** The index `random.choice` picks on the `call`-th retrieval. */
  type Chooser = nat -> nat

  datatype Action = Move(move: nat) | SwitchTo(slot: nat)

  datatype ActionError =
    | InvalidAction(tag: string)   // `ActionError`
    | NothingToChoose              // `random.choice([])`
    | NoDecision                   // no answer within the modelled number of retrievals
    | BadSlot(slot: int)           // the chosen slot is not a roster index
    | NoButtonFor(index: int)      // `pkmnIndexToButton` beyond its six buttons
    | NoActiveSlot                 // `get_switch_options` cannot delete the active slot

  const MoveTags: seq<string> := ["a", "b", "c", "d"]
  const SwitchTags: seq<string> := ["1", "2", "3", "4", "5", "6"]

  /** One of the move letters `a`..`d`. */
  predicate IsMoveTag(tag: string)
  {
    |tag| == 1 && 'a' <= tag[0] <= 'd'
  }

  /** One of the switch digits `1`..`6`. */
  predicate IsSwitchTag(tag: string)
  {
    |tag| == 1 && '1' <= tag[0] <= '6'
  }

  /** `ord(action) - ord('a')`. */
  function MoveOf(tag: string): (mv: nat)
    requires IsMoveTag(tag)
    ensures mv < 4
  {
    tag[0] as int - 'a' as int
  }

  /** `int(action) - 1`. */
  function SlotOf(tag: string): (s: nat)
    requires IsSwitchTag(tag)
    ensures s < 6
  {
    tag[0] as int - '1' as int
  }

  /** The tag predicates are membership in the source's tuples, and the
      index functions give each tag's position there. */
  lemma TagLists(tag: string)
    ensures IsMoveTag(tag) <==> tag in MoveTags
    ensures IsSwitchTag(tag) <==> tag in SwitchTags
    ensures IsMoveTag(tag) ==> MoveTags[MoveOf(tag)] == tag
    ensures IsSwitchTag(tag) ==> SwitchTags[SlotOf(tag)] == tag
  {
    if IsMoveTag(tag) {
      assert tag == [tag[0]];
      var c := tag[0];
      if c == 'a' { assert MoveTags[0] == tag; }
      else if c == 'b' { assert MoveTags[1] == tag; }
      else if c == 'c' { assert MoveTags[2] == tag; }
      else { assert MoveTags[3] == tag; }
    }
    if IsSwitchTag(tag) {
      assert tag == [tag[0]];
      var c := tag[0];
      if c == '1' { assert SwitchTags[0] == tag; }
      else if c == '2' { assert SwitchTags[1] == tag; }
      else if c == '3' { assert SwitchTags[2] == tag; }
      else if c == '4' { assert SwitchTags[3] == tag; }
      else if c == '5' { assert SwitchTags[4] == tag; }
      else { assert SwitchTags[5] == tag; }
    }
  }

  /** Above this many early opt-outs the callback is bypassed. */
  const StallLimit: int := 300

  /** `_getRandomAction`: only move letters when moves are allowed (the
      switch digits sit behind an `elif`), the six switch digits when only
      switching is, and nothing to choose from otherwise. */
  function GetRandomAction(moves: bool, switch: bool, pick: nat): (r: Option<string>)
    ensures r.None? <==> !moves && !switch
    ensures r.Some? && moves ==> IsMoveTag(r.value)
    ensures r.Some? && !moves ==> IsSwitchTag(r.value)
  {
    var actions := if moves then MoveTags else if switch then SwitchTags else [];
    if actions == [] then None
    else
      var k := pick % |actions|;
      TagLists(actions[k]);
      Some(actions[k])
  }

  /** Every tag of the offered list is a possible random choice. */
  lemma RandomChoiceCovers(moves: bool, switch: bool, k: nat)
    requires (moves && k < 4) || (!moves && switch && k < 6)
    ensures GetRandomAction(moves, switch, k) == Some(if moves then MoveTags[k] else SwitchTags[k])
  {
  }

  /** What one `_getAction` asks for and judges against: the side and the
      cause handed to the callback, which kinds of action are allowed, the
      blocked moves, whether `get_switch_options` succeeds for that side
      (`listed`), its options, and the side's active slot. */
  datatype Ask = Ask(
    side: Side,
    cause: Cause,
    moves: bool,
    switch: bool,
    blocked: seq<bool>,
    listed: bool,
    options: seq<nat>,
    current: nat)

  /** The actions `_getAction` may return: an unblocked move when moves are
      allowed, or, when switches are, a switch option, or the active slot
      when there is no option at all. */
  predicate Legal(q: Ask, a: Action)
    requires |q.blocked| == 4
  {
    match a
    case Move(mv) => q.moves && mv < 4 && !q.blocked[mv]
    case SwitchTo(s) => q.switch && q.listed && (s in q.options || (q.options == [] && s == q.current))
  }

  /** What one retrieved tag leads to. */
  datatype Answer = Take(action: Action) | OptOut | Reject | Crash

  /** One pass of the loop body on the lower-cased tag. */
  function Judge(q: Ask, tag: string): (a: Answer)
    requires |q.blocked| == 4
    ensures a.Take? ==> Legal(q, a.action)
    ensures a == Reject <==> !(q.moves && IsMoveTag(tag)) && !(q.switch && IsSwitchTag(tag))
    ensures a == Crash <==> !(q.moves && IsMoveTag(tag)) && q.switch && IsSwitchTag(tag) && !q.listed
    ensures a.Take? && a.action.Move? ==> IsMoveTag(tag) && a.action.move == MoveOf(tag)
    ensures a.Take? && a.action.SwitchTo? && q.options != [] ==> IsSwitchTag(tag) && a.action.slot == SlotOf(tag)
    ensures a == OptOut <==>
      || (q.moves && IsMoveTag(tag) && q.blocked[MoveOf(tag)])
      || (!(q.moves && IsMoveTag(tag)) && q.switch && IsSwitchTag(tag) && q.listed && q.options != []
          && SlotOf(tag) !in q.options)
  {
    if q.moves && IsMoveTag(tag) then
      var mv := MoveOf(tag);
      if q.blocked[mv] then OptOut else Take(Move(mv))
    else if q.switch && IsSwitchTag(tag) then
      var selection := SlotOf(tag);
      if !q.listed then Crash
      else if q.options == [] then Take(SwitchTo(q.current))
      else if selection in q.options then Take(SwitchTo(selection))
      else OptOut
    else Reject
  }

  /** The end of the retrieval loop: the fail counter, the side's stored
      callback object, the callback calls made, the answer, and how many
      tags were retrieved. */
  datatype Decided = Decided(fails: int, obj: Option<int>, asked: seq<Out>, result: Result<Action, ActionError>, tries: nat)

  /** `asked` records callback calls for the question `q` only, with fail
      counts from `lo` up to the stall limit, each above the one before. */
  ghost predicate AskedFrom(asked: seq<Out>, q: Ask, lo: int)
  {
    && (forall k :: 0 <= k < |asked| ==>
          && asked[k].Asked?
          && asked[k] == Asked(q.side, asked[k].fails, q.moves, q.switch, q.cause)
          && lo <= asked[k].fails <= StallLimit)
    && (forall k :: 0 < k < |asked| ==> asked[k - 1].fails < asked[k].fails)
  }

  /** One retrieved answer: the tag, the object, and the callback call it
      took (none for a random choice). */
  datatype Retrieval = Retrieval(tag: string, obj: Option<int>, asked: seq<Out>)

  /** The head of the loop body: the callback's answer while the fail
      counter is at most the stall limit, a random tag (and no object)
      above it. */
  function Fetch(q: Ask, fails: int, cb: Callback, pick: Chooser, call: nat): (a: Result<Retrieval, ActionError>)
    ensures a.Err? ==> a.error == NothingToChoose && fails > StallLimit && !q.moves && !q.switch
    ensures a.Ok? && fails > StallLimit ==>
      a.value.asked == [] && a.value.obj.None? && (q.moves ==> IsMoveTag(a.value.tag))
    ensures a.Ok? && fails <= StallLimit ==>
      && a.value.asked == [Asked(q.side, fails, q.moves, q.switch, q.cause)]
      && (a.value.tag, a.value.obj) == cb(q.side, fails, q.moves, q.switch, q.cause, call)
  {
    if fails > StallLimit then
      match GetRandomAction(q.moves, q.switch, pick(call))
      case None => Err(NothingToChoose)
      case Some(tag) => Ok(Retrieval(tag, None, []))
    else
      var (tag, obj) := cb(q.side, fails, q.moves, q.switch, q.cause, call);
      Ok(Retrieval(tag, obj, [Asked(q.side, fails, q.moves, q.switch, q.cause)]))
  }

  /** The errors a retrieval loop may end with, and what each implies:
      an invalid tag fits none of the allowed kinds, and there is nothing
      to choose from only when neither kind is allowed. */
  predicate Explained(q: Ask, err: ActionError)
  {
    match err
    case InvalidAction(tag) => !(q.moves && IsMoveTag(tag)) && !(q.switch && IsSwitchTag(tag))
    case NothingToChoose => !q.moves && !q.switch
    case NoDecision => true
    case BadSlot(_) => false
    case NoButtonFor(_) => false
    case NoActiveSlot => q.switch && !q.listed
  }

  /** The retrieval loop of `_getAction` from its `call`-th pass on, with
      fail counter `fails`, stored object `obj`, and at most `fuel` passes
      left. Every early opt-out adds exactly one to the counter. */
  function Retrieve(q: Ask, fails: int, obj: Option<int>, cb: Callback, pick: Chooser, call: nat, fuel: nat): (d: Decided)
    requires |q.blocked| == 4
    ensures d.tries <= fuel
    ensures d.result == Err(NoDecision) ==> d.tries == fuel && d.fails == fails + d.tries
    ensures d.result != Err(NoDecision) ==> d.tries >= 1 && d.fails == fails + d.tries - 1
    ensures d.result.Ok? ==> Legal(q, d.result.value)
    ensures d.result.Err? ==> Explained(q, d.result.error)
    decreases fuel
  {
    if fuel == 0 then Decided(fails, obj, [], Err(NoDecision), 0)
    else
      match Fetch(q, fails, cb, pick, call)
      case Err(err) => Decided(fails, obj, [], Err(err), 1)
      case Ok(got) =>
        var tag := Lower(got.tag);
        match Judge(q, tag)
        case Take(a) => Decided(fails, got.obj, got.asked, Ok(a), 1)
        case Reject => Decided(fails, got.obj, got.asked, Err(InvalidAction(tag)), 1)
        case Crash => Decided(fails, got.obj, got.asked, Err(NoActiveSlot), 1)
        case OptOut =>
          var d := Retrieve(q, fails + 1, got.obj, cb, pick, call + 1, fuel - 1);
          Decided(d.fails, d.obj, got.asked + d.asked, d.result, d.tries + 1)
  }

  /** The callback is asked once per pass while the counter is at most the
      stall limit, with that pass's counter value, and never beyond it. */
  lemma {:induction false} RetrieveAsks(q: Ask, fails: int, obj: Option<int>, cb: Callback, pick: Chooser, call: nat, fuel: nat)
    requires |q.blocked| == 4
    ensures var d := Retrieve(q, fails, obj, cb, pick, call, fuel);
      && AskedFrom(d.asked, q, fails)
      && (fails > StallLimit ==> d.asked == [] && (d.obj == obj || d.obj.None?))
    decreases fuel
  {
    if fuel > 0 {
      var f := Fetch(q, fails, cb, pick, call);
      RetrieveStep(q, fails, obj, cb, pick, call, fuel);
      if f.Ok? && Judge(q, Lower(f.value.tag)) == OptOut {
        var got := f.value;
        RetrieveAsks(q, fails + 1, got.obj, cb, pick, call + 1, fuel - 1);
        var d := Retrieve(q, fails + 1, got.obj, cb, pick, call + 1, fuel - 1);
        AskedFromCons(got.asked, d.asked, q, fails);
      }
    }
  }

  /** One pass of the retrieval loop: what it records and stores, by
      whether the fetch failed, the answer ended the loop, or it opted out. */
  lemma RetrieveStep(q: Ask, fails: int, obj: Option<int>, cb: Callback, pick: Chooser, call: nat, fuel: nat)
    requires |q.blocked| == 4 && fuel > 0
    ensures var f := Fetch(q, fails, cb, pick, call);
      var d := Retrieve(q, fails, obj, cb, pick, call, fuel);
      && (f.Err? ==> d.asked == [] && d.obj == obj)
      && (f.Ok? && Judge(q, Lower(f.value.tag)) != OptOut ==> d.asked == f.value.asked && d.obj == f.value.obj)
      && (f.Ok? && Judge(q, Lower(f.value.tag)) == OptOut ==>
            var rest := Retrieve(q, fails + 1, f.value.obj, cb, pick, call + 1, fuel - 1);
            d.asked == f.value.asked + rest.asked && d.obj == rest.obj)
  {
  }

  /** One pass's call (or none) in front of the later passes' calls. */
  lemma AskedFromCons(head: seq<Out>, rest: seq<Out>, q: Ask, fails: int)
    requires head == [] || (head == [Asked(q.side, fails, q.moves, q.switch, q.cause)] && fails <= StallLimit)
    requires AskedFrom(rest, q, fails + 1)
    ensures AskedFrom(head + rest, q, fails)
  {
    if head != [] {
      var all := head + rest;
      assert forall k :: 1 <= k < |all| ==> all[k] == rest[k - 1];
    }
  }

  /** The question `_getAction` puts for the side whose turn it is. */
  function AskFor(e: Engine, moves: bool, switch: bool): (q: Ask)
    ensures q.side == e.Turn() && q.cause == e.CauseOf(e.Turn())
    ensures q.blocked == e.movesBlocked
    ensures q.listed <==> MatchModel.GetSwitchOptions(e.m, q.side).Ok?
    ensures q.listed ==> forall i: int :: i in q.options <==>
      0 <= i < |e.m.TeamOf(q.side).alive| && e.m.TeamOf(q.side).alive[i] && i != e.m.TeamOf(q.side).current
  {
    var side := e.Turn();
    var options := MatchModel.GetSwitchOptions(e.m, side);
    Ask(side, e.CauseOf(side), moves, switch, e.movesBlocked, options.Ok?,
        if options.Ok? then options.value else [], e.m.TeamOf(side).current)
  }

  /** The engine and trace after a retrieval loop. */
  function Settle(r: Run, q: Ask, d: Decided): (r': Run)
    ensures r'.out == r.out + d.asked
    ensures r'.e.fails == d.fails && r'.e.CauseOf(q.side) == OtherCause && r'.e.ObjOf(q.side) == d.obj
    ensures r'.e.CauseOf(Invert(q.side)) == r.e.CauseOf(Invert(q.side))
    ensures r'.e.ObjOf(Invert(q.side)) == r.e.ObjOf(Invert(q.side))
    ensures r'.e == r.e.(fails := d.fails, causeBlue := r'.e.causeBlue, causeRed := r'.e.causeRed,
                         objBlue := r'.e.objBlue, objRed := r'.e.objRed)
  {
    Run(r.e.WithCause(q.side, OtherCause).WithObj(q.side, d.obj).(fails := d.fails), r.out + d.asked)
  }

  /** `_getAction(moves, switch)`: takes the side's expected cause, leaving
      OTHER in its place, and retrieves tags until one is legal. The
      engine after it is `Settle(r, AskFor(r.e, moves, switch), d)`. */
  function GetAction(r: Run, moves: bool, switch: bool, cb: Callback, pick: Chooser, fuel: nat): (d: Decided)
    requires |r.e.movesBlocked| == 4
    ensures d.result.Ok? ==> Legal(AskFor(r.e, moves, switch), d.result.value)
    ensures d.result != Err(NoDecision) ==> d.tries >= 1 && d.fails == r.e.fails + d.tries - 1
    ensures d.result.Err? ==> Explained(AskFor(r.e, moves, switch), d.result.error)
    ensures AskedFrom(d.asked, AskFor(r.e, moves, switch), r.e.fails)
  {
    RetrieveAsks(AskFor(r.e, moves, switch), r.e.fails, r.e.ObjOf(r.e.Turn()), cb, pick, 0, fuel);
    Retrieve(AskFor(r.e, moves, switch), r.e.fails, r.e.ObjOf(r.e.Turn()), cb, pick, 0, fuel)
  }

  /** A legal first answer of the callback is returned at once, with the
      callback's object stored and the counter untouched. */
  lemma FirstAnswerTaken(q: Ask, fails: int, obj: Option<int>, cb: Callback, pick: Chooser, fuel: nat)
    requires |q.blocked| == 4 && fuel > 0 && fails <= StallLimit
    requires Judge(q, Lower(cb(q.side, fails, q.moves, q.switch, q.cause, 0).0)).Take?
    ensures var d := Retrieve(q, fails, obj, cb, pick, 0, fuel);
      && d.result == Ok(Judge(q, Lower(cb(q.side, fails, q.moves, q.switch, q.cause, 0).0)).action)
      && d.fails == fails && d.tries == 1
      && d.asked == [Asked(q.side, fails, q.moves, q.switch, q.cause)]
      && d.obj == cb(q.side, fails, q.moves, q.switch, q.cause, 0).1
  {
  }

  /** Once the loop is past the stall limit the callback is never called
      again: the answer does not depend on it. */
  lemma {:induction false} StalledIgnoresCallback(q: Ask, fails: int, obj: Option<int>,
                                                 cb1: Callback, cb2: Callback, pick: Chooser, call: nat, fuel: nat)
    requires |q.blocked| == 4 && fails > StallLimit
    ensures Retrieve(q, fails, obj, cb1, pick, call, fuel) == Retrieve(q, fails, obj, cb2, pick, call, fuel)
    decreases fuel
  {
    if fuel > 0 {
      var got := Fetch(q, fails, cb1, pick, call);
      assert got == Fetch(q, fails, cb2, pick, call);
      if got.Ok? && Judge(q, Lower(got.value.tag)) == OptOut {
        StalledIgnoresCallback(q, fails + 1, got.value.obj, cb1, cb2, pick, call + 1, fuel - 1);
        var d := Retrieve(q, fails + 1, got.value.obj, cb1, pick, call + 1, fuel - 1);
        assert Retrieve(q, fails, obj, cb1, pick, call, fuel) ==
          Decided(d.fails, d.obj, got.value.asked + d.asked, d.result, d.tries + 1);
      }
    }
  }

  /** Past the stall limit with moves allowed, the loop can only end in a
      move or by running out of retrievals: the random fallback never
      offers a switch digit then. */
  lemma {:induction false} StalledPicksMoves(q: Ask, fails: int, obj: Option<int>, cb: Callback, pick: Chooser, call: nat, fuel: nat)
    requires |q.blocked| == 4 && fails > StallLimit && q.moves
    ensures var d := Retrieve(q, fails, obj, cb, pick, call, fuel);
      && (d.result.Ok? ==> d.result.value.Move?)
      && (d.result.Err? ==> d.result == Err(NoDecision))
    decreases fuel
  {
    if fuel > 0 {
      var got := Fetch(q, fails, cb, pick, call);
      assert got.Ok? && IsMoveTag(got.value.tag);
      TagsAreLower(got.value.tag);
      if Judge(q, got.value.tag) == OptOut {
        StalledPicksMoves(q, fails + 1, got.value.obj, cb, pick, call + 1, fuel - 1);
      }
    }
  }

  /** Lower-casing leaves the one-character tags unchanged. */
  lemma TagsAreLower(tag: string)
    requires IsMoveTag(tag) || IsSwitchTag(tag)
    ensures Lower(tag) == tag
  {
  }

  /** Number of living roster members (`sum(alive)`). */
  function CountAlive(alive: seq<bool>): (n: nat)
    ensures n <= |alive|
    ensures n == 0 <==> MatchModel.NoneAlive(alive)
  {
    if alive == [] then 0
    else (if alive[0] then 1 else 0) + CountAlive(alive[1..])
  }

  /** Two living members mean a living one besides any given slot. */
  lemma {:induction false} SecondAlive(alive: seq<bool>, c: nat)
    requires CountAlive(alive) > 1
    ensures exists i :: 0 <= i < |alive| && alive[i] && i != c
  {
    var rest := alive[1..];
    if alive[0] && c != 0 {
      assert alive[0];
    } else if c == 0 {
      NoneAliveWitness(rest);
      var i :| 0 <= i < |rest| && rest[i];
      assert alive[i + 1];
    } else {
      SecondAlive(rest, c - 1);
      var j :| 0 <= j < |rest| && rest[j] && j != c - 1;
      assert alive[j + 1];
    }
  }

  lemma NoneAliveWitness(alive: seq<bool>)
    requires CountAlive(alive) >= 1
    ensures exists i :: 0 <= i < |alive| && alive[i]
  {
  }

  /** The outcome of a match-time handler; `err` is the exception it
      would raise. */
  datatype Handled = Handled(run: Run, err: Option<ActionError>)

  /** Every callback call recorded in `out` past `from` was made for
      `side` with the given flags and cause. */
  ghost predicate AskedOnly(out: seq<Out>, from: nat, side: Side, moves: bool, switch: bool, cause: Cause)
  {
    forall k :: from <= k < |out| && out[k].Asked? ==> out[k] == Asked(side, out[k].fails, moves, switch, cause)
  }

  lemma AskedOnlyAppend(pre: seq<Out>, from: nat, asked: seq<Out>, q: Ask, lo: int, tail: seq<Out>)
    requires from <= |pre| && forall k :: from <= k < |pre| ==> !pre[k].Asked?
    requires AskedFrom(asked, q, lo)
    requires forall k :: 0 <= k < |tail| ==> !tail[k].Asked?
    ensures AskedOnly(pre + asked + tail, from, q.side, q.moves, q.switch, q.cause)
  {
    var out := pre + asked + tail;
    assert forall k :: 0 <= k < |pre| ==> out[k] == pre[k];
    assert forall k :: 0 <= k < |asked| ==> out[|pre| + k] == asked[k];
    assert forall k :: 0 <= k < |tail| ==> out[|pre| + |asked| + k] == tail[k];
  }

  /** The cancelled branch of `_nextMove`: the game is told to give in
      and a running match ends in a draw. */
  function GiveIn(r: Run): (r': Run)
    ensures |r'.out| >= |r.out| + 1 && r'.out[..|r.out| + 1] == r.out + [WriteTarget(InstaGiveIn)]
    ensures r'.e.m == r.e.m && r'.e.movesBlocked == r.e.movesBlocked
    ensures r.e.phase == MatchRunning ==>
      && r'.e.phase == MatchEnded && !r'.e.matchCancelled
      && r'.out[|r'.out| - 1] == Won(MatchModel.Draw)
    ensures r.e.phase != MatchRunning ==> r'.e == r.e && |r'.out| == |r.out| + 1
  {
    var s := Run(r.e, r.out + [WriteTarget(InstaGiveIn)]);
    var s' := MatchOver(s, MatchModel.Draw);
    assert s'.out[..|r.out| + 1] == s.out;
    s'
  }

  /** The state `_nextMove` asks in: on the first try every move is
      unblocked (the power-point read is a constant with no zero byte),
      and the side to move is expected to act for a REGULAR reason. */
  function Prepared(e: Engine): (e': Engine)
    requires |e.movesBlocked| == 4
    ensures |e'.movesBlocked| == 4
    ensures e.fails == 0 ==> forall i :: 0 <= i < 4 ==> !e'.movesBlocked[i]
    ensures e.fails != 0 ==> e'.movesBlocked == e.movesBlocked
    ensures e'.Turn() == e.Turn() && e'.m == e.m && e'.fails == e.fails
    ensures e'.CauseOf(e.Turn()) == Regular && e'.CauseOf(Invert(e.Turn())) == e.CauseOf(Invert(e.Turn()))
  {
    var e2 := if e.fails == 0 then e.(movesBlocked := [false, false, false, false]) else e;
    e2.WithCause(e2.Turn(), Regular)
  }

  /** `switchPossible`: more than one member of the side to move lives. */
  predicate SwitchPossible(e: Engine)
  {
    CountAlive(e.m.TeamOf(e.Turn()).alive) > 1
  }

  /** The move branch: the game's input is locked onto the move. */
  function MoveChosen(r: Run, mv: nat): (h: Handled)
    ensures h.err.None? && h.run.e.m == r.e.m && h.run.e.movesBlocked == r.e.movesBlocked
    ensures h.run.out == r.out + [WriteTarget(SelectMove), WriteMove(mv)]
    ensures h.run.e.fails == r.e.fails + 1
    ensures h.run.e.CauseOf(Blue) == r.e.CauseOf(Blue) && h.run.e.CauseOf(Red) == r.e.CauseOf(Red)
  {
    Handled(Run(r.e.(fails := r.e.fails + 1), r.out + [WriteTarget(SelectMove), WriteMove(mv)]), None)
  }

  /** The tail of `_nextMove` after a switch was chosen. */
  function SwitchChosen(r: Run, j: nat, now: int): (h: Handled)
    ensures h.err.None?
    ensures h.run.e.m == r.e.m.(nextPkmn := j)
    ensures h.run.out == r.out + [Press(Two)]
    ensures h.run.e.fails == r.e.fails + 1 && h.run.e.movesBlocked == r.e.movesBlocked
    ensures h.run.e.CauseOf(Blue) == r.e.CauseOf(Blue) && h.run.e.CauseOf(Red) == r.e.CauseOf(Red)
  {
    var p := PressButton(Run(r.e.(m := r.e.m.(nextPkmn := j)), r.out), Two, now);
    Handled(Run(p.e.(fails := p.e.fails + 1), p.out), None)
  }

  /** What a successful `_nextMove` turn leaves behind: either a legal
      move written into the game's input with the match untouched, or a
      legal switch slot pre-chosen for the Pokémon menu and Two pressed to
      open it. */
  ghost predicate TurnTaken(q: Ask, m: MatchModel.Match, h: Handled)
    requires |q.blocked| == 4
  {
    var n := |h.run.out|;
    || (&& h.run.e.m == m && n >= 2 && h.run.out[n - 2] == WriteTarget(SelectMove)
        && h.run.out[n - 1].WriteMove? && Legal(q, Move(h.run.out[n - 1].move)))
    || (&& h.run.e.m == m.(nextPkmn := h.run.e.m.nextPkmn) && h.run.e.m.nextPkmn >= 0
        && Legal(q, SwitchTo(h.run.e.m.nextPkmn)) && n >= 1 && h.run.out[n - 1] == Press(Two))
  }

  /** When switching is allowed because two members live, a legal switch
      goes to a living member other than the active one. */
  lemma SwitchIsOption(e: Engine, j: nat)
    requires |e.movesBlocked| == 4 && SwitchPossible(e)
    requires Legal(AskFor(e, true, true), SwitchTo(j))
    ensures var t := e.m.TeamOf(e.Turn()); j < |t.alive| && t.alive[j] && j != t.current
  {
    var t := e.m.TeamOf(e.Turn());
    var q := AskFor(e, true, true);
    SecondAlive(t.alive, t.current);
    var i :| 0 <= i < |t.alive| && t.alive[i] && i != t.current;
    assert i in q.options;
  }

  /** The writes that follow a retrieved action. */
  function Carry(r: Run, res: Result<Action, ActionError>, now: int): (h: Handled)
    ensures h.err.Some? <==> res.Err?
    ensures h.err.Some? ==> h.err.value == res.error && h.run == r
    ensures h.run.e.movesBlocked == r.e.movesBlocked && h.run.e.m.blue == r.e.m.blue && h.run.e.m.red == r.e.m.red
    ensures h.run.e.CauseOf(Blue) == r.e.CauseOf(Blue) && h.run.e.CauseOf(Red) == r.e.CauseOf(Red)
    ensures res.Ok? && res.value.Move? ==> MoveChosen(r, res.value.move) == h
    ensures res.Ok? && res.value.SwitchTo? ==> SwitchChosen(r, res.value.slot, now) == h
  {
    match res
    case Err(err) => Handled(r, Some(err))
    case Ok(Move(mv)) => MoveChosen(r, mv)
    case Ok(SwitchTo(j)) => SwitchChosen(r, j, now)
  }

  /** The entries `Carry` appends. */
  function Written(res: Result<Action, ActionError>): seq<Out>
  {
    match res
    case Err(_) => []
    case Ok(Move(mv)) => [WriteTarget(SelectMove), WriteMove(mv)]
    case Ok(SwitchTo(_)) => [Press(Two)]
  }

  /** A legal action, carried out, is a turn taken on the match it started from. */
  lemma CarryTaken(r: Run, res: Result<Action, ActionError>, now: int, q: Ask)
    requires |q.blocked| == 4 && (res.Ok? ==> Legal(q, res.value))
    ensures var h := Carry(r, res, now); h.err.None? ==> TurnTaken(q, r.e.m, h)
  {
  }

  /** The uncancelled body of `_nextMove`, after the keep-alive press. */
  function TakeTurn(r: Run, cb: Callback, pick: Chooser, fuel: nat, now: int): (h: Handled)
    requires |r.e.movesBlocked| == 4
    ensures |h.run.e.movesBlocked| == 4 && h.run.e.m.blue == r.e.m.blue && h.run.e.m.red == r.e.m.red
    ensures |h.run.out| >= |r.out| && h.run.out[..|r.out|] == r.out
    ensures AskedOnly(h.run.out, |r.out|, r.e.Turn(), true, SwitchPossible(r.e), Regular)
    ensures h.run.e.CauseOf(r.e.Turn()) == OtherCause
    ensures h.run.e.CauseOf(Invert(r.e.Turn())) == r.e.CauseOf(Invert(r.e.Turn()))
    ensures h.err.None? ==> TurnTaken(AskFor(Prepared(r.e), true, SwitchPossible(r.e)), r.e.m, h)
    ensures h.err.Some? ==> Explained(AskFor(Prepared(r.e), true, SwitchPossible(r.e)), h.err.value)
  {
    var e := Prepared(r.e);
    var switch := SwitchPossible(r.e);
    var q := AskFor(e, true, switch);
    var d := GetAction(Run(e, r.out), true, switch, cb, pick, fuel);
    TurnFacts(r.out, e, q, d, now);
    Carry(Settle(Run(e, r.out), q, d), d.result, now)
  }

  /** What a retrieval `d` for question `q`, settled on `e` and carried
      out, leaves behind: only the callback calls for `q` and the writes
      are appended, the side's cause is reset, and the result is a turn
      taken or an explained error. */
  lemma TurnFacts(out: seq<Out>, e: Engine, q: Ask, d: Decided, now: int)
    requires |q.blocked| == 4 && |e.movesBlocked| == 4 && q.side == e.Turn()
    requires d.result.Ok? ==> Legal(q, d.result.value)
    requires d.result.Err? ==> Explained(q, d.result.error)
    requires AskedFrom(d.asked, q, e.fails)
    ensures var h := Carry(Settle(Run(e, out), q, d), d.result, now);
      && |h.run.e.movesBlocked| == 4 && h.run.e.m.blue == e.m.blue && h.run.e.m.red == e.m.red
      && |h.run.out| >= |out| && h.run.out[..|out|] == out
      && AskedOnly(h.run.out, |out|, q.side, q.moves, q.switch, q.cause)
      && h.run.e.CauseOf(q.side) == OtherCause
      && h.run.e.CauseOf(Invert(q.side)) == e.CauseOf(Invert(q.side))
      && (h.err.None? ==> TurnTaken(q, e.m, h))
      && (h.err.Some? ==> Explained(q, h.err.value))
  {
    var r2 := Settle(Run(e, out), q, d);
    var h := Carry(r2, d.result, now);
    CarryTaken(r2, d.result, now, q);
    assert h.run.out == out + d.asked + Written(d.result);
    AskedOnlyAppend(out, |out|, d.asked, q, e.fails, Written(d.result));
  }

  /** `_nextMove`: keeps the remote alive with a press of no button, then
      either gives in on a cancelled match or takes the turn. */
  function NextMove(r: Run, cb: Callback, pick: Chooser, fuel: nat, now: int): (h: Handled)
    requires |r.e.movesBlocked| == 4
    ensures |h.run.e.movesBlocked| == 4 && h.run.e.m.blue == r.e.m.blue && h.run.e.m.red == r.e.m.red
    ensures |h.run.out| > |r.out| && h.run.out[..|r.out| + 1] == r.out + [Press(NoButton)]
  {
    var r1 := PressButton(r, NoButton, now);
    if r1.e.matchCancelled then Handled(GiveIn(r1), None)
    else TakeTurn(r1, cb, pick, fuel, now)
  }

  /** A cancelled match is given up: the game is told to give in, and a
      running match ends in a draw. */
  lemma NextMoveCancelled(r: Run, cb: Callback, pick: Chooser, fuel: nat, now: int)
    requires |r.e.movesBlocked| == 4 && r.e.matchCancelled
    ensures var h := NextMove(r, cb, pick, fuel, now);
      && h.err.None? && |h.run.out| >= |r.out| + 2 && h.run.out[|r.out| + 1] == WriteTarget(InstaGiveIn)
      && (r.e.phase == MatchRunning <==> h.run.e.phase == MatchEnded && h.run.e.phase != r.e.phase)
  {
    var r1 := PressButton(r, NoButton, now);
    var g := GiveIn(r1);
    assert g.out[|r.out| + 1] == g.out[..|r1.out| + 1][|r.out| + 1];
  }

  /** In a match that goes on, the callback is asked only about the side
      to move, for a move or (with two members alive) a switch, for a
      REGULAR reason, and a successful turn leaves a legal move or switch
      behind. */
  lemma NextMoveAsks(r: Run, cb: Callback, pick: Chooser, fuel: nat, now: int)
    requires |r.e.movesBlocked| == 4 && !r.e.matchCancelled
    ensures var h := NextMove(r, cb, pick, fuel, now);
      && AskedOnly(h.run.out, |r.out|, r.e.Turn(), true, SwitchPossible(r.e), Regular)
      && (h.err.None? ==> TurnTaken(AskFor(Prepared(r.e), true, SwitchPossible(r.e)), r.e.m, h))
  {
    var r1 := PressButton(r, NoButton, now);
    var h := TakeTurn(r1, cb, pick, fuel, now);
    assert h == NextMove(r, cb, pick, fuel, now);
    PressKeepsAsk(r, NoButton, now);
    assert h.run.out[|r.out|] == r1.out[|r.out|] == Press(NoButton);
    AskedOnlyFrom(h.run.out, |r.out|, r.e.Turn(), true, SwitchPossible(r.e), Regular);
  }

  /** A trace entry that is no callback call can be added to the front of
      a stretch holding only the calls for one question. */
  lemma AskedOnlyFrom(out: seq<Out>, from: nat, side: Side, moves: bool, switch: bool, cause: Cause)
    requires from < |out| && !out[from].Asked? && AskedOnly(out, from + 1, side, moves, switch, cause)
    ensures AskedOnly(out, from, side, moves, switch, cause)
  {
  }

  /** The keep-alive press changes nothing `_getAction` asks about. */
  lemma PressKeepsAsk(r: Run, b: Button, now: int)
    requires |r.e.movesBlocked| == 4
    ensures var e := PressButton(r, b, now).e;
      && e.Turn() == r.e.Turn() && e.m == r.e.m
      && SwitchPossible(e) == SwitchPossible(r.e)
      && AskFor(Prepared(e), true, SwitchPossible(r.e)) == AskFor(Prepared(r.e), true, SwitchPossible(r.e))
  {
  }

  /** The button pressed on attempt `k` of the switch loop: the menu
      button for the slot's position on the first four attempts, then Minus
      and Two in turn to back out of a popup. */
  function AttemptButton(index: nat, k: nat): (b: Button)
    requires index < 6
  {
    if k < 4 then PkmnIndexToButton(index)
    else if k % 2 == 1 then Two else Minus
  }

  /** From the fifth attempt on the loop alternates between Minus and Two,
      starting with Minus, and never presses the menu button again. */
  lemma DismissAlternates(index: nat, k: nat)
    requires index < 6 && k >= 4
    ensures AttemptButton(index, k) == (if k % 2 == 0 then Minus else Two)
    ensures AttemptButton(index, k) != AttemptButton(index, k + 1)
    ensures AttemptButton(index, k) != PkmnIndexToButton(index) || PkmnIndexToButton(index) == Two
  {
  }

  /** The loop of `_nextPkmn`, run `attempts` times (the number of times the
      menu flag was still up on the same turn), one press every 20 frames.
      It reports a switch exactly when no attempt reached the fifth. */
  method Attempts(r: Run, index: nat, attempts: nat, now: int) returns (r': Run, switched: bool)
    requires index < 6
    ensures switched <==> attempts <= 4
    ensures |r'.out| == |r.out| + attempts && r'.out[..|r.out|] == r.out
    ensures forall k :: 0 <= k < attempts ==> r'.out[|r.out| + k] == Press(AttemptButton(index, k))
    ensures attempts == 0 ==> r'.e == r.e
    ensures attempts > 0 ==>
      r'.e == r.e.(lastInput := AttemptButton(index, attempts - 1), lastInputFrame := now + 20 * (attempts - 1))
  {
    switched := true;
    var presses: seq<Out> := [];
    var k := 0;
    while k < attempts
      invariant 0 <= k <= attempts
      invariant switched <==> k <= 4
      invariant |presses| == k
      invariant forall j :: 0 <= j < k ==> presses[j] == Press(AttemptButton(index, j))
    {
      if k >= 4 {
        switched := false;
      }
      presses := presses + [Press(AttemptButton(index, k))];
      k := k + 1;
    }
    if attempts == 0 {
      r' := r;
    } else {
      var last := attempts - 1;
      r' := Run(r.e.(lastInput := AttemptButton(index, last), lastInputFrame := now + 20 * last), r.out + presses);
    }
  }

  /** The slot `_nextPkmn` is to send out, and the run after finding it. */
  datatype Choice = Choice(run: Run, slot: Result<nat, ActionError>)

  /** The callback branch of the head of `_nextPkmn`: a switch is asked
      for, with moves not allowed. */
  function AskSlot(r: Run, cb: Callback, pick: Chooser, fuel: nat): (c: Choice)
    requires |r.e.movesBlocked| == 4
    ensures c.run.e.m == r.e.m
    ensures c.run.e.movesBlocked == r.e.movesBlocked && c.run.e.bluesTurn == r.e.bluesTurn
    ensures c.slot.Ok? ==> Legal(AskFor(r.e, false, true), SwitchTo(c.slot.value))
    ensures c.slot.Err? ==> Explained(AskFor(r.e, false, true), c.slot.error)
    ensures |c.run.out| >= |r.out| && c.run.out[..|r.out|] == r.out
  {
    var q := AskFor(r.e, false, true);
    var d := GetAction(r, false, true, cb, pick, fuel);
    var r1 := Settle(r, q, d);
    match d.result
    case Err(err) => Choice(r1, Err(err))
    case Ok(a) => Choice(r1, Ok(a.slot))
  }

  /** The head of `_nextPkmn`: a pre-chosen slot is taken and reset to -1;
      otherwise a switch is asked for. */
  function ChooseSlot(r: Run, cb: Callback, pick: Chooser, fuel: nat): (c: Choice)
    requires |r.e.movesBlocked| == 4
    ensures c.run.e.m == r.e.m.(nextPkmn := if r.e.m.nextPkmn >= 0 then -1 else r.e.m.nextPkmn)
    ensures c.run.e.movesBlocked == r.e.movesBlocked && c.run.e.bluesTurn == r.e.bluesTurn
    ensures r.e.m.nextPkmn >= 0 ==> c.slot == Ok(r.e.m.nextPkmn) && c.run.out == r.out
    ensures r.e.m.nextPkmn < 0 && c.slot.Ok? ==> Legal(AskFor(r.e, false, true), SwitchTo(c.slot.value))
    ensures c.slot.Err? ==> Explained(AskFor(r.e, false, true), c.slot.error)
    ensures |c.run.out| >= |r.out| && c.run.out[..|r.out|] == r.out
  {
    if r.e.m.nextPkmn >= 0 then
      Choice(Run(r.e.(m := r.e.m.(nextPkmn := -1)), r.out), Ok(r.e.m.nextPkmn))
    else
      AskSlot(r, cb, pick, fuel)
  }

  /** The tail of `_nextPkmn` after a successful switch: the match records
      it, the observers hear of it with the stored object, and the fail
      counter starts again. */
  function SendOut(r: Run, side: Side, next: nat): (r': Run)
    requires MatchModel.Valid(r.e.m) && next < |r.e.m.TeamOf(side).pkmn|
    ensures r'.e.m == MatchModel.Switched(r.e.m, side, next).m
    ensures r'.out == r.out + [SwitchedOut(side, next, r.e.ObjOf(side))]
    ensures r'.e.fails == 0 && r'.e.ObjOf(side).None?
    ensures r'.e.movesBlocked == r.e.movesBlocked && r'.e.tryingToSwitch == r.e.tryingToSwitch
  {
    var step := MatchModel.Switched(r.e.m, side, next);
    var r3 := Run(r.e.(m := step.m), r.out);
    var r4 := NotifySwitch(r3, side, next);
    assert [MatchModel.Switch(side, next)][1..] == [];
    assert Absorb(r3, step.events) == r4;
    Run(r4.e.(fails := 0), r4.out)
  }

  /** The attempt loop of `_nextPkmn` and what follows it, for slot
      `next` at switch-menu position `index`. */
  method PressThrough(r: Run, side: Side, next: nat, index: nat, attempts: nat, now: int) returns (r': Run)
    requires MatchModel.Valid(r.e.m) && next < |r.e.m.TeamOf(side).pkmn|
    requires attempts > 0 ==> index < 6
    ensures !r'.e.tryingToSwitch && r'.e.movesBlocked == r.e.movesBlocked
    ensures |r'.out| >= |r.out| + attempts && r'.out[..|r.out|] == r.out
    ensures Pressed(r'.out, |r.out|, index, attempts)
    ensures attempts <= 4 ==> SentOut(r.e.m, r', side, next)
    ensures attempts <= 4 ==>
      && r'.e.m == MatchModel.Switched(r.e.m, side, next).m
      && r'.e.fails == 0 && r'.e.ObjOf(side).None?
      && r'.out == r'.out[..|r.out| + attempts] + [SwitchedOut(side, next, r.e.ObjOf(side))]
    ensures attempts > 4 ==> r'.e.m == r.e.m && |r'.out| == |r.out| + attempts
    ensures attempts <= 4 ==> |r'.out| == |r.out| + attempts + 1
  {
    var r2: Run := Run(r.e.(tryingToSwitch := true), r.out);
    var switched := attempts <= 4;
    if attempts > 0 {
      r2, switched := Attempts(r2, index, attempts, now);
    }
    r' := Run(r2.e.(tryingToSwitch := false), r2.out);
    if switched {
      r' := SendOut(r', side, next);
      assert r'.out[..|r2.out|] == r2.out;
    }
  }

  /** A switch `_nextPkmn` carried out on `side`: both teams are what the
      match's `switched` makes of `before` for slot `j` (so the match stays
      well-formed), the fail counter and the side's stored object are
      cleared, and the observers were told last. */
  ghost predicate SentOut(before: MatchModel.Match, r': Run, side: Side, j: nat)
    requires MatchModel.Valid(before)
  {
    && j < |before.TeamOf(side).pkmn|
    && r'.e.m.blue == MatchModel.Switched(before, side, j).m.blue
    && r'.e.m.red == MatchModel.Switched(before, side, j).m.red
    && r'.e.fails == 0 && r'.e.ObjOf(side).None?
    && |r'.out| > 0 && r'.out[|r'.out| - 1].SwitchedOut?
    && r'.out[|r'.out| - 1].side == side && r'.out[|r'.out| - 1].monindex == j
  }

  /** The body of `_nextPkmn` once slot `next` is chosen: its menu
      position is looked up (an index error past the roster, a missing
      button past the sixth position), and the attempts are pressed
      through. */
  method Launch(r: Run, side: Side, next: nat, attempts: nat, now: int) returns (r': Run, err: Option<ActionError>)
    requires MatchModel.Valid(r.e.m)
    ensures r'.e.m.nextPkmn == r.e.m.nextPkmn
    ensures |r'.out| >= |r.out| && r'.out[..|r.out|] == r.out
    ensures next >= |r.e.m.TeamOf(side).pkmn| ==> err == Some(BadSlot(next)) && r' == r
    ensures next < |r.e.m.TeamOf(side).pkmn| ==>
      (err.Some? <==> attempts > 0 && r.e.m.TeamOf(side).buttons[next] >= 6)
    ensures err.Some? && next < |r.e.m.TeamOf(side).pkmn| ==>
      && err == Some(NoButtonFor(r.e.m.TeamOf(side).buttons[next]))
      && r' == Run(r.e.(tryingToSwitch := true), r.out)
    ensures err.None? ==> !r'.e.tryingToSwitch
    ensures err.None? && attempts > 0 ==>
      && next < |r.e.m.TeamOf(side).buttons| && 0 <= r.e.m.TeamOf(side).buttons[next] < 6
      && Pressed(r'.out, |r.out|, r.e.m.TeamOf(side).buttons[next], attempts)
    ensures err.None? ==> |r'.out| == |r.out| + attempts + (if attempts <= 4 then 1 else 0)
    ensures err.None? && attempts <= 4 ==> SentOut(r.e.m, r', side, next)
    ensures err.None? && attempts > 4 ==> r'.e.m == r.e.m
  {
    var t := r.e.m.TeamOf(side);
    if next >= |t.buttons| {
      return r, Some(BadSlot(next));
    }
    ButtonInRange(t, next);
    var index := t.buttons[next];
    if attempts > 0 && !(0 <= index < 6) {
      return Run(r.e.(tryingToSwitch := true), r.out), Some(NoButtonFor(index));
    }
    r' := PressThrough(r, side, next, if 0 <= index < 6 then index else 0, attempts, now);
    err := None;
  }

  /** A button-map entry is a menu position on the roster. */
  lemma ButtonInRange(t: MatchModel.Team, next: nat)
    requires MatchModel.ValidTeam(t) && next < |t.buttons|
    ensures 0 <= t.buttons[next] < |t.buttons|
  {
    var index := t.buttons[next];
    assert index in multiset(Iota(0, |t.buttons|)) by {
      assert index in multiset(t.buttons);
    }
    IotaMembers(0, |t.buttons|, index);
  }

  /** The attempt presses for menu position `index`, from `from` on. */
  ghost predicate Pressed(out: seq<Out>, from: nat, index: nat, attempts: nat)
    requires attempts > 0 ==> index < 6
  {
    && from + attempts <= |out|
    && forall k :: 0 <= k < attempts ==> out[from + k] == Press(AttemptButton(index, k))
  }

  /** `_nextPkmn`: takes the pre-chosen slot (resetting it to -1) or asks
      for a switch, presses through the attempts, and on success records
      the switch in the match, tells the observers and clears the fail
      counter. `next` is the slot it chose, and the attempt presses start
      at position `pressedFrom` of the trace. */
  method NextPkmn(r: Run, cb: Callback, pick: Chooser, fuel: nat, attempts: nat, now: int)
    returns (r': Run, next: nat, pressedFrom: nat, err: Option<ActionError>)
    requires |r.e.movesBlocked| == 4 && MatchModel.Valid(r.e.m)
    ensures |r'.out| >= |r.out| && r'.out[..|r.out|] == r.out
    ensures r.e.m.nextPkmn >= 0 ==> r'.e.m.nextPkmn == -1 && next == r.e.m.nextPkmn
    ensures r.e.m.nextPkmn >= |r.e.m.TeamOf(r.e.Turn()).pkmn| ==> err == Some(BadSlot(r.e.m.nextPkmn))
    ensures r.e.m.nextPkmn < 0 && err.None? ==> Legal(AskFor(r.e, false, true), SwitchTo(next))
    ensures err.None? && attempts <= 4 ==> SentOut(r.e.m, r', r.e.Turn(), next)
    ensures err.None? && attempts > 4 ==> r'.e.m.blue == r.e.m.blue && r'.e.m.red == r.e.m.red
    ensures err.None? ==> !r'.e.tryingToSwitch
    ensures err.Some? && err.value.NoButtonFor? ==> r'.e.tryingToSwitch
    ensures err.None? && attempts > 0 ==>
      && next < |r.e.m.TeamOf(r.e.Turn()).buttons| && 0 <= r.e.m.TeamOf(r.e.Turn()).buttons[next] < 6
      && |r.out| <= pressedFrom && Pressed(r'.out, pressedFrom, r.e.m.TeamOf(r.e.Turn()).buttons[next], attempts)
  {
    var c := ChooseSlot(r, cb, pick, fuel);
    if c.slot.Err? {
      return c.run, 0, |c.run.out|, Some(c.slot.error);
    }
    next := c.slot.value;
    r', err := Proceed(r, c.run, next, attempts, now);
    pressedFrom := |c.run.out|;
    assert r'.out[..|r.out|] == r.out by {
      assert r'.out[..|r.out|] == r'.out[..|c.run.out|][..|r.out|];
    }
  }

  /** The rest of `_nextPkmn` once its head, started on `r`, has chosen
      slot `next` and left the run `c`: `Launch` for the side to move,
      stated against the match the head started from. */
  method Proceed(r: Run, c: Run, next: nat, attempts: nat, now: int) returns (r': Run, err: Option<ActionError>)
    requires MatchModel.Valid(r.e.m)
    requires c.e.m == r.e.m.(nextPkmn := c.e.m.nextPkmn) && c.e.bluesTurn == r.e.bluesTurn
    ensures |r'.out| >= |c.out| && r'.out[..|c.out|] == c.out
    ensures r'.e.m.nextPkmn == c.e.m.nextPkmn
    ensures next >= |r.e.m.TeamOf(r.e.Turn()).pkmn| ==> err == Some(BadSlot(next)) && r' == c
    ensures err.None? && attempts <= 4 ==> SentOut(r.e.m, r', r.e.Turn(), next)
    ensures err.None? && attempts > 4 ==> r'.e.m.blue == r.e.m.blue && r'.e.m.red == r.e.m.red
    ensures err.None? ==> !r'.e.tryingToSwitch
    ensures err.Some? && err.value.NoButtonFor? ==> r'.e.tryingToSwitch
    ensures err.None? && attempts > 0 ==>
      && next < |r.e.m.TeamOf(r.e.Turn()).buttons| && 0 <= r.e.m.TeamOf(r.e.Turn()).buttons[next] < 6
      && Pressed(r'.out, |c.out|, r.e.m.TeamOf(r.e.Turn()).buttons[next], attempts)
  {
    var side := r.e.Turn();
    assert c.e.m.TeamOf(side) == r.e.m.TeamOf(side);
    r', err := Launch(c, side, next, attempts, now);
    if err.None? && attempts <= 4 {
      SentOutTeams(c.e.m, r.e.m, r', side, next);
    }
  }

  /** `SentOut` depends on the match only through its two teams. */
  lemma SentOutTeams(m1: MatchModel.Match, m2: MatchModel.Match, r': Run, side: Side, j: nat)
    requires MatchModel.Valid(m1) && m1.blue == m2.blue && m1.red == m2.red
    requires SentOut(m1, r', side, j)
    ensures MatchModel.Valid(m2) && SentOut(m2, r', side, j)
  {
    assert m1.TeamOf(side) == m2.TeamOf(side);
    assert m1.TeamOf(Invert(side)) == m2.TeamOf(Invert(side));
    var s1 := MatchModel.Switched(m1, side, j).m;
    var s2 := MatchModel.Switched(m2, side, j).m;
    assert s1.TeamOf(side) == s2.TeamOf(side) && s1.TeamOf(Invert(side)) == s2.TeamOf(Invert(side));
    assert s1.blue == s1.TeamOf(Blue) && s2.blue == s2.TeamOf(Blue);
    assert s1.red == s1.TeamOf(Red) && s2.red == s2.TeamOf(Red);
  }
}
