# pbrEngine referee core in Dafny

pbrEngine drives Pokémon Battle Revolution running in the Dolphin emulator.
It reacts to what the game shows:

- the current screen (`PbrGuis`);
- the infobox text;
- status bytes;
- cursor positions.

It answers with controller presses, cursor selections and memory writes.
Along the way it keeps a referee's record of the match: rosters, turn
orders, who is alive, who is out, and who won.

This project models that core as pure functions over immutable records:

- **`MatchModel`** (`match.dfy`) is the `Match` class: creating a match,
  checking and applying turn orders, switch options, faints, dragged-out
  switches, the delayed win check and the winner rules.
- **`MatchFacts`** (`match_facts.dfy`) relates several match operations: the
  frame-driven win-check timer, debounced faints, button maps kept through
  switches, and complete scenarios (red wins, draw, Self-Destruct loss).
- **`Addresses`** (`addresses.dfy`) is the nested-pointer resolver:
  word alignment, the valid memory ranges, and `getAddr` with its bounded
  read attempts per hop.
- **`OrderCodec`** (`order_codec.dfy`) is `orderToInts`. It packs a turn order into the
  game's 32-bit and 16-bit order words. An inverse reading proves the
  round trip.
- **`States`** (`states.dfy`) is the engine's vocabulary: lifecycle phases in
  their order, screens, buttons, and causes.
- **`EngineState`** (`engine_state.dfy`) holds the engine record and its primitives:
  - `_pressButton`, `_select` and `_setState`;
  - the stuck checker's limit;
  - `pkmnIndexToButton`;
  - `_select_bp` with its two pages;
  - `_distinguishStatus`;
  - `_matchOver`;
  - `_switched`.
- **`Actions`** (`actions.dfy`) covers action selection:
  - `_getRandomAction`;
  - the retrieval loop of `_getAction`, with its early opt-outs and its stall fallback;
  - `_nextMove`;
  - `_nextPkmn`, with its press-and-dismiss loop.
- **`BattlePass`** (`battle_pass.dfy`) is battle-pass setup:
  - the storage positions of `new`;
  - their box/slot arithmetic;
  - `_confirmPkmn`;
  - `_distinguishBpSlots`.
- **`Screens`** (`screens.dfy`) is `_distinguishGui`: its menu chain, its
  second chain with each screen's phase condition, and the acceptance gate
  that either reports the new screen with `on_gui` or puts the old one back.
- **`Info`** (`info.dfy`) is `_distinguishInfo`: recognising the fainted and
  dragged-out messages, and what each does to the match.

Effects are collected in an output trace, in order. That covers button
presses, cursor moves, memory writes, jobs scheduled on the cursor
watcher or the frame timer, and the engine's events. Outside inputs become
parameters:

- the current frame;
- the action callback and `random.choice`, as oracles indexed by call;
- the emulator's memory reads, as an oracle indexed by hop and attempt.

Loops that the source leaves unbounded take a fuel or attempt count.

## Model

| member | source | states |
|---|---|---|
| Addresses.BaseAddr | pbrEngine/memorymap/addresses.py:18-19 | the aligned address is a multiple of 4 at most 3 below the address |
| Addresses.BaseAddrUnique | pbrEngine/memorymap/addresses.py:18-19 | any multiple of 4 within 3 below the address is the aligned address, so alignment is determined by those properties |
| Addresses.BaseAddrIdempotent | pbrEngine/memorymap/addresses.py:18-19 | aligning an aligned address changes nothing |
| Addresses.BaseAddrKeepsValid | pbrEngine/memorymap/addresses.py:85-87 | aligning a valid address keeps it in the valid ranges, which lie between 0x80000000 and 0x94000000 |
| Addresses.Attempts | pbrEngine/memorymap/addresses.py:62-66 | one hop reads at most `max_attempts` values, all from the hop's address; every value before the last is invalid; a hop that stops early stops on a valid value |
| Addresses.Resolve | pbrEngine/memorymap/addresses.py:58-79 | with no offsets the start address is returned unchanged; otherwise a returned address lies in the valid ranges |
| Addresses.ResolveTrail | pbrEngine/memorymap/addresses.py:61-78 | the reads recorded during resolution are real reads of the oracle, hop by hop and attempt by attempt, bounded by the number of offsets and attempts, and a valid read ends its hop |
| Addresses.GetAddr | pbrEngine/memorymap/addresses.py:50-79 | `getAddr` returns the start address when there are no offsets and otherwise only valid addresses; every read belongs to an existing hop and attempt |
| Addresses.ResolveIsDeref | pbrEngine/memorymap/addresses.py:36-44 | with memory that holds only valid pointers, resolution is the documented pointer walk `read(...read(start)+o1...)+ok`; it returns None exactly when a partial sum is invalid, after at most one read per hop |
| Addresses.DocExample | pbrEngine/memorymap/addresses.py:43 | `NestedLoc(0x800, 4, [0x20, 1])` resolves to `read(read(0x800) + 0x20) + 1` |
| Addresses.InvalidReadsValidSum | pbrEngine/memorymap/addresses.py:72-78 | only the sum is range-checked: twenty invalid reads followed by a valid sum still resolve |
| Addresses.InvalidSumStops | pbrEngine/memorymap/addresses.py:74-78 | an invalid sum ends resolution with None and makes no read of a later hop |
| MatchModel.FreshTeam | pbrEngine/abstractions/match.py:38-47 | a freshly set-up side satisfies the record invariant and holds the given roster |
| MatchModel.New | pbrEngine/abstractions/match.py:31-47 | `new` fails exactly when two Pokémon of the two rosters share an in-game name; on success the rosters are kept, each side is set up fresh and no slot is pre-chosen |
| MatchModel.NewState | pbrEngine/abstractions/match.py:31-37 | after `new` the object holds the new rosters either way; on a name clash everything else (alive lists, active slots, button maps, orders, pre-chosen slot) is still the old state, otherwise the match is the fresh, valid one |
| MatchModel.Max | pbrEngine/abstractions/match.py:59 | `max` of a non-empty order is one of its entries and no smaller than any entry |
| MatchModel.PermutationTop | pbrEngine/abstractions/match.py:58-64 | the largest entry of an ordering of `1..n` is `n`, so the first check of `_checkOrder` never rejects a correct order |
| MatchModel.CheckOrder | pbrEngine/abstractions/match.py:58-64 | an order is accepted exactly when it is an ordering of `1..n` with n at least 1; an empty order and one without `n` are rejected with their own errors |
| MatchModel.SetOrder | pbrEngine/abstractions/match.py:84-96 | the order setters succeed exactly when the order is an ordering of that side's roster slots; only that side's order changes |
| MatchModel.ApplyOrder | pbrEngine/abstractions/match.py:98-100 | `apply_order` sets roster slot k of each side to the old slot `order[k]`; the orders and the rest of the record are unchanged and the record stays valid |
| MatchModel.ApplyTeamOrder | pbrEngine/abstractions/match.py:99 | the reordered roster has the same size and holds the same Pokémon (as a multiset), with slot k holding old slot `order[k]-1` |
| MatchModel.OptionsFrom | pbrEngine/abstractions/match.py:73-77 | from slot k on, the options are exactly the living slots other than the active one, in increasing order |
| MatchModel.SwitchOptions | pbrEngine/abstractions/match.py:71-77 | the list left once entry `current` is deleted holds exactly the living roster slots other than the active one, in increasing order |
| MatchModel.GetSwitchOptions | pbrEngine/abstractions/match.py:66-78 | `get_switch_options` raises the `del`'s IndexError exactly when the active slot is not a roster index, so always for an empty roster; otherwise it lists the living slots other than the active one |
| MatchModel.IndexByName | pbrEngine/abstractions/match.py:141-146 | the result is the first slot with that name; None means no slot has it |
| MatchModel.UpdateWinningChecker | pbrEngine/abstractions/match.py:117-125 | the win check is re-armed 660 frames ahead exactly when a side has nobody alive; otherwise the pending check is kept |
| MatchModel.Fainted | pbrEngine/abstractions/match.py:102-115 | `fainted` clears exactly one alive flag, the active slot's when the name is unknown. It fires one death event for that slot and then runs `update_winning_checker`. The other side is unchanged. An empty roster is an error |
| MatchModel.Switched | pbrEngine/abstractions/match.py:127-139 | `switched` swaps the button of the active slot with slot j, makes j active on button 0, leaves the other side alone and fires one switch event |
| MatchModel.DraggedOut | pbrEngine/abstractions/match.py:148-156 | `draggedOut` switches to the slot with the name, or to the first switch option when the name is unknown; it fails only when the name is unknown and there is no option |
| MatchModel.CheckWinner | pbrEngine/abstractions/match.py:158-176 | blue wins while blue lives; otherwise red wins while red lives; when both are wiped out the result is a draw, unless the last move was a self-destructing one, in which case the user's side loses |
| MatchModel.FireWinCheck | pbrEngine/abstractions/match.py:122-125 | once the armed deadline is reached, the check fires once with `checkWinner`'s verdict and is disarmed; before that nothing happens |
| MatchModel.SetLastMove | pbrEngine/abstractions/match.py:55-56 | `setLastMove` records the side and the move and changes nothing else |
| MatchFacts.RunFrames | pbrEngine/abstractions/match.py:122-125 | ticking the win-check timer changes only the deadline |
| MatchFacts.RunFramesQuiet | pbrEngine/abstractions/match.py:122-125 | with no deadline inside the window, ticking changes nothing and fires nothing |
| MatchFacts.RunFramesFiresOnce | pbrEngine/abstractions/match.py:122-125 | a deadline inside the window fires exactly one verdict and disarms the check |
| MatchFacts.FaintKeepsWiped | pbrEngine/abstractions/match.py:102-115 | a faint never revives a wiped-out side |
| MatchFacts.DebouncedFaints | pbrEngine/abstractions/match.py:117-125 | of two faints less than 660 frames apart, the second restarts the delay; exactly one verdict fires 660 frames after it, and only if a side is wiped out |
| MatchFacts.Replay | pbrEngine/abstractions/match.py:127-139 | any sequence of switches keeps the record valid and leaves rosters and alive flags unchanged |
| MatchFacts.SwitchesKeepButtonMaps | pbrEngine/abstractions/match.py:127-139 | after any sequence of switches each button map is still an ordering of the roster slots, and the active slot is on button 0 |
| MatchFacts.SwitchToOptionIsAlive | pbrEngine/abstractions/match.py:66-78 | switching to an offered option brings a living Pokémon in |
| MatchFacts.FaintAll | pbrEngine/abstractions/match.py:102-115 | faints of one side leave the other side and the last move alone and change only the side's alive flags |
| MatchFacts.FreshMatchFaint | pbrEngine/abstractions/match.py:102-115 | in a fresh three-against-three match, blue's "Bar" fainting clears blue slot 1 only, fires one death event, and does not arm the win check |
| MatchFacts.BlueWipedRedWins | pbrEngine/abstractions/match.py:158-176 | wiping out blue while red is whole arms the check, which then declares red the winner |
| MatchFacts.WipeBoth | pbrEngine/abstractions/match.py:164-171 | the both-wiped scenario is a valid record |
| MatchFacts.BothWiped | pbrEngine/abstractions/match.py:164-171 | in that scenario both sides are wiped out, the last move is blue's and the check is armed |
| MatchFacts.FreshRosters | pbrEngine/abstractions/match.py:31-47 | the scenario rosters are accepted with everyone alive |
| MatchFacts.SelfKoSpelling | pbrEngine/abstractions/match.py:170 | "Self-Destruct" lower-cases to a self-destructing move; "Tackle" does not |
| MatchFacts.BothWipedOutcome | pbrEngine/abstractions/match.py:164-171 | a double wipe-out is a draw after an ordinary move and a loss for the user after Self-Destruct |
| MatchFacts.FaintAt | pbrEngine/abstractions/match.py:102-115 | a faint of the first slot with that name clears exactly that slot, fires its death event, and arms the check when the side is wiped out |
| MatchFacts.WipeThree | pbrEngine/abstractions/match.py:102-125 | fainting a side of three in roster order wipes it out, leaves the other side alone and arms the check |
| MatchFacts.FaintAllThree | pbrEngine/abstractions/match.py:102-115 | three single faints compose into the batch of three |
| OrderCodec.Slots | pbrEngine/engine.py:1239-1241 | the table holds 7 at every slot not in the order; otherwise it holds the 1-based turn of the slot's last occurrence |
| OrderCodec.Unpack | pbrEngine/engine.py:1243-1244 | a byte shifted in below a word can be taken back out |
| OrderCodec.OrderToInts | pbrEngine/engine.py:1238-1244 | `orderToInts` gives a 32-bit and a 16-bit word whose six bytes, high byte first, are the table |
| OrderCodec.Words | pbrEngine/engine.py:1243-1244 | the words fit in 32 and 16 bits and their bytes are the six table entries |
| OrderCodec.SlotOfTurn | pbrEngine/engine.py:1238-1244 | the inverse lookup finds the first slot holding a turn, or reports that none does |
| OrderCodec.IntsToOrder | pbrEngine/engine.py:1238-1244 | reading the words back gives one slot per turn |
| OrderCodec.OrderOfSlots | pbrEngine/engine.py:1238-1244 | turn i of the read-back order is the slot whose byte holds i+1 |
| OrderCodec.SlotsOfPermutation | pbrEngine/engine.py:1239-1241 | for an ordering of `1..n` with n at most 6, the byte of slot `order[i]` holds turn i+1 |
| OrderCodec.SlotAt | pbrEngine/engine.py:1239-1241 | a used table entry names a turn that plays that slot |
| OrderCodec.TurnSlot | pbrEngine/engine.py:1239-1241 | turn i+1 is found at the slot that plays it |
| OrderCodec.RoundTrip | pbrEngine/engine.py:1238-1244 | reading back the words of an order of `1..n` (n at most 6) gives the order |
| OrderCodec.SlotsDecode | pbrEngine/engine.py:1239-1241 | the table of such an order decodes to the order |
| OrderCodec.Example | pbrEngine/engine.py:1238-1244 | the identity order of three gives `(0x01020307, 0x0707)` |
| OrderCodec.SlotsIdentity | pbrEngine/engine.py:1239-1241 | the table of `[1, 2, 3]` is `[1, 2, 3, 7, 7, 7]` |
| OrderCodec.SlotsTwo | pbrEngine/engine.py:1239-1241 | the table of `[1, 2]` is `[1, 2, 7, 7, 7, 7]` |
| OrderCodec.SlotsStep | pbrEngine/engine.py:1240-1241 | one more loop iteration writes the new turn at its slot |
| States.Next | pbrEngine/engine.py:992 | `state + 1` is the phase of the next rank |
| States.RankInjective | pbrEngine/engine.py:1003 | distinct phases have distinct ranks, so rank comparisons compare phases |
| EngineState.PressButton | pbrEngine/engine.py:460-465 | a press is output, and it becomes the last input at the current frame |
| EngineState.Select | pbrEngine/engine.py:467-471 | a selection moves the cursor and then presses Two |
| EngineState.SetState | pbrEngine/engine.py:481-489 | the phase is set; the state event is emitted exactly when the phase changes |
| EngineState.SetStateIdempotent | pbrEngine/engine.py:481-489 | setting a phase twice is setting it once, and emits at most one event |
| EngineState.StuckLimit | pbrEngine/engine.py:443-456 | there is no limit in a running match; otherwise the limit is 600 on the battle-pass confirmation screen, 80 while a save is created away from the three entry screens, and 300 elsewhere |
| EngineState.StuckCheck | pbrEngine/engine.py:443-458 | a wake-up resends the last input exactly when the frames since it exceed the limit, and otherwise changes nothing |
| EngineState.StuckCheckSettles | pbrEngine/engine.py:457-458 | a resend resets the window: a second check at the same frame does nothing, and the phase, screen and match are never touched |
| EngineState.PkmnIndexToButton | pbrEngine/engine.py:520-529 | each of the six menu positions has a real button |
| EngineState.PkmnButtonsInverse | pbrEngine/engine.py:520-529 | the button-to-position table inverts `pkmnIndexToButton` in both directions |
| EngineState.PkmnButtonsInjective | pbrEngine/engine.py:520-529 | distinct positions have distinct buttons |
| EngineState.SelectionsAppend | pbrEngine/engine.py:801-812 | the cursor positions selected by two trace pieces are those of each piece, in order |
| EngineState.SelectBp | pbrEngine/engine.py:801-812 | afterwards the page flag says whether the pass is on page two. Only the page flag and the last input change. The selections are the pass's slot alone when the page is right, or the page button and then the slot |
| EngineState.SelectionsAdded | pbrEngine/engine.py:801-812 | the selections of the two shapes `_select_bp` appends are the pass, or the page button then the pass |
| EngineState.SelectBpTwice | pbrEngine/engine.py:801-812 | selecting the same pass again selects it directly, without turning the page |
| EngineState.StatusOf | pbrEngine/engine.py:829-836 | the six listed bytes are their statuses and every other byte is sleep carrying that byte as rounds |
| EngineState.StatusRoundTrip | pbrEngine/engine.py:829-836 | decoding inverts encoding for every status and vice versa, given a sleep counter outside the listed bytes |
| EngineState.DistinguishStatus | pbrEngine/engine.py:828-844 | one status update for the side's active slot is emitted and the engine is unchanged |
| EngineState.MatchOver | pbrEngine/engine.py:573-585 | only a running match ends: it records the end, schedules the quit job and fires the win event; any other phase is untouched |
| EngineState.MatchOverOnce | pbrEngine/engine.py:580-581 | a second verdict changes nothing, so a match fires at most one win event |
| EngineState.NotifySwitch | pbrEngine/engine.py:432-435 | the switch event carries the side's stored callback object, which is then cleared |
| EngineState.Absorb | pbrEngine/engine.py:80-121 | handing match events to the engine keeps the match, the screen and the turn and only appends to the trace; death events are forwarded one for one, in order; a running match ends exactly when some event is a verdict |
| Actions.MoveOf | pbrEngine/engine.py:711 | a move letter stands for one of the four moves |
| Actions.SlotOf | pbrEngine/engine.py:718 | a switch digit stands for one of the six slots |
| Actions.TagLists | pbrEngine/engine.py:710-718 | the tag predicates are membership in the source's tuples, and the move and slot numbers index back to the tag |
| Actions.GetRandomAction | pbrEngine/engine.py:681-687 | moves allowed gives a move letter; otherwise switches allowed gives a digit; neither is the error of an empty choice |
| Actions.RandomChoiceCovers | pbrEngine/engine.py:681-687 | every tag of the offered list can be picked |
| Actions.Judge | pbrEngine/engine.py:708-733 | a taken action is legal; a tag neither allowed list holds is rejected; an allowed switch digit crashes exactly when `get_switch_options` raises; an opt-out is exactly a blocked move or an unavailable slot; with no options the active slot is returned |
| Actions.Fetch | pbrEngine/engine.py:697-707 | up to the stall limit the callback is asked; past it a random tag is drawn without asking, and an empty choice is an error |
| Actions.Retrieve | pbrEngine/engine.py:695-734 | the loop returns only legal actions; an error is the invalid-action error, the empty choice, the IndexError of `get_switch_options`, or running out of fuel; the fail counter grows by one per opt-out |
| Actions.RetrieveAsks | pbrEngine/engine.py:695-734 | the callback is asked only about this question, with the running fail count; past the stall limit it is never asked and no callback object is kept |
| Actions.AskedFromCons | pbrEngine/engine.py:704-707 | one pass's call in front of the later passes' calls is a well-formed record |
| Actions.AskFor | pbrEngine/engine.py:690-694 | the question is for the side whose turn it is, with its expected cause, its blocked moves, whether `get_switch_options` succeeds for it and, when it does, its switch options |
| Actions.Settle | pbrEngine/engine.py:690-709 | after the loop the side's cause is OTHER and its stored object is the last one; the other side is untouched |
| Actions.GetAction | pbrEngine/engine.py:689-734 | `_getAction` returns only legal actions for the side to move, explains every error, and asks the callback only about that side |
| Actions.FirstAnswerTaken | pbrEngine/engine.py:704-716 | a legal first answer is returned at once, after one call, with the fail counter untouched |
| Actions.StalledIgnoresCallback | pbrEngine/engine.py:697-702 | past the stall limit the result does not depend on the callback |
| Actions.StalledPicksMoves | pbrEngine/engine.py:697-702 | past the stall limit with moves allowed, the loop can only end with a move or by running out of fuel |
| Actions.TagsAreLower | pbrEngine/engine.py:708 | lower-casing leaves the one-character tags unchanged |
| Actions.CountAlive | pbrEngine/engine.py:769-770 | the living count is zero exactly when nobody is alive |
| Actions.SecondAlive | pbrEngine/engine.py:769-770 | with more than one alive, someone other than any given slot is alive |
| Actions.NoneAliveWitness | pbrEngine/engine.py:769-770 | a positive count has a living witness |
| Actions.AskedOnlyAppend | pbrEngine/engine.py:704-707 | a trace whose only callback calls come from one question records calls about that question alone |
| Actions.GiveIn | pbrEngine/engine.py:746-751 | a cancelled match writes the give-in target first; a running match then ends with a draw verdict, and any other phase is left alone |
| Actions.Prepared | pbrEngine/engine.py:753-768 | on the first try no move is blocked (the constant PP word); the side's cause becomes REGULAR |
| Actions.MoveChosen | pbrEngine/engine.py:772-776 | a chosen move is locked in with the target and move writes; the match is untouched |
| Actions.SwitchChosen | pbrEngine/engine.py:777-779 | a chosen switch is stored as the pre-chosen slot and Two is pressed |
| Actions.SwitchIsOption | pbrEngine/engine.py:717-729 | a legal switch is to a living slot other than the active one |
| Actions.Carry | pbrEngine/engine.py:772-784 | an error is passed through unchanged; a move or a switch is carried out by its branch |
| Actions.TakeTurn | pbrEngine/engine.py:753-784 | the callback is asked only about the side to move, for REGULAR; a successful turn leaves a legal move written or a legal switch pre-chosen; rosters are untouched |
| Actions.NextMove | pbrEngine/engine.py:736-784 | `_nextMove` first presses no button to keep the remote alive, and never changes the rosters |
| Actions.NextMoveCancelled | pbrEngine/engine.py:743-751 | a cancelled match writes the give-in target, and ends it exactly when it was running |
| Actions.NextMoveAsks | pbrEngine/engine.py:736-784 | in a match that goes on, the callback is asked only about the side to move, and a successful turn leaves a legal move or switch |
| Actions.PressKeepsAsk | pbrEngine/engine.py:744 | the keep-alive press changes nothing `_getAction` asks about |
| Actions.DismissAlternates | pbrEngine/engine.py:648-661 | from the fifth attempt on, the loop alternates Minus and Two instead of pressing the slot's button |
| Actions.Attempts | pbrEngine/engine.py:647-673 | attempt k presses the slot's button for the first four attempts and then alternates Minus and Two; the switch stands exactly when there were at most four attempts |
| Actions.AskSlot | pbrEngine/engine.py:636 | the asked slot is a legal switch for the side to move, or an explained error; the match is untouched |
| Actions.ChooseSlot | pbrEngine/engine.py:630-636 | a pre-chosen slot is taken without asking and reset to -1; otherwise the callback's slot is legal |
| Actions.SendOut | pbrEngine/engine.py:675-679 | a completed switch is recorded by `switched` for that slot, announced with the stored object, and resets the fail counter |
| Actions.PressThrough | pbrEngine/engine.py:638-679 | attempt k presses `AttemptButton(index, k)` and these presses come first; the trying flag ends cleared; at most four attempts switch the slot in (one more trace entry), more leave the match untouched |
| Actions.Launch | pbrEngine/engine.py:638-679 | a slot beyond the roster is the IndexError of the button map, with nothing done; a menu position past the sixth fails exactly when an attempt is made, leaving the trying flag set; otherwise attempt k presses `AttemptButton(buttons[next], k)`, the flag ends cleared, and the switch is sent out exactly when the attempts stayed within four |
| Actions.Proceed | pbrEngine/engine.py:638-679 | once the head of `_nextPkmn` has chosen a slot without touching the teams, the rest presses `AttemptButton` of that slot's menu position from the current end of the trace and sends it out within four attempts, all stated against the match the head started from |
| Actions.NextPkmn | pbrEngine/engine.py:610-679 | `_nextPkmn` takes the pre-chosen slot (and resets it) or a legal asked slot; attempt k presses `AttemptButton` of that slot's menu position; it sends that slot out when the attempts stayed within four, and otherwise leaves both teams unchanged; the trying flag ends cleared, except after a missing button |
| Actions.SentOutTeams | pbrEngine/engine.py:675-679 | whether a switch was sent out depends on the match only through its two teams |
| BattlePass.BoxAndSlot | pbrEngine/engine.py:1157-1167 | a position is 30 times its box plus its slot, and the slot is one of 30 |
| BattlePass.PlacesDiffer | pbrEngine/engine.py:1157-1167 | different positions are different (box, slot) places |
| BattlePass.Positions | pbrEngine/engine.py:324-325 | blue gets one position per Pokémon, and so does red |
| BattlePass.PositionsApart | pbrEngine/engine.py:324-325 | together the lists number the positions `0..nb+nr-1` once each, so no two Pokémon share a storage place |
| BattlePass.WithPos | pbrEngine/engine.py:547-549 | replacing one side's position list leaves the other side's and the rest of the engine alone |
| BattlePass.BoxesScreen | pbrEngine/engine.py:1149-1163 | the box screen marks the pass as entered and cleared. While filling, it opens the box of the next position; an empty list is an error. Otherwise it backs out |
| BattlePass.PkmnScreen | pbrEngine/engine.py:1164-1170 | the Pokémon screen picks the slot of the next position and schedules the confirmation; an empty list is an error |
| BattlePass.PlacedAt | pbrEngine/engine.py:1149-1170 | the box screen and then the Pokémon screen select the box and the slot of the same position, and the two cursor offsets give that position back |
| BattlePass.ConfirmPkmn | pbrEngine/engine.py:536-551 | a confirmation presses Two and advances the pass cursor by one; it drops the head of the list being filled and schedules the next slot view. An empty list is the IndexError after the press |
| BattlePass.ConfirmDrains | pbrEngine/engine.py:544-551 | k confirmations in a row drop the first k positions in order and advance the cursor by k |
| BattlePass.ClearSecond | pbrEngine/engine.py:976-986 | clearing the second pass moves to EMPTYING_BP1 exactly when it is cleared |
| BattlePass.ClearFirst | pbrEngine/engine.py:987-995 | clearing the first pass moves to PREPARING_BP1 exactly when it is cleared |
| BattlePass.FillSlots | pbrEngine/engine.py:996-1008 | filling moves to the next phase exactly when the side's list is exhausted |
| BattlePass.DistinguishBpSlots | pbrEngine/engine.py:973-1008 | the slot view changes only the phase, the last input and the cleared flag, and never fails |
| BattlePass.BpSlotsPhases | pbrEngine/engine.py:973-1008 | each clearing step ends exactly when its pass is cleared; filling ends exactly when the list is empty; from PREPARING_STAGE on, the view is ignored |
| BattlePass.FillingEnds | pbrEngine/engine.py:544-551 | confirming blue's last position empties the list, and the next slot view moves on to red's pass |
| Screens.ChainsDisjoint | pbrEngine/engine.py:1060-1295 | no screen is taken by both chains, and an unrecognised value is taken by neither |
| Screens.AnnouncerPerSave | pbrEngine/engine.py:1121-1127 | the two save runs write opposite announcer bytes; elsewhere the byte is written only to switch the announcer on |
| Screens.Answer | pbrEngine/engine.py:1060-1133 | a menu answer only records the last input and appends outputs, none of them a screen report |
| Screens.MenuScreen | pbrEngine/engine.py:1060-1133 | a menu screen is answered without error. Only the options screen sets the announcer flag. The engine changes at most in its last input and its page flag, and no screen report is output |
| Screens.SetupScreen | pbrEngine/engine.py:1136-1175 | the battle-pass menu screens keep the recorded screen and the match; only the slots screen moves the phase; on the slots screen before the second save is created the handler presses One, and once the pass was entered it does nothing; the confirm screen does nothing; only the box and Pokémon screens can fail |
| Screens.SettingsScreen | pbrEngine/engine.py:1185-1201 | the settings screen selects the rule set, then the battle style, then closes, setting and clearing its two flags in that cycle; only the first visit arms the two cursor jobs (select the rule set, press Two on the confirm position), ahead of its selection |
| Screens.SelectionsOf | pbrEngine/engine.py:1185-1201 | a trace piece of cursor jobs ending in a selection selects exactly that item |
| Screens.SelectionsSkip | pbrEngine/engine.py:1188-1192 | cursor jobs before a selection select nothing |
| Screens.RulesSettingsCycle | pbrEngine/engine.py:1185-1201 | three visits select items 1, 2 and 3 and restore both flags |
| Screens.ChooseAvatar | pbrEngine/engine.py:1216-1226 | the pass menu starts on page one and schedules the pass of blue, then red, flipping the flag |
| Screens.AvatarsAlternate | pbrEngine/engine.py:1216-1226 | two visits choose blue's pass and then red's, and restore the flag |
| Screens.RulesScreen | pbrEngine/engine.py:1178-1229 | the rules screens never fail and keep the recorded screen and the match; the stage screen presses One before the stage is being prepared and otherwise moves the phase to PreparingStart; every other rules screen keeps the phase; the pass confirm screen presses Two and starts the intro skipper |
| Screens.StageStartsPreparation | pbrEngine/engine.py:1178-1184 | the stage screen moves the phase to PREPARING_START exactly when stage preparation has begun and the phase is not already that |
| Screens.InitOrderSelection | pbrEngine/engine.py:553-558 | with the start signal the phase becomes SELECTING_ORDER; without it the game pauses in WAITING_FOR_START |
| Screens.SelectOrder | pbrEngine/engine.py:1232-1236 | order selection starts only before WAITING_FOR_START, and Right is always pressed last |
| Screens.WriteOrderOf | pbrEngine/engine.py:1245-1258 | a side's order words are written exactly when the order fits the six-slot table, followed by a press of Two |
| Screens.ConfirmOrder | pbrEngine/engine.py:1237-1258 | confirmations alternate. The first applies both orders to the rosters and writes blue's words. The second writes red's words and starts the match. An order that does not fit is an error |
| Screens.ApplyOrderKeepsOrders | pbrEngine/engine.py:1253 | applying the orders leaves the orders themselves alone |
| Screens.ConfirmBlue | pbrEngine/engine.py:1252-1258 | the first confirmation reorders the rosters and writes blue's words |
| Screens.ConfirmRed | pbrEngine/engine.py:1245-1251 | the second confirmation writes red's words and starts the match |
| Screens.OrderFits | pbrEngine/engine.py:1239-1241 | a valid order fits the table exactly when the roster has at most six members |
| Screens.OrdersWrittenBlueThenRed | pbrEngine/engine.py:1237-1258 | two confirmations write blue's words then red's, each followed by Two, then start the match with the reordered rosters |
| Screens.OrderReadsBack | pbrEngine/engine.py:1238-1244 | a valid roster's written words read back as its order |
| Screens.SecondConfirm | pbrEngine/engine.py:1245-1251 | after blue's words, the second confirmation appends red's words, Two and the match start, and keeps the match |
| Screens.MatchScreen | pbrEngine/engine.py:1261-1295 | the match screens keep the recorded screen and the setup flags; apart from move selection they never fail and change no engine state but the last input; fade-in and idle do nothing; Pokémon selection starts the next-Pokémon job unless a switch is being tried; a popup is answered with Two |
| Screens.MoveSelect | pbrEngine/engine.py:1267-1284 | move selection leaves the setup flags alone |
| Screens.MoveSelectPhase | pbrEngine/engine.py:1267-1284 | move selection leaves the match running, unless it was cancelled, which ends it |
| Screens.GateScreen | pbrEngine/engine.py:1136-1295 | a screen the second chain takes is handled without touching the recorded screen; only order confirmation and move selection change the match; only the box, Pokémon, order and move screens can fail |
| Screens.DistinguishGui | pbrEngine/engine.py:1043-1045 | an unrecognised value (None) changes nothing |
| Screens.RejectedChangesNothing | pbrEngine/engine.py:1297-1302 | a screen neither chain takes is put back and nothing is output |
| Screens.AcceptedReported | pbrEngine/engine.py:1304-1306 | a screen the second chain takes is recorded and, unless its handler failed, reported with `on_gui` as the last output |
| Screens.MenuScreensRestored | pbrEngine/engine.py:1136 | as written, a menu screen is answered but withdrawn: the old screen is put back and `on_gui` is not emitted |
| Screens.DistinguishGuiIntended | pbrEngine/engine.py:1136 | with `elif`, a menu screen is answered, recorded and reported; every other value goes to the second chain |
| Screens.MenuScreensReported | pbrEngine/engine.py:1136 | under the intended chain every menu screen is recorded and reported with `on_gui` last |
| Screens.IntendedAgreesElsewhere | pbrEngine/engine.py:1136 | the as-written and intended handlers agree exactly on the values that are not menu screens |
| Screens.MainMenuForgotten | pbrEngine/engine.py:1060 | the main menu seen while another screen is recorded is forgotten as written and recorded as intended |
| Info.Body | pbrEngine/engine.py:936-937 | `$` sees the text, or the text without one final line break |
| Info.Between | pbrEngine/engine.py:936-937 | a match is a proper name with the start before it and the end after it, making up the text |
| Info.Parse | pbrEngine/engine.py:936-953 | a recognised notice carries a proper name |
| Info.BetweenRendered | pbrEngine/engine.py:936-937 | a message built from a start, a proper name and an end reads back that name, with or without a final line break |
| Info.BetweenShape | pbrEngine/engine.py:936-937 | a match puts the start at the front and the end at the back, character by character |
| Info.SidesExclusive | pbrEngine/engine.py:936-937 | a message of one side is no message of the other |
| Info.EndsExclusive | pbrEngine/engine.py:936-949 | a faint message is no dragged-out message and the other way round |
| Info.ParseRender | pbrEngine/engine.py:936-953 | every notice with a proper name reads back from its message |
| Info.ParseFindsRendered | pbrEngine/engine.py:936-953 | whatever is recognised is the rendered message of that notice |
| Info.RenderedShown | pbrEngine/engine.py:926-927 | no message starts like the blanking text `##` |
| Info.DistinguishInfo | pbrEngine/engine.py:914-958 | outside a running match, or for blanking text, nothing happens; the screen and the phase are always kept |
| Info.OnFaint | pbrEngine/engine.py:938-945 | a faint kills one slot of that side, emits the death, sets that side's cause to FAINT and keeps the other team |
| Info.OnDrag | pbrEngine/engine.py:950-953 | a drag switches the match like `draggedOut`, announced with the stored object; it fails exactly when `draggedOut` does |
| Info.InfoFollowsParse | pbrEngine/engine.py:929-958 | in a running match, every text but blanking is shown and logged, then handled as a faint, a drag, or a win-check update |
| Info.FaintMessageKills | pbrEngine/engine.py:936-945 | the faint message of a Pokémon on the roster kills exactly that slot, with a FAINT cause for its side |
| Info.DragMessageSwitches | pbrEngine/engine.py:948-953 | the dragged-out message of a Pokémon on the roster switches exactly that slot in |
| Info.DragOnRoster | pbrEngine/engine.py:950-953 | for a name on the roster, the drag switches to that slot |

## Left out

- Connection, Dolphin watch and subscriptions (`connect`, `_initDolphinWatch`, `_reconnect`, `_subscribe*`) are left out. They are I/O and do not decide anything.
- gevent concurrency is left out. Greenlets and `spawn_later` jobs appear as output entries (`Later`, `OnCursor`), and what they run is modelled as a separate call with its own frame. The stuck checker is one wake-up (`StuckCheck`); its endless loop is not modelled.
- Floating-point settings are left out: animation speed, volume, FOV and blur, and the `setGuiPosY` calls that hide or restore the GUI (`engine.py` lines 617-619, 851 and 1264-1274). The raise in `_distinguishInfo` (line 930) is kept as a `GuiRaised` entry without its value.
- `_injectPokemon` is left out. It serialises Pokémon to bytes with a library that is not part of this model.
- `_distinguishBpsSelect`, `_skipIntro`, `_waitForNew`, `_quitMatch`, `reset`, `cancel` and `start` are left out. They concern savestates and the flow between matches.
- The handlers for HP, effectiveness, attack text, Pokémon menu, order lock and player are left out. They only forward values, except the attack handler, which sets `lastMove` (modelled by `MatchModel.SetLastMove`).
- `bytesToString` and the screen-value decoding are left out. Handlers receive the decoded text, or an `Option<Gui>` whose None stands for "not recognised" (`if not gui`).
- `random.choice`, `random.getrandbits` and the action callback are oracles. The random seed written on move selection is a `NewRngSeed` entry without a value.
- Actions.Retrieve: the `while True` loop of `_getAction` takes a fuel bound, and running out of fuel is the extra result `NoDecision`. The source would loop on.
- Actions.Attempts: the `_nextPkmn` loop runs a given number of times. That number stands for how long the game kept the menu open, which the model cannot see.
- Actions.Prepared: the PP read is the constant `0xffffffff` the source uses, so the first try never blocks a move.
- `getBaseaddr` is left out. It aligns `getAddr`'s result, which is `BaseAddr` of it, but in the source it would fail on `None`.
- Addresses.GetAddr: the majority vote over `reads_per_attempt` reads happens inside the read oracle, and the logging is left out.
- `states.py` and `values.py` are not part of this model. The phase order of `PbrStates` follows the engine's comparisons and its `state + 1` steps. Button codes and cursor offsets are abstract.
- `Lower` folds only ASCII letters. Python's `str.lower` folds all of Unicode; the move names compared are ASCII.
- `main.py`, `nonvolatilePkmn.py` and the package's utility module are not part of this model. `invertSide` and `swap` are restated in `Util`.
- MatchModel.New: the in-game names are the only Pokémon field the referee reads, so a roster entry is modelled as its name.
- Addresses.Resolve: a hop whose twenty reads are all invalid still goes on when the last value plus the offset is a valid location; only the sum is range-checked (`addresses.py` lines 62-78, see `Addresses.InvalidReadsValidSum`).

## Findings

| source | as written | input that shows it | evidently intended | confidence | as-written member | corrected member |
|---|---|---|---|---|---|---|
| pbrEngine/engine.py:1136 | The battle-pass branch opens a new `if` chain. Every menu or start screen answered by the first chain (lines 1060-1133) then also falls into the second chain's `else` (lines 1297-1302), which puts the previous screen back and skips `on_gui`. | `_distinguishGui(MENU_MAIN)` while `self.gui` is another screen: the menu is answered, but `self.gui` returns to the old screen and no `on_gui` event fires. | `elif`: a menu screen is answered, recorded as the current screen and reported with `on_gui`. | medium, not executed | Screens.MenuScreensRestored | Screens.MenuScreensReported |
