# A model of the Atheme contributed modules

Six modules of the Atheme services contrib repository hold real algorithms. This project models
them and proves what they keep, undo or mean, for all inputs, all random draws and all runs.

* **Hunt the Wumpus** (`src/wumpus.c`). `WumpusState` gives each step of the game as a function on
  values, `WumpusRuns`, `WumpusTheorems` and `WumpusPlay` prove what every run of events keeps,
  `WumpusLaws` says of each event what it does to the rooms, the players and the numbers, from the draws;
  `WumpusExits`, `WumpusFeast` and `WumpusSmell` treat three of its loops, and `WumpusSamples` plays
  games that show what is not kept. `Wumpus` is the game as it is in the
  source: a `Game` whose fields, players and memory page of rooms are updated in place. Every
  method is proved to leave the state the step function says, so the theorems about runs of step
  functions are theorems about runs of the methods. Every value of `rand()` is a parameter.
* **AJOIN** (`src/ns_ajoin.c`). `Ajoin.Entry` holds the stored string in a character array that DEL
  edits in place. `AjoinText` and `AjoinExact` say what that does to the string and when it is the
  removal of an item, `AjoinSeveral` what it does with several names at once; `AjoinRuns` follows
  whole runs of commands.
* **SAVECHANMODES and LOADCHANMODES** (`src/os_savechanmodes.c`). `Chanmodes` holds the printing
  and the reading loops; `ChanmodesText`, `ChanmodesRoundTrip`, `ChanmodesGood`, `ChanmodesLost`
  and `ChanmodesExact` prove exactly which channels come back from a dump.
* **Template names** (`src/cs_access_alias.c`). `AccessAlias`: the pointer scan against lookup in
  the list of templates the string stands for.
* **Vhosts on registration** (`src/gen_vhostonreg.c`). `Vhost`: the buffer, the counter, and
  exactly when two vhosts are the same.
* **TRACE** (`src/os_trace.c`). `TraceText` compiles criteria with `strtok` and its saved position
  (section 7.24.5.8 of ISO/IEC 9899:2011), `TraceQuery` gives criteria a meaning and writes them
  down, `TraceAction` parses reasons and durations and gives the actions, `Trace` is the command.

`CStrings` and `Decimals` hold the parts of the C library the modules share, `Options` and `Sequences`
two notions of their own.

## Where the code does not do what it promises

Each of these is a lemma with a concrete input, next to a theorem with the exact condition.

* Exits of a maze can repeat, although the comment on the redraw (`src/wumpus.c:233`) says they are
  checked: a first draw that is kept is never checked, and rooms still to be dug are compared under
  the number 0. `WumpusExits.ExitsCanRepeat`, `WumpusExits.ExitRepeatsExactlyWhen`,
  `WumpusExits.MazeExitsDifferExactlyWhen`.
* `distance_to_wumpus` promises 1 or 2 for a wumpus 1 or 2 rooms away (`src/wumpus.c:83`). It answers 2
  for one next door when an exit before it leads on to it, and it smells markers the wumpus has left
  behind. `WumpusSamples.NextDoorButTold2`, `WumpusSamples.StaleMarkerSmelt`,
  `WumpusSmell.SearchIsDistanceExactlyWhen`.
* The wumpus leaves markers that mark nothing: its old room's contents, the marker included, are
  copied to a random room before they are cleared (`src/wumpus.c:587`).
  `WumpusSamples.MarkerLeftBehind`, `WumpusTheorems.MarkersAfterProwl`. Its true room is the field, on
  which the theorems rest.
* An arrow that lands on such a marker hits the wumpus wherever it is (`src/wumpus.c:511`), and can kill
  it. `WumpusSamples.StaleMarkerHit`, `WumpusPlay.HitsAreTrueExactlyWhen`.
* The last survivor wins only where `check_last_person_alive` is called: one of two players who
  resigns, quits or is shot dead leaves the other in a game that goes on.
  `WumpusSamples.LastPlayerPlaysOn`, `WumpusPlay.SurvivorWinsUnlessUnnoticed`.
* AJOIN DEL may cut another item: DEL `#foo` on `#foobar,#foo` leaves `ar,#foo`.
  `AjoinExact.DelTakesAnotherChannelsHead`, `AjoinExact.DelRemovesExactlyWhenSafe`. With several names
  joined by commas it cuts a run of items, and may miss one that is there. `AjoinSeveral.RunMissed`,
  `AjoinSeveral.DelOfSeveralChannels`.
* A channel with an empty topic loses it in a dump and reload, and one whose topic line is longer than
  the buffer gets another topic or none. `ChanmodesExact.EmptyTopicIsLost`,
  `ChanmodesExact.OverLongTopicIsLost`, `ChanmodesExact.ComeBackExactlyWhenTheySurvive`. The loader
  itself never makes such topics; whether the channel code and the network's limits, which are not part
  of this model, let them exist is left open.
* The number in a vhost is there "to ensure uniqueness" (`src/gen_vhostonreg.c:46`) and does not:
  `bob_` with counter 7 gets the vhost of `bob-00007`. `Vhost.NumberedMeetsDirect`,
  `Vhost.SameVhostExactlyWhenClash`.
* The scan for a template name goes wrong for flags that do not fit 39 characters or a findable name
  that does not fit 399. `AccessAlias.TooLongForTheBuffers`,
  `AccessAlias.ScanIsLookupExactlyWhenAllFits`. Whether the command that stores templates, which is not
  part of this model, lets them get that long is left open.

## Model

| member | source | states |
|---|---|---|
| Wumpus.Game.FindPlayer | src/wumpus.c:127-142 | finds the player object of a user exactly when the user is playing |
| Wumpus.Game.CreatePlayer | src/wumpus.c:144-172 | appends one player with 10 arrows and 30 hit points, unless the user plays already or a game runs |
| Wumpus.Game.ResignPlayer | src/wumpus.c:174-195 | takes the player's node out of its room's list and out of the game's list, and nothing else; the lists go on mirroring each other |
| Wumpus.Game.EndGame | src/wumpus.c:380-413 | whatever the state, no players, no rooms, no wumpus and no running game are left, although the loop takes players out of the list it walks |
| Wumpus.Game.CheckLastPersonAlive | src/wumpus.c:547-564 | tears the game down for one player or none, otherwise changes nothing |
| Wumpus.Game.EatRoom | src/wumpus.c:613-630 | the loop that removes players while it walks their list leaves exactly those not in the wumpus's room, in order and ready to move, and an empty room |
| Wumpus.Game.MoveWumpus | src/wumpus.c:566-638 | in place: copy of the room's contents to a random room, step along an exit, marker, meal, end of game |
| Wumpus.Game.AdjacentRoom | src/wumpus.c:110-125 | true exactly for ids that are exits of the player's room |
| Wumpus.Game.DistanceToWumpus | src/wumpus.c:83-108 | the two nested loops give the depth-first answer on the rooms |
| Wumpus.Game.MovePlayer | src/wumpus.c:647-756 | in place, the move of the step functions, whose outcome WumpusLaws.MoveEnds and WumpusLaws.MoveShifts tell: bats, wumpus, pit, arrows and ball in this order, then from the old room's list to the end of the new one's |
| Wumpus.Game.ShootPlayer | src/wumpus.c:452-542 | checks in order, then one arrow is spent and lands on the first player of the room, on the wumpus's marker, or nowhere |
| Wumpus.Game.CmdStart | src/wumpus.c:760-779 | only without a game running or starting: starting, with the wanted size wrapped to an unsigned int, 100 without one |
| Wumpus.Game.CmdJoin | src/wumpus.c:781-796 | a player joins only while a game is starting |
| Wumpus.Game.CmdMove | src/wumpus.c:818-843 | nothing changes unless a playing user names a room in a running game |
| Wumpus.Game.CmdShoot | src/wumpus.c:845-870 | nothing changes unless a playing user names a room in a running game |
| Wumpus.Game.CmdResign | src/wumpus.c:872-892 | a playing user leaves a running game; otherwise nothing changes |
| Wumpus.Game.CmdReset | src/wumpus.c:894-906 | a running game is torn down and not starting; otherwise nothing changes |
| Wumpus.Game.UserDeleted | src/wumpus.c:929-940 | the player of a quitting user leaves, running game or not |
| Wumpus.Game.Handle | src/wumpus.c:760-940 | whatever command, timer or hook comes, the game object takes the step of its state and satisfies the invariant again |
| Wumpus.Game.DrawTarget | src/wumpus.c:225-241 | one exit is drawn until it is not the room itself, with the check against earlier exits only after a redraw, on rooms numbered so far |
| Wumpus.Game.DigMaze | src/wumpus.c:211-248 | the page of rooms is the one the draws dig |
| Wumpus.Game.BuildMaze | src/wumpus.c:199-319 | fails exactly below ten rooms; otherwise wumpus, pits, bats, arrows and the ball overwrite each other in this order, as WumpusLaws.NewGameFromDraws tells room by room, and the last check never fails |
| Wumpus.Game.PlacePlayers | src/wumpus.c:339-348 | every player is located in a drawn room, and each room lists its residents in the order of the player list |
| Wumpus.Game.InitGame | src/wumpus.c:326-360 | a maze too small tears the game down; otherwise the game runs with speed 60 and a wumpus of 70 hit points |
| Wumpus.Game.StartGame | src/wumpus.c:362-378 | two players at least, the size capped at 300 and kept, and the state afterwards is sound |
| WumpusLaws.StartCounts | src/wumpus.c:760-779 | START wants 100 rooms, or the number given modulo 2^32, and only once |
| WumpusLaws.JoinAppends | src/wumpus.c:144-172 | JOIN puts a newcomer with ten arrows and thirty hit points last, if nobody of that user plays and a game is starting |
| WumpusLaws.LeavingTakesOne | src/wumpus.c:872-940 | RESIGN and quitting take one player out of the list and out of its room, and change nothing else |
| WumpusLaws.StrangersChangeNothing | src/wumpus.c:818-940 | nobody who is not playing changes anything by moving, shooting, resigning or quitting |
| WumpusLaws.ResetEnds | src/wumpus.c:894-906 | RESET leaves no game, players or rooms and nothing starting; without a running game it does nothing |
| WumpusLaws.NewGameFromDraws | src/wumpus.c:250-357 | what lies in every room of a new game, where every player and the wumpus are, from the draws: the crystal ball over arrows over bats over a pit over the wumpus |
| WumpusLaws.NoGameStarts | src/wumpus.c:328-378 | with fewer than two players nothing starts; with fewer than ten rooms everything ends |
| WumpusLaws.ResidentsInOrder | src/wumpus.c:340-348 | the list of a room keeps the order of the player list |
| WumpusLaws.MoveRefused | src/wumpus.c:653-657 | a move to a room that is no exit changes nothing |
| WumpusLaws.MoveEnds | src/wumpus.c:659-738 | with bats the player gets to the room drawn, otherwise to the one chosen; the wumpus there, or a pit without bats, kills it and nobody else; otherwise it is there, with five arrows if it had none and found some, and all others are as they were |
| WumpusLaws.MoveShifts | src/wumpus.c:659-735 | the contents and the list of every room after a move: bats, arrows or the ball of the chosen room turn up in the room drawn, and the player is last in the list of its room |
| WumpusLaws.WalkShifts | src/wumpus.c:584-637 | the wumpus takes the exit drawn, and what every room shows and holds afterwards; the game goes on exactly if two players are elsewhere |
| WumpusLaws.ShotRefused | src/wumpus.c:461-477 | without arrows, or into a room that is no exit, a shot changes nothing |
| WumpusLaws.ShotAtNothing | src/wumpus.c:482-488 | a shot at nothing costs the arrow, and changes nothing else |
| WumpusLaws.ShotAtPlayer | src/wumpus.c:490-510 | two draws of three hit the first player of the room, who loses ten hit points or, with ten or fewer, the game |
| WumpusLaws.ShotAtMarker | src/wumpus.c:511-541 | two draws of three hit; the last hit ends the game, and after any other shot the wumpus walks, weaker and faster if it was hit |
| WumpusLaws.CountIsHowMany | src/wumpus.c:250-306 | the counts of hazards are numbers of rooms |
| WumpusTheorems.StepKeepsStructure | src/wumpus.c:144-195 | no command, timer or hook breaks the mirroring of locations and room lists, the one player per user or the shape of the maze |
| WumpusTheorems.StepKeepsInvariant | src/wumpus.c:760-940 | every step keeps the whole invariant: structure, never running and starting, hit points 10, 20 or 30, 0 to 10 arrows, wumpus strength and speed, at most one crystal ball |
| WumpusPlay.EveryReachableStateIsSound | src/wumpus.c:64 | every state reached from the zeroed game by any events and draws satisfies the invariant |
| WumpusPlay.EverybodyListedOnce | src/wumpus.c:327-348 | in a sound running game each player occurs exactly once in its own room's list and in no other, and the lists hold only players |
| WumpusRuns.NewGameIsSound | src/wumpus.c:200-360 | a maze of 10 to 300 rooms has ids equal to indices, three exits each, in range and not to the room itself, exactly one crystal ball, and everybody housed |
| WumpusExits.ExitsCanRepeat | src/wumpus.c:225-245 | draws that give a room the same exit three times, against the comment on line 233: once by a kept first draw, once by a redraw |
| WumpusExits.RedrawAccepts | src/wumpus.c:228-241 | the redraw loop ends with the first draw that is neither the room itself nor the number an exit made so far has at that moment, and only then |
| WumpusExits.ExitIsDrawn | src/wumpus.c:225-245 | an exit is the first draw unless that is the room itself, and otherwise the redraw accepted |
| WumpusExits.ExitRepeatsExactlyWhen | src/wumpus.c:225-245 | a new exit repeats one of the room exactly when a kept first draw does, or the accepted redraw names a room still to be dug to which an exit leads |
| WumpusExits.ExitsDifferExactlyWhen | src/wumpus.c:222-245 | the exits of a room are pairwise different exactly when none of its draws repeats one |
| WumpusExits.MazeExitsDifferExactlyWhen | src/wumpus.c:215-248 | no room of a maze has an exit twice exactly when that holds of the draws of every room |
| WumpusExits.DugExactlyWhenShaped | src/wumpus.c:215-248 | the mazes that draws can dig are exactly those of empty rooms with ids equal to indices and three exits each, in range and not to the room itself |
| WumpusSamples.LastPlayerPlaysOn | src/wumpus.c:872-892 | a game of two, from the zeroed state, in which one resigns and the other is left in a running game |
| WumpusSamples.MarkerLeftBehind | src/wumpus.c:584-599 | a game, from the zeroed state, in which after one walk a room shows the wumpus that it is not in |
| WumpusRuns.NoShotAtOneself | src/wumpus.c:467-480 | an adjacent target is a room of the maze other than the shooter's own, so the own-room branch is never taken and whoever is met is another player |
| WumpusTheorems.CarryingGainsNothing | src/wumpus.c:587-588 | moving contents from one room to another, copy first or clear first, same room or not, never adds a pit, bats, arrows or a ball |
| WumpusTheorems.MarkersAfterProwl | src/wumpus.c:584-599 | how many rooms show the wumpus after its walk: one more than before, less one for a marker already on the target and one for a marker lost under the copied contents |
| WumpusTheorems.StepOnward | src/wumpus.c:566-756 | within one game no step adds hazards, changes the size of the maze, or the wumpus's strength other than by a hit |
| WumpusPlay.HazardsNeverMultiply | src/wumpus.c:584-727 | over any run of one game the numbers of pits, bats, arrows and balls never grow |
| WumpusPlay.StepNoNearer | src/wumpus.c:340-348 | no step raises the number of players in the wumpus's true room, and a step that makes it walk leaves nobody there |
| WumpusPlay.RunNoNearer | src/wumpus.c:340-348 | over any run of one game, walked or not, the number of players in the wumpus's true room never grows |
| WumpusPlay.NobodyMeetsARousedWumpus | src/wumpus.c:590-687 | once the wumpus has walked, no living player is in its true room in any later state of that game |
| WumpusPlay.WumpusEatsItsRoom | src/wumpus.c:585-630 | the wumpus goes to another room along an exit; exactly the players there are gone, the others keep their order and may move again |
| WumpusPlay.DeathLeavesTwoOrNobody | src/wumpus.c:549-564 | after a walk of the wumpus, its death, or a player's death on the move, at least two players play on or everything is torn down |
| WumpusPlay.SurvivorWinsUnlessUnnoticed | src/wumpus.c:490-564 | from two or more players every step leads to two or more or to a torn down game, except exactly when one of two resigns, quits or is shot dead |
| WumpusPlay.StrengthTracksHits | src/wumpus.c:511-541 | over any run of one game hit points fall by 5 and the period by 3 seconds for every hit |
| WumpusPlay.FourteenthHitKills | src/wumpus.c:513-535 | the wumpus of a new game dies on exactly its fourteenth hit, and the game with it |
| WumpusPlay.PriceOfAShot | src/wumpus.c:461-510 | a refused shot changes nothing; any other costs the shooter exactly one arrow and nobody else any, and ten hit points of the one player hit, who lives on only with more than ten |
| WumpusFeast.VisitingAllFeasts | src/wumpus.c:613-630 | removing players one by one while walking the list equals removing at once all in the wumpus's room |
| WumpusSmell.SearchIsDistanceExactlyWhen | src/wumpus.c:83-108 | for the room the wumpus is in: next door, the answer is right exactly when an exit shows a marker and none misleads; two rooms away, exactly when one misleads; farther away, exactly when no marker is near or beyond |
| WumpusSmell.OneMarkerIsDistanceUnlessMisled | src/wumpus.c:83-108 | where the wumpus's room and no other shows it, the answer is right exactly unless an exit leading on to it precedes the one showing it |
| WumpusSamples.NextDoorButTold2 | src/wumpus.c:83-108 | a game, from the zeroed state, in which a player next door to the wumpus is told 2 |
| WumpusSamples.StaleMarkerSmelt | src/wumpus.c:83-108 | a game, from the zeroed state, in which a player is told 1 and the wumpus is neither one nor two rooms away |
| WumpusSamples.StaleMarkerHit | src/wumpus.c:511-541 | a game, from the zeroed state, in which an arrow hits the wumpus in a room it is not in |
| WumpusPlay.HitsAreTrueExactlyWhen | src/wumpus.c:479-541 | all hits a state allows are in the wumpus's true room exactly when no player with arrows is next to an empty room with a marker left behind |
| Ajoin.Entry.Add | src/ns_ajoin.c:50-90 | the stored string after ADD, with the copies through a 512-byte buffer, the duplicate check ignoring case and the limit of 400 |
| Ajoin.Entry.Del | src/ns_ajoin.c:96-176 | the one-pass matcher, truncation and memmove on the array leave the string with that piece cut out, or the list deleted, or unchanged and reported missing |
| Ajoin.Entry.Match | src/ns_ajoin.c:111-150 | the one-pass loop finds the length of the list, and all of the argument exactly where the matcher of the text does |
| Ajoin.Entry.Clear | src/ns_ajoin.c:91-95 | nothing is stored |
| Ajoin.Entry.List | src/ns_ajoin.c:32-49 | the pieces between commas of what fits the buffer |
| Ajoin.Entry.OnIdentify | src/ns_ajoin.c:179-205 | the channels joined, the first call also stopping at spaces |
| AjoinText.JoinInjective | src/ns_ajoin.c:78-82 | comma-free items are determined by the joined string |
| AjoinExact.DelByItems | src/ns_ajoin.c:118-173 | for an argument that is not empty and has no comma: what DEL does to a joined string, item by item; the first item the matcher hits loses the hit, with the comma before or after it |
| AjoinExact.DelRemovesExactlyWhenSafe | src/ns_ajoin.c:96-176 | for any argument: DEL is the removal of the first item equal ignoring case, and reports a missing one, exactly when the first item hit is that item or the lucky neighbour; an empty argument only when the first item is empty, one with a comma only when the matcher finds it nowhere |
| AjoinExact.DelOfChannels | src/ns_ajoin.c:107-147 | for names with `#` only at the head: not on list exactly when no item starts with the argument, and right exactly when the first that does equals it |
| AjoinSeveral.RunIsFound | src/ns_ajoin.c:118-142 | on such names the one-pass matcher runs along whole items, the last piece being the head of one, and begins anew behind an item that does not match |
| AjoinSeveral.DelOfSeveralChannels | src/ns_ajoin.c:107-173 | several such names joined by commas are reported as not on the list exactly unless the matcher runs along items that match them |
| AjoinSeveral.RunStands | src/ns_ajoin.c:118-142 | what the matcher runs along are neighbouring items equal to the pieces, the last one up to its head |
| AjoinSeveral.RunMissed | src/ns_ajoin.c:118-142 | neighbouring items that match and are not found, because the matcher does not go back |
| AjoinExact.DelTakesAnotherChannelsHead | src/ns_ajoin.c:118-173 | a list where DEL destroys another channel's name and leaves the one meant |
| Ajoin.Entry.Execute | src/ns_ajoin.c:50-176 | the command on the array is the command on the stored text, whose runs follow |
| AjoinRuns.CommandKeeps | src/ns_ajoin.c:50-176 | each careful command does to the items what it says and keeps the string a joined list of different names |
| AjoinRuns.EveryRunIsSound | src/ns_ajoin.c:32-204 | over any run from nothing: no name twice, no copy truncated, length bounded by 401 or the longest name added to an empty list, and LIST and the joins on identify give exactly the items in order |
| AjoinRuns.JoinsSplitAtFirstSpace | src/ns_ajoin.c:190-204 | a first item with a space in it is joined in pieces, as only the first call stops at spaces |
| AjoinRuns.PiecesKeepSpaces | src/ns_ajoin.c:38-45 | LIST, and the joins behind the first, keep spaces |
| Chanmodes.SaveChanModes | src/os_savechanmodes.c:29-41 | the printing loops write the lines of all channels in order |
| Chanmodes.Network.RestoreChannelByName | src/os_savechanmodes.c:49-69 | a channel that can be joined gets the modes and becomes current; one that cannot leaves no current channel |
| Chanmodes.Network.ReadLine | src/os_savechanmodes.c:95-141 | one buffer read by strtok: its keyword, its fields, the branches that skip it, and the current channel carried on |
| Chanmodes.Network.LoadChanModes | src/os_savechanmodes.c:91-142 | the whole reading loop, with lines longer than the buffer read in pieces |
| Chanmodes.SaveThenLoad | src/os_savechanmodes.c:29-142 | dump and reload into an empty network gives the same modes, topics, time stamps and bans in order, each at its own channel, exactly when every channel survives the format |
| ChanmodesRoundTrip.LoadLine | src/os_savechanmodes.c:93-96 | a written line that fits is processed once, also when its newline is read as a line of its own |
| ChanmodesRoundTrip.TimeSurvives | src/os_savechanmodes.c:33-125 | printing a time stamp as unsigned long and reading it back gives it again, before 1970 too |
| ChanmodesRoundTrip.LoadChannel | src/os_savechanmodes.c:93-141 | the lines of one channel, read in any state of the loop, rebuild that channel and touch no other |
| ChanmodesRoundTrip.LoadAll | src/os_savechanmodes.c:91-142 | a dump of surviving channels, for any time stamps, read into a network that knows none of them adds exactly these channels |
| ChanmodesGood.LoadIsGood | src/os_savechanmodes.c:91-142 | whatever the file holds, the loader makes only channels that a dump can hold |
| ChanmodesExact.ComeBackExactlyWhenTheySurvive | src/os_savechanmodes.c:29-142 | SAVE then LOAD is the identity, for any time stamps, if and only if every channel has word names and setters, non-empty newline-free rests, and lines that fit the buffer |
| ChanmodesLost.OverLongIsLost | src/os_savechanmodes.c:93-127 | a channel whose topic line does not fit is not rebuilt, whatever the pieces of the line and the lines after it bring |
| ChanmodesExact.EmptyTopicIsLost | src/os_savechanmodes.c:32-121 | a channel whose empty topic does not come back |
| ChanmodesExact.OverLongTopicIsLost | src/os_savechanmodes.c:32-127 | a channel whose topic of 2048 letters, or any number more, does not come back |
| Decimals.ReadDec | src/os_savechanmodes.c:33-125 | reading the leading digits of a printed number gives the number, whatever follows |
| Decimals.SignedReads | src/os_trace.c:394-447 | white space and a sign in front of a number are read, what follows its digits is not, and the unsigned reading saturates and wraps |
| AccessAlias.SearchDefaults | src/cs_access_alias.c:40-50 | the callback over the defaults ends with the key of the last one whose flags match, and with none exactly if none match |
| AccessAlias.ScanTemplates | src/cs_access_alias.c:66-90 | the pointer loop with its two buffers ends and returns what the scan function finds |
| AccessAlias.GetTemplateName | src/cs_access_alias.c:52-98 | the channel's own templates first, the last matching default exactly when those have no match |
| AccessAlias.ScanIgnoresBlanks | src/cs_access_alias.c:68-69 | blanks in front of a template do not matter |
| AccessAlias.ScanIsLookup | src/cs_access_alias.c:66-90 | on every encoded list the scan finds the first template whose flags, cut to 39 characters, decode to the level, and returns its name cut to 399 |
| AccessAlias.ScanIsLookupExactlyWhenAllFits | src/cs_access_alias.c:58-90 | the scan is lookup for every meaning of flags if and only if all flags fit their buffer and every findable name fits its own |
| AccessAlias.TooLongForTheBuffers | src/cs_access_alias.c:58-90 | a template with 39 letters of flags that is not found, and one with 400 letters of name whose name is cut |
| Vhost.Registrar.constructor | src/gen_vhostonreg.c:97-99 | the counter starts in 0..99999, also for a negative C remainder |
| Vhost.Registrar.CopyName | src/gen_vhostonreg.c:26-36 | the valid characters of the name, cut to the room there is, and whether the name serves as it is |
| Vhost.Registrar.UserAddHost | src/gen_vhostonreg.c:15-58 | every write is inside the buffer, and every strlcat finds the NUL written before it; with room for nine characters the cloak is head, dot and suffix, uncut, and the counter moves on exactly for numbered ones |
| Vhost.Host | src/gen_vhostonreg.c:36-57 | a vhost is never longer than HOSTLEN |
| Vhost.Head | src/gen_vhostonreg.c:28-53 | the head fits its room and has only letters, digits and hyphens |
| Vhost.HeadIsNameExactlyWhenDirect | src/gen_vhostonreg.c:36-55 | the vhost is name.suffix if and only if the name is all valid and fits |
| Vhost.NumberedKeepsWhatFits | src/gen_vhostonreg.c:26-55 | the vhost of any other name is its letters, digits and hyphens, as many as leave room for a hyphen and five digits, then the number, a dot and the suffix |
| Vhost.KeptOfParts | src/gen_vhostonreg.c:28-35 | what is kept of a name is what is kept of its parts, in order |
| Vhost.KeptOfOne | src/gen_vhostonreg.c:30-33 | of one character, a letter, digit or hyphen is kept and nothing else |
| Vhost.FiveDigits | src/gen_vhostonreg.c:40 | the number is a hyphen and the five digits of the counter |
| Vhost.SameVhostExactlyWhenClash | src/gen_vhostonreg.c:36-57 | two vhosts agree exactly for equal direct names, equal counter and stem, or a name that reads like a numbered head |
| Vhost.NumberedMeetsDirect | src/gen_vhostonreg.c:46 | a numbered vhost that equals an un-numbered one |
| Vhost.CounterMovesOn | src/gen_vhostonreg.c:41-43 | over any run of registrations the counter advances, modulo 100000, by the numbered ones |
| Vhost.NumberedVhostsInARun | src/gen_vhostonreg.c:40-57 | two numbered vhosts of a run agree exactly when their stems do and a multiple of 100000 numbers lies between |
| Vhost.HundredThousandDiffer | src/gen_vhostonreg.c:40-57 | any 100000 consecutive numbered vhosts are pairwise different, whatever un-numbered ones come between |
| TraceText.CompileReadsWords | src/os_trace.c:872-906 | the strtok loop with its saved position compiles pairs of words, whatever the spacing, and says what the spacing after a lone keyword changes |
| TraceQuery.ResolvedMeansTheSame | src/os_trace.c:267-523 | the exec function of a compiled criterion accepts exactly the users the criterion means, with the default comparisons of ages and channel counts |
| TraceQuery.ArgumentAsks | src/os_trace.c:115-151 | the prepare functions take exactly the arguments that ask for something, in any case and spelling of numbers, and make the criterion of what is asked for |
| TraceQuery.KeywordsAre | src/os_trace.c:1008-1014 | the keywords of criteria are found in any case, and no others |
| TraceQuery.CompileGivesQueries | src/os_trace.c:872-906 | any text whose words ask for something, however spelled and spaced, compiles to exactly the criteria asked for |
| TraceQuery.WordsOfAsk | src/os_trace.c:115-512 | criteria written as pairs of words ask for exactly those criteria: operators, negative ages, counts and yes or no are read back |
| TraceQuery.CompileAfterRender | src/os_trace.c:115-512 | writing criteria as NAME arg NAME arg and compiling gives the same criteria with nothing left over |
| TraceQuery.CompilesExactlyWhenGood | src/os_trace.c:872-906 | where the loop meets no REGEXP and no keyword with only spaces behind it: a text compiles if and only if its words are pairs of a known keyword and an argument it takes |
| TraceQuery.InvalidExactlyWhenRefused | src/os_trace.c:881-902 | the criteria are invalid if the first bad word is an unknown keyword, a keyword with nothing behind it, or the keyword of an argument that is not taken; and only then, for texts in which the loop reaches no REGEXP |
| TraceAction.QuotedReasonReads | src/os_trace.c:153-199 | a quoted reason without quotes inside is recovered exactly and the rest of the input is left |
| TraceAction.BareReasonReads | src/os_trace.c:153-199 | so is a single word that does not start with a quote, with or without more input |
| TraceAction.UnclosedQuoteIsNoReason | src/os_trace.c:195-196 | an open quote gives no reason |
| TraceAction.TimedAkillReads | src/os_trace.c:649-700 | "!T n", in either case and with blanks in front, with nothing, h, d or w in either case is 60n seconds times 1, 60, 1440 or 10080, and the rest gives the reason |
| TraceAction.TimedAkillRefused | src/os_trace.c:670-701 | !T with a token that gives no duration, or with nothing behind the token, is refused |
| TraceAction.OtherUnitsRefused | src/os_trace.c:679-697 | any other letter behind the number gives no duration |
| TraceAction.PermanentAkillReads | src/os_trace.c:652-704 | "!P text", in either case and with blanks in front, is a permanent kline whose reason the text gives |
| TraceAction.LoneMark | src/os_trace.c:663-673 | !T at the end is refused, !P at the end has an empty reason |
| TraceAction.PlainAkillReads | src/os_trace.c:644-705 | text that begins with neither mark gives the reason with all of it, and the default duration |
| TraceAction.QuotedReasonBans | src/os_trace.c:153-199 | the kline has the quoted reason and the duration, and what is behind the quote is left for the criteria |
| TraceAction.BareReasonBans | src/os_trace.c:153-199 | so it has a reason of one word |
| TraceAction.BlankReason | src/os_trace.c:153-199 | no text gives an empty reason, and no criteria |
| TraceAction.AcceptedDurations | src/os_trace.c:636-703 | every accepted !T duration is positive, !P is permanent, and without either the default holds |
| TraceAction.AkillExtends | src/os_trace.c:711-739 | old klines stay in front, new ones are for eligible users' hosts not covered before, and no two are for one host |
| TraceAction.AkillCovers | src/os_trace.c:711-739 | every eligible user is covered in the end |
| TraceAction.AkillMatchesWhatItAdds | src/os_trace.c:711-750 | an AKILL has matched exactly if it added a kline |
| Trace.ExtractReason | src/os_trace.c:153-199 | the loops over the argument give the reason and the rest |
| Trace.PrepareAkill | src/os_trace.c:636-705 | token, duration and reason in the order of the code, which the laws of TraceAction tell for every text |
| Trace.CompileCriteria | src/os_trace.c:872-906 | the loop appends one criterion a turn and stops as the recursive compilation does |
| Trace.Services.Perform | src/os_trace.c:558-777 | what each action does to one user and to its own counters |
| Trace.Services.RunOnUsers | src/os_trace.c:908-925 | the action is done once, in directory order, to precisely the users all criteria accept, early exit or not |
| Trace.Services.OsCmdTrace | src/os_trace.c:865-978 | the whole command from arguments to report and effect, with each way to fail |
| Trace.SelectedIsWhatIsMeant | src/os_trace.c:908-922 | the users selected are those all criteria mean |
| TraceAction.FilterOfParts | src/os_trace.c:908-925 | the users selected of a directory are those selected of its parts, in order |
| TraceAction.FilterOfOne | src/os_trace.c:908-925 | of one user, it exactly if it is accepted |
| Trace.ActionsAre | src/os_trace.c:948-956 | the four actions are found in any case, and no others, and what each makes of its arguments |
| Trace.FailuresAre | src/os_trace.c:865-978 | an unknown action, an action that finds its arguments wanting and missing criteria each have their report, and nobody is acted on |
| Trace.TraceActsOnExactlyThoseMeant | src/os_trace.c:858-978 | from text to effect, for every text that asks for something, however spelled: the action is done to exactly the users meant, in order |
| Trace.BadCriterionStopsAll | src/os_trace.c:881-902 | if the first bad word is refused, invalid criteria are reported and nobody is acted on, whatever came before; for texts in which the loop reaches no REGEXP they are reported only then |
| Trace.CountTellsHowMany | src/os_trace.c:765-790 | COUNT reports how many of the users meant are no internal clients |
| Trace.PrintShowsThem | src/os_trace.c:558-579 | PRINT shows exactly those, in order, and says "No matches" exactly when there are none |
| Trace.KillKillsThem | src/os_trace.c:581-634 | for any arguments with a reason, quoted or bare: KILL kills exactly the users meant that are no internal clients and no opers, in order |
| Trace.AkillCoversExactlyTheEligible | src/os_trace.c:711-750 | an AKILL run leaves old klines alone, adds one for each uncovered host of an eligible user meant, covers them all, and says "No matches" exactly if it adds none |

## Left out

- Notices, messages, wallops, log entries, help, module loading and hook registration: output and plumbing; LOOK and WHO of the game only print.
- The probability of draws: every value of `rand()` is an arbitrary parameter. The draws for exits come from a sequence, and a start whose redraws outlast it is no step, as a redraw that never ends is in the source.
- Timer handles and freed memory in the game: the wumpus timer is an event that may come at any time, running game or not, which covers a move timer left over by `src/wumpus.c:531-534`.
- C's int limits: `atoi` and `atol` are mathematical, and so are hit points and arrows; the wrap of `wantsize` and NUMCHAN to unsigned int, of the time stamp to unsigned long and of the vhost counter are modelled.
- The REGEXP criterion belongs to the regex library: a text in which the loop reaches it compiles to an outcome of its own, about which nothing is said.
- A keyword with only spaces behind it hands a NULL token to its `prepare` function; what library code makes of it is not part of this model (for GLOB, `src/os_trace.c:317` suggests a criterion that matches nobody), so the model gives it an outcome of its own, about which nothing is said.
- Glob matching, host matching against local addresses, the meaning of template flags, and the server, channel and template tables are uninterpreted parameters; `kline_find` means that a kline for this host exists, without expiry.
- `strip()` is not part of the repository; it is taken to cut a token at its first newline, carriage return or \1.
- The network side of restoring a channel: whether a channel can be joined is a parameter, modes are a sequence of mode strings as they were given, `chanban_add` appends, channels are looked up by exact name, and the merging of topic time stamps is not modelled.
- AjoinExact.DelByItems: stated for arguments that are not empty and have no comma; the others match no single item, and AjoinExact.DelRemovesExactlyWhenSafe treats them apart.
- Pointers into strings are modelled as the text from there on, and the NULs that `strtok` and `reason_extract` write as the texts they separate; the array edited by AJOIN DEL, the page of rooms and the vhost buffer are arrays.
- Freeing and reuse of list nodes, and the removal of killed users from the user list while TRACE walks it: the directory is a fixed sequence.
- COMPAT_HOSTLEN and the host suffix are parameters of `Vhost.Registrar`.
- The metadata store other than the one entry AJOIN uses, and case folding beyond ASCII.
- The other modules of the repository (word lists, auto-voice, DNS lookups, forked children, listeners, graph dumps): easy list or flag claims, or input and output.
