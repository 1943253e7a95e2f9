# ScorchedEarth game manager: players, turns and colours

This project models the bookkeeping core of the ScorchedEarth artillery
game, in which bots drive tanks and take turns shooting at each other:

- the bot interface and the `RandomAttacker` bot (`bots/bots.py`);
- the `GameManager` of `game_core/game_manager.py`, covering:
  - how a session's players are built and coloured (`reinitialize_players`);
  - which object a shell hits first (`check_collision`);
  - the tank list the bots are shown (`generate_tank_list`);
  - how the turn passes after a shot (`update_players`);
  - the turn rule and the game-over test in `run`.

Modules:

- `Wrappers`: `Option`.
- `Seqs`: an order-preserving filter with its append law.
- `Bots`: the bot class with its name, preferred colour, last hit and random attack.
- `Players`: players as values identified by their number, with:
  - the `in` and `.index` lookups of the source;
  - the survivors of a shot;
  - collision priority;
  - the tank list.
- `Turns`: the survivor loop as a method, and turn rotation in two forms:
  - `RotateAsWritten`, which follows the source, including the case where
    it never returns;
  - `RotateScanning`, the corrected rotation that the rest of the model uses.
- `Colors`: the colour rule for one bot and for a whole session, and
  examples of what it does over several sessions.
- `Game`: the `GameManager` class. Its fields are updated in place by:
  - `ReinitializePlayers`;
  - `UpdatePlayers`;
  - `TurnStep`;
  - the session start.

Each of these methods is proved against the specification functions above.

## Model

| member | source | states |
|---|---|---|
| Bots.RandomAttacker.constructor | bots/bots.py:49-50 | the bot keeps the name and preferred colour it was given (by default "Randomer" and "green", passed on to the interface's initialiser) and has no last hit yet |
| Bots.RandomAttacker.GetName | bots/bots.py:14-18 | returns the name given at construction |
| Bots.RandomAttacker.GetPreferredColor | bots/bots.py:20-24 | returns the preferred colour given at construction |
| Bots.RandomAttacker.UpdateLastHit | bots/bots.py:26-33 | the last hit becomes the reported position, nothing else changes |
| Bots.RandomAttacker.Attack | bots/bots.py:52-58 | the angle lies in [-90, 90) and the power in [0, 100), whatever the other bots are |
| Seqs.Filter | game_core/game_manager.py:163-166 | the filtered list is never longer than the input |
| Seqs.FilterMembers | game_core/game_manager.py:163-166 | everything kept comes from the input and passes the test, and every passing element of the input is kept |
| Seqs.FilterAppend | game_core/game_manager.py:163-166 | filtering a concatenation is concatenating the filtered parts (order is kept) |
| Seqs.FilterPrefixStep | game_core/game_manager.py:164-166 | one more pass of the loop appends the next player exactly when it passes the test |
| Players.IndexOf | game_core/game_manager.py:168-172 | `in` and `.index`: the first position holding the player's number, or none when no position does |
| Players.SameRosterIndexOf | game_core/game_manager.py:277-278 | a shot changes no player's position in the list, so looking the active player up gives the same answer |
| Players.Survivors | game_core/game_manager.py:163-166 | the players still in the game, in their original order (the filter of the loop), never more of them than there were players |
| Players.SurvivorsUnique | game_core/game_manager.py:163-166 | the survivors list never holds the same player twice |
| Players.ListedIffInGame | game_core/game_manager.py:163-168 | a player is found among the survivors if and only if it is still in the game |
| Players.CheckCollision | game_core/game_manager.py:61-75 | with no tank hit the ground's answer is returned; otherwise the hit on the first player in list order whose tanks are hit |
| Players.GroundIgnoredAfterTankHit | game_core/game_manager.py:70-75 | once any tank is hit, the ground is never consulted and a collision is always reported |
| Players.Summary | game_core/game_manager.py:200-206 | defined for a player with an active tank: its bot's name, the position of its first active tank with y counted upwards from the bottom of the display, and that tank's health |
| Players.TankList | game_core/game_manager.py:193-209 | every player with an active tank contributes the summary of its first tank (bot name, position with y flipped, health), players without tanks contribute nothing, and nothing else is listed |
| Players.TankListAppend | game_core/game_manager.py:198-209 | the list is built in player order: the list of a concatenation is the concatenation of the lists |
| Turns.CollectSurvivors | game_core/game_manager.py:163-166 | the loop collects exactly the players still in the game, in order |
| Turns.RotateAsWritten | game_core/game_manager.py:158-178 | `update_players` as written: a surviving active player passes the turn to the next survivor, wrapping around; an eliminated one to the old list's next entry, which never returns (`Hangs`) unless that entry survived; with no survivor the turn holder stays; whenever it returns the new players are exactly the survivors, and it can only hang when someone survives |
| Turns.RotateScanning | game_core/game_manager.py:158-178 | the corrected rotation: as written, except that an eliminated active player passes the turn to the first survivor after it in the old list, wrapping around; it never hangs, its new players are exactly the survivors, and it fails only when the turn holder is missing from the list |
| Turns.ScanOffset | game_core/game_manager.py:171-176 | the corrected fall-back scan stops at the first listed player after the active one, or after one full round |
| Turns.NextPosition | game_core/game_manager.py:174 | one cyclic step after position i is `(i + 1) % n` |
| Turns.CyclicOffset | game_core/game_manager.py:172-176 | every other position is reached by the scan within one round |
| Turns.ScanReachesSurvivor | game_core/game_manager.py:171-176 | when someone survives but the active player does not, the corrected scan finds a survivor |
| Turns.SurvivorBranchListed | game_core/game_manager.py:168-169 | when the active player survives, the turn passes to the next survivor, who is listed |
| Turns.FallbackBranchListed | game_core/game_manager.py:170-176 | when the active player is out and someone survives, the corrected rotation hands the turn to a survivor |
| Turns.RotateScanningKeepsRoster | game_core/game_manager.py:158-178 | after rotation the players are exactly the survivors, numbered apart, and the turn holder is one of them; with no survivor the turn holder is unchanged |
| Turns.ScanningAgreesWhereAsWrittenReturns | game_core/game_manager.py:158-178 | whenever the source's `update_players` returns, the corrected rotation gives the same players and turn holder |
| Turns.AsWrittenHangsWithSurvivor | game_core/game_manager.py:170-176 | players 0 and 1 out, player 2 alive, player 0 active: the source's loop never stops, while the corrected rotation gives the turn to player 2 |
| Turns.RoundRobinExample | game_core/game_manager.py:158-178 | with three players and the second eliminated, the turn alternates first, third, first, third |
| Turns.TurnLeavesSurvivingShooter | game_core/game_manager.py:278-280 | while the player who fired and someone else survive, the rotation always hands the turn to a different player, so the landing point reported after it goes to another bot than the one that fired |
| Turns.LastSurvivorTakesTheTurn | game_core/game_manager.py:158-178 | when one player is left, that player holds the turn |
| Colors.ChooseColor | game_core/game_manager.py:46-53 | a bot gets its preferred colour if and only if that colour is not taken and is a known colour name, and the colour is then marked taken; otherwise it gets the last spare colour, which is removed from the spares, or the step fails when no spare is left |
| Colors.AssignColors | game_core/game_manager.py:45-55 | a session colours bots in order until the first failure: never more colours than bots, and all bots are coloured exactly when it completes |
| Colors.AssignColorsConserves | game_core/game_manager.py:45-55 | taken colours only grow and spare colours only shrink from the end, each coloured bot uses exactly one colour, and each bot's colour is its own preference or was a spare colour |
| Colors.AssignColorsValid | game_core/game_manager.py:48-55 | when all spare colours are known colour names, every colour handed out and every spare left is one too, so the colour lookup for a new player never fails |
| Colors.AssignPrefixStep | game_core/game_manager.py:45-53 | colouring one more bot is one more application of the one-bot rule |
| Colors.GrantStep | game_core/game_manager.py:48-50 | a free, known preferred colour is granted and marked taken |
| Colors.PopStep | game_core/game_manager.py:52-53 | otherwise the last spare colour is handed out and removed |
| Colors.FailStep | game_core/game_manager.py:52-53 | otherwise, with no spare colour, the session fails with the colours handed out so far |
| Colors.AssignStopsAtFailure | game_core/game_manager.py:45-55 | once colouring fails, the remaining bots change nothing |
| Colors.EnoughSpareColors | game_core/game_manager.py:33-35 | with at least as many spare colours as bots, every bot is coloured |
| Colors.ThreeGreenBots | game_core/game_manager.py:45-55 | three bots that prefer green, first session: green, magenta, cyan |
| Colors.SpareColorMayBeTaken | game_core/game_manager.py:48-53 | a popped spare colour may be one already granted: preferences magenta and an unknown name both end up magenta |
| Colors.ThreeGreenBotsWhenGreenTaken | game_core/game_manager.py:48-53 | with green already taken, three green bots take the last three spare colours, last first |
| Colors.PlayAgainRunsOutOfColors | game_core/game_manager.py:33-55 | with the lists kept across sessions, three green bots get [green, magenta, cyan], then [orange, yellow, purple], then [blue, green, red], and the fourth session runs out of colours |
| Game.Fires | game_core/game_manager.py:253-254 | a bot's answer is acted on only when it is an angle and a power that are both non-zero (truthy) |
| Game.Preferences | game_core/game_manager.py:45-46 | the preferred colour of each bot, in bot order |
| Game.SessionPlayers | game_core/game_manager.py:45-55 | one player per coloured bot, numbered in order, carrying its bot, its colour and the tanks it placed, in the game |
| Game.SessionRoster | game_core/game_manager.py:55-59 | a new session's players are numbered apart and the first of them can hold the turn |
| Game.GameManager.constructor | game_core/game_manager.py:31-35 | no colour taken, the eight spare colours in their order, no player yet |
| Game.GameManager.SeatPlayers | game_core/game_manager.py:45-55 | the loop returns the players, taken list and spare list of `AssignColors` continued from the current lists, and completes exactly when `AssignColors` does |
| Game.GameManager.ReinitializePlayers | game_core/game_manager.py:37-59 | the new players and colour lists are those of `AssignColors` continued from the current lists; the first player holds the turn; it fails exactly when colours run out or there are no bots, and the turn holder is then kept; every player's colour is a known name, every player has `tank_number` tanks, and the spare colours stay known names |
| Game.GameManager.AppendPlayer | game_core/game_manager.py:55 | appending a player to the session list is appending one more coloured bot |
| Game.GameManager.ReinitializePlayersFresh | game_core/game_manager.py:37-59 | as `ReinitializePlayers` from fresh colour lists (on failure the turn holder is kept; every player has `tank_number` tanks; the spare colours stay known names); with at most eight bots it succeeds if and only if there is a bot |
| Game.GameManager.StartSession | game_core/game_manager.py:215-238 | a session starts with the players and colour lists that `AssignColors` gives from fresh lists, every colour a known name, every player with `tank_number` tanks, and the spare colours still known names; on failure the turn holder is kept and no player is asked for a tank; on success all bots are seated, the first player holds the turn and is asked for its next tank; with at most eight bots it succeeds if and only if there is a bot |
| Game.GameManager.UpdatePlayers | game_core/game_manager.py:158-178 | where the source returns, the new players and turn holder are those of `RotateAsWritten`, and the roster stays valid |
| Game.GameManager.UpdatePlayersScanning | game_core/game_manager.py:158-178 | the new players and turn holder are those of `RotateScanning`; the roster stays valid and someone still holds the turn |
| Game.GameManager.GameOver | game_core/game_manager.py:291-292 | the game is over once at most one player is left in the list |
| Game.GameManager.TurnStep | game_core/game_manager.py:253-292 | a firing decision (angle and power both non-zero) replaces the players by the post-shot state and rotates the turn, reports the landing point with y flipped to the new turn holder, and ends the game exactly when at most one player survived; otherwise nothing changes; either way the turn holder is asked for its next tank |
| Game.GameManager.TurnStepReportingShooter | game_core/game_manager.py:253-281 | as `TurnStep`, except that the landing point is reported to the player who fired, as the bot interface documents its last hit (bots/bots.py:26-29) |

## Left out

- The bot interface is abstract in the source. The model has one concrete bot class, `RandomAttacker`, which carries the interface's fields and getters.
- `str()` conversion of the bot's name and colour: the model takes strings directly.
- `random.randrange` is modelled as an arbitrary choice within its bounds, not as a distribution.
- Rendering, sound, fonts, key handling, the clock, and the menu's buttons (pygame) are left out. The menu's bot set-up (`menu/mainMenu.py`) is covered only by the default arguments of the bot constructor.
- The ground and shapely geometry are left out. Whether a shell's path meets a player's tanks or the ground is a parameter of `CheckCollision`.
- `fire_simple_shell`, `correct_ground` and the damage rules: the effect of a shot on the players is the `afterShot` parameter of `TurnStep`, and the landing point is its `landing` parameter.
- The angle and power animation before a shot (game_core/game_manager.py:255-275) sets the active tank's turret angle and power step by step. Only the shell simulation, which is not part of this model, reads them; its outcome is the `afterShot` and `landing` parameters of `TurnStep`.
- The console log of each attack (game_core/game_manager.py:276) is left out: it changes no state.
- Player internals (`initialize_tanks`, `is_in_game`, `next_active_tank`, `update_last_hit_position`, how a player relays its bot's answer):
  - the tanks a player places are parameters;
  - being in the game is the `inGame` field;
  - the calls to `next_active_tank` are recorded in `tankTurns`;
  - the last-hit call is the returned report.
- Game.Fires: Python truthiness of floating-point angles and powers is modelled on integers, as non-zero.
- `pygame.color.THECOLORS` is the constructor's `validColors` set. The colour lookup `THECOLORS[color]` is kept as the name.
- `game_core.constants.display_height` is the constructor's `displayHeight`.
- Game.GameManager.TurnStep: reports the landing point to the player holding the turn after the rotation, as the source does; `TurnStepReportingShooter` is the variant that reports it to the player who fired. Both use the corrected rotation. Where the source's loop returns, the two rotations agree (`Turns.ScanningAgreesWhereAsWrittenReturns`).
- Game.GameManager.StartSession: resets the colour lists before each session, which is the corrected behaviour. `ReinitializePlayers` keeps the source's carried-over lists.
- Game.GameManager.UpdatePlayers: requires that the source's loop returns. A call that never returns cannot be stated as a method result, and `Turns.RotateAsWritten` reports it as `Hangs`.
- Colour uniqueness: the code does not give the players distinct colours, because a popped spare colour can equal a granted one (`Colors.SpareColorMayBeTaken`). The model follows the code.
- The game-over wait loop and the quit keys are left out. The game-over test itself is stated in `TurnStep`.

## Findings

| source | as written | input that shows it | evidently intended | confidence | as-written member | corrected member |
|---|---|---|---|---|---|---|
| game_core/game_manager.py:172-176 | the fall-back loop sets the active player to `players[(init_index + 1) % n]` and never advances `init_index`; when that player is also out, the loop never ends | three players, the active player 0 and player 1 both eliminated by one shot, player 2 still in the game | hand the turn to the first surviving player after the eliminated active player | not executed | Turns.AsWrittenHangsWithSurvivor | Game.GameManager.UpdatePlayersScanning |
| game_core/game_manager.py:33-55 | `taken_colors` and `free_colors` are set once in the constructor and never reset, so every "play again" session pops more spare colours | the menu's three default bots (all preferring green), fourth session: the spare list is empty and `pop()` raises | each session chooses colours from the full lists | not executed | Colors.PlayAgainRunsOutOfColors | Game.GameManager.ReinitializePlayersFresh |
| game_core/game_manager.py:278-280 | `update_players()` runs before `update_last_hit_position`, so the landing point goes to the player who holds the turn after the rotation, while the bot interface documents the last hit as the one made by this bot (bots/bots.py:26-29) | two players, both still in the game after player 0 fires: the landing point of player 0's shot is reported to player 1 | report the landing point to the player who fired | not executed | Turns.TurnLeavesSurvivingShooter | Game.GameManager.TurnStepReportingShooter |
