/** The game manager of game_core/game_manager.py: the per-session player
    list, whose turn it is, the colour lists it keeps for its whole
    lifetime, and the rule that turns one bot decision into one turn.

    Collaborators whose code is not part of this model appear as
    parameters: the tanks each new player places, the bot's decision as the
    player object relays it, and the players' state and landing point after
    a shot has been simulated. The calls the manager makes on them are
    recorded instead: `tankTurns` lists, in order, the players asked for
    their next active tank, and a turn returns the last-hit report it passes
    on. */
module Game {
  import opened Wrappers
  import opened Bots
  import opened Players
  import opened Turns
  import opened Colors

  /** A bot's answer as the game manager receives it: an angle and a power,
      or nothing usable (the bot raised or returned the wrong shape). */
  datatype Decision = Forfeit | Aim(angle: int, power: int)

  /** The manager fires only when both numbers are truthy, that is non-zero. */
  predicate Fires(d: Decision) {
    d.Aim? && d.angle != 0 && d.power != 0
  }

  /** Where a shot landed (y counted upwards), for the player holding the
      turn once the players have been rotated. */
  datatype LastHitReport = LastHitReport(playerId: nat, position: Point)

  /** The bots' preferred colours, in the order the game was given the bots. */
  function Preferences(bots: seq<RandomAttacker>): (r: seq<string>)
    ensures |r| == |bots| && forall k :: 0 <= k < |bots| ==> r[k] == bots[k].preferredColor
  {
    seq(|bots|, k requires 0 <= k < |bots| => bots[k].preferredColor)
  }

  /** The players of a new session: one per bot, numbered in order, with
      the colours handed out and the tanks placed, all in the game. */
  function SessionPlayers(bots: seq<RandomAttacker>, colors: seq<string>, tanks: seq<seq<Tank>>): (r: seq<Player>)
    requires |colors| <= |bots| && |colors| <= |tanks|
    ensures |r| == |colors|
    ensures forall k :: 0 <= k < |r| ==> r[k].id == k && r[k].color == colors[k] && r[k].inGame
    ensures forall k :: 0 <= k < |r| ==> r[k].bot == bots[k] && r[k].activeTanks == tanks[k]
  {
    if colors == [] then []
    else
      var n := |colors| - 1;
      SessionPlayers(bots, colors[..n], tanks) + [Player(n, bots[n], colors[n], true, tanks[n])]
  }

  /** A new session's players are numbered apart, and the first holds the turn. */
  lemma SessionRoster(bots: seq<RandomAttacker>, colors: seq<string>, tanks: seq<seq<Tank>>)
    requires |colors| <= |bots| && |colors| <= |tanks| && colors != []
    ensures Roster(SessionPlayers(bots, colors, tanks), Some(0))
  {
  }

  class GameManager {
    const tankNumber: nat
    const playerObjects: seq<RandomAttacker>
    /** The colour names the graphics library knows. */
    const validColors: set<string>
    const displayHeight: int

    var players: seq<Player>
    /** The number of the player whose turn it is; `None` before the first session. */
    var activeId: Option<nat>
    var takenColors: seq<string>
    var freeColors: seq<string>
    var tankTurns: seq<nat>

    ghost predicate Valid()
      reads this
    {
      Roster(players, activeId)
    }

    /** Every spare colour is a name the graphics library knows, so looking a
        handed-out colour up never fails. */
    ghost predicate SpareColorsValid()
      reads this
    {
      forall c :: c in freeColors ==> c in validColors
    }

    constructor (tankNumber: nat, playerObjects: seq<RandomAttacker>, validColors: set<string>, displayHeight: int)
      requires forall c :: c in InitialFreeColors ==> c in validColors
      ensures this.tankNumber == tankNumber && this.playerObjects == playerObjects
      ensures this.validColors == validColors && this.displayHeight == displayHeight
      ensures players == [] && activeId == None && tankTurns == []
      ensures takenColors == [] && freeColors == InitialFreeColors
      ensures Valid() && SpareColorsValid()
    {
      this.tankNumber := tankNumber;
      this.playerObjects := playerObjects;
      this.validColors := validColors;
      this.displayHeight := displayHeight;
      players := [];
      activeId := None;
      takenColors := [];
      freeColors := InitialFreeColors;
      tankTurns := [];
    }

    /** The colour loop of `reinitialize_players`: one new player per bot,
        numbered in order, each with the colour the colour rule gives it
        from the current lists, in the game with the tanks it placed. The
        loop stops (`ok` false) at the first bot left without a colour,
        where popping the empty spare list raises in the source; the lists
        and players built so far are returned either way. */
    method SeatPlayers(tanks: seq<seq<Tank>>) returns (session: seq<Player>, taken: seq<string>, free: seq<string>, ok: bool)
      requires |tanks| == |playerObjects|
      requires SpareColorsValid()
      ensures var a := AssignColors(Preferences(playerObjects), Palette(takenColors, freeColors), validColors);
              taken == a.palette.taken && free == a.palette.free &&
              session == SessionPlayers(playerObjects, a.colors, tanks) && ok == a.complete
    {
      var prefs := Preferences(playerObjects);
      ghost var pal := Palette(takenColors, freeColors);
      taken, free, session := takenColors, freeColors, [];
      ok := true;
      var i := 0;
      ghost var served: seq<string> := [];
      assert prefs[..0] == [];
      while i < |playerObjects| && ok
        invariant 0 <= i <= |playerObjects|
        invariant AssignColors(prefs[..i], pal, validColors) == Assignment(served, Palette(taken, free), ok)
        invariant session == SessionPlayers(playerObjects, served, tanks)
      {
        var preferred := playerObjects[i].GetPreferredColor();
        if preferred !in taken && preferred in validColors {
          GrantStep(prefs, i, pal, validColors, served, taken, free);
          taken := taken + [preferred];
          AppendPlayer(served, preferred, tanks);
          session := session + [Player(i, playerObjects[i], preferred, true, tanks[i])];
          served := served + [preferred];
        } else if free == [] {
          FailStep(prefs, i, pal, validColors, served, taken);
          ok := false;
        } else {
          PopStep(prefs, i, pal, validColors, served, taken, free);
          var color := free[|free| - 1];
          free := free[..|free| - 1];
          AppendPlayer(served, color, tanks);
          session := session + [Player(i, playerObjects[i], color, true, tanks[i])];
          served := served + [color];
        }
        i := i + 1;
      }
      if !ok {
        AssignStopsAtFailure(prefs, i, pal, validColors);
      } else {
        assert prefs[..|playerObjects|] == prefs;
      }
    }

    /** `reinitialize_players` as written: the players and colour lists
        become those the colour loop leaves (the lists carry over from
        earlier sessions); then the first player holds the turn. `ok` is
        false where the source raises: the spare list is empty when a colour
        is needed, or there is no player to give the turn to. */
    method ReinitializePlayers(tanks: seq<seq<Tank>>) returns (ok: bool)
      requires |tanks| == |playerObjects|
      requires forall k :: 0 <= k < |tanks| ==> |tanks[k]| == tankNumber
      requires SpareColorsValid()
      modifies this
      ensures var a := AssignColors(Preferences(playerObjects), Palette(old(takenColors), old(freeColors)), validColors);
              takenColors == a.palette.taken && freeColors == a.palette.free &&
              players == SessionPlayers(playerObjects, a.colors, tanks) &&
              ok == (a.complete && playerObjects != [])
      ensures ok ==> activeId == Some(0) && Valid()
      ensures !ok ==> activeId == old(activeId)
      ensures forall k :: 0 <= k < |players| ==> players[k].color in validColors
      ensures forall k :: 0 <= k < |players| ==> |players[k].activeTanks| == tankNumber
      ensures SpareColorsValid() && tankTurns == old(tankTurns)
    {
      ghost var a := AssignColors(Preferences(playerObjects), Palette(takenColors, freeColors), validColors);
      AssignColorsValid(Preferences(playerObjects), Palette(takenColors, freeColors), validColors);
      var session, taken, free, seated := SeatPlayers(tanks);
      takenColors, freeColors, players := taken, free, session;
      if !seated || session == [] {
        // popping the empty spare list, or `self.players[0]` on an empty list, raises
        return false;
      }
      SessionRoster(playerObjects, a.colors, tanks);
      activeId := Some(session[0].id);
      ok := true;
    }

    /** One more player joins the session list. */
    lemma AppendPlayer(served: seq<string>, color: string, tanks: seq<seq<Tank>>)
      requires |served| < |playerObjects| && |served| < |tanks|
      ensures SessionPlayers(playerObjects, served + [color], tanks) ==
              SessionPlayers(playerObjects, served, tanks) + [Player(|served|, playerObjects[|served|], color, true, tanks[|served|])]
    {
      assert (served + [color])[..|served|] == served;
    }

    /** `reinitialize_players` with the colour lists reset first, so that
        every session starts from the same lists: with up to eight bots it
        never runs out of colours, however many sessions are played. */
    method ReinitializePlayersFresh(tanks: seq<seq<Tank>>) returns (ok: bool)
      requires |tanks| == |playerObjects|
      requires forall k :: 0 <= k < |tanks| ==> |tanks[k]| == tankNumber
      requires forall c :: c in InitialFreeColors ==> c in validColors
      modifies this
      ensures var a := AssignColors(Preferences(playerObjects), Palette([], InitialFreeColors), validColors);
              takenColors == a.palette.taken && freeColors == a.palette.free &&
              players == SessionPlayers(playerObjects, a.colors, tanks) &&
              ok == (a.complete && playerObjects != [])
      ensures |playerObjects| <= |InitialFreeColors| ==> (ok <==> playerObjects != [])
      ensures ok ==> activeId == Some(0) && Valid()
      ensures !ok ==> activeId == old(activeId)
      ensures forall k :: 0 <= k < |players| ==> players[k].color in validColors
      ensures forall k :: 0 <= k < |players| ==> |players[k].activeTanks| == tankNumber
      ensures SpareColorsValid() && tankTurns == old(tankTurns)
    {
      takenColors := [];
      freeColors := InitialFreeColors;
      ok := ReinitializePlayers(tanks);
      if |playerObjects| <= |InitialFreeColors| {
        EnoughSpareColors(Preferences(playerObjects), Palette([], InitialFreeColors), validColors);
      }
    }

    /** The start of a session in `run`, first or after "play again": set up
        the players (with fresh colour lists), then ask the first player for
        its next active tank. */
    method StartSession(tanks: seq<seq<Tank>>) returns (ok: bool)
      requires |tanks| == |playerObjects|
      requires forall k :: 0 <= k < |tanks| ==> |tanks[k]| == tankNumber
      requires forall c :: c in InitialFreeColors ==> c in validColors
      modifies this
      ensures var a := AssignColors(Preferences(playerObjects), Palette([], InitialFreeColors), validColors);
              takenColors == a.palette.taken && freeColors == a.palette.free &&
              players == SessionPlayers(playerObjects, a.colors, tanks) &&
              ok == (a.complete && playerObjects != [])
      ensures forall k :: 0 <= k < |players| ==> players[k].color in validColors
      ensures forall k :: 0 <= k < |players| ==> |players[k].activeTanks| == tankNumber
      ensures SpareColorsValid()
      ensures ok ==> Valid() && activeId == Some(0) && |players| == |playerObjects|
      ensures !ok ==> activeId == old(activeId)
      ensures ok ==> tankTurns == old(tankTurns) + [0]
      ensures !ok ==> tankTurns == old(tankTurns)
      ensures |playerObjects| <= |InitialFreeColors| ==> (ok <==> playerObjects != [])
    {
      ok := ReinitializePlayersFresh(tanks);
      if ok {
        tankTurns := tankTurns + [players[0].id];
      }
    }

    /** `update_players` as written. The source's `while True` loop re-runs
        the same assignment from an index it never moves, so it returns
        only when the first candidate survived; that is this method's
        second precondition. */
    method UpdatePlayers()
      requires Valid()
      requires !RotateAsWritten(players, activeId).Hangs?
      modifies this
      ensures Valid()
      ensures Rotated(players, activeId) == RotateAsWritten(old(players), old(activeId))
      ensures takenColors == old(takenColors) && freeColors == old(freeColors) && tankTurns == old(tankTurns)
    {
      var ps, active := players, activeId;
      ScanningAgreesWhereAsWrittenReturns(ps, active);
      RotateScanningKeepsRoster(ps, active);
      var left := CollectSurvivors(ps);
      AsWrittenBranches(ps, left, active);
      var next := active;
      if active.Some? && IndexOf(left, active.value).Some? {
        next := Some(left[(IndexOf(left, active.value).value + 1) % |left|].id);
        assert RotateAsWritten(ps, active) == Rotated(left, next);
      } else if |left| > 0 {
        var initIndex := IndexOf(ps, active.value).value;
        next := Some(ps[(initIndex + 1) % |ps|].id);
        assert RotateAsWritten(ps, active) == Rotated(left, next);
      }
      assert Roster(left, next);
      players, activeId := left, next;
    }

    /** `update_players` with the fall-back loop advancing its index, so that
        it stops at the first survivor after the eliminated active player. */
    method UpdatePlayersScanning()
      requires Valid()
      modifies this
      ensures Valid()
      ensures Rotated(players, activeId) == RotateScanning(old(players), old(activeId))
      ensures old(activeId).Some? ==> activeId.Some?
      ensures takenColors == old(takenColors) && freeColors == old(freeColors) && tankTurns == old(tankTurns)
    {
      var ps, active := players, activeId;
      RotateScanningKeepsRoster(ps, active);
      var left := CollectSurvivors(ps);
      ScanningBranches(ps, left, active);
      var next := active;
      if active.Some? && IndexOf(left, active.value).Some? {
        next := Some(left[(IndexOf(left, active.value).value + 1) % |left|].id);
      } else if |left| > 0 {
        var i := IndexOf(ps, active.value).value;
        var d := 1;
        while d < |ps| && IndexOf(left, ps[Cyclic(|ps|, i, d)].id).None?
          invariant 1 <= d <= |ps|
          invariant ScanOffset(ps, left, i, d) == ScanOffset(ps, left, i, 1)
          decreases |ps| - d
        {
          d := d + 1;
        }
        next := Some(ps[Cyclic(|ps|, i, d)].id);
      }
      assert RotateScanning(ps, active) == Rotated(left, next);
      assert Roster(left, next);
      players, activeId := left, next;
    }

    /** The game is over once at most one player is left. */
    predicate GameOver()
      reads this
    {
      |players| <= 1
    }

    /** One turn of `run`, after the active player's bot has answered. When
        the answer fires (angle and power both non-zero) the shot is taken,
        leaving the players as `afterShot` says and landing at `landing`;
        the players are then rotated, and the landing point, y flipped, is
        reported to the player now holding the turn. Otherwise nothing
        changes. Either way the player holding the turn is asked for its
        next active tank; the game is over once the shot left at most one
        player standing. */
    method TurnStep(decision: Decision, afterShot: seq<Player>, landing: Point) returns (report: Option<LastHitReport>)
      requires Valid() && activeId.Some?
      requires SameRoster(players, afterShot)
      modifies this
      ensures Valid() && activeId.Some?
      ensures Fires(decision) ==>
                Rotated(players, activeId) == RotateScanning(afterShot, old(activeId)) &&
                report == Some(LastHitReport(activeId.value, Point(landing.x, displayHeight - landing.y)))
      ensures Fires(decision) ==> (GameOver() <==> |Survivors(afterShot)| <= 1)
      ensures !Fires(decision) ==> players == old(players) && activeId == old(activeId) && report == None
      ensures tankTurns == old(tankTurns) + [activeId.value]
      ensures takenColors == old(takenColors) && freeColors == old(freeColors)
    {
      if Fires(decision) {
        SameRosterIndexOf(players, afterShot, activeId.value);
        players := afterShot;
        UpdatePlayersScanning();
        report := Some(LastHitReport(activeId.value, Point(landing.x, displayHeight - landing.y)));
      } else {
        report := None;
      }
      tankTurns := tankTurns + [activeId.value];
    }

    /** `TurnStep` with the last hit reported to the player who fired, whose
        bot the report is about, instead of the player who holds the turn
        after the rotation. */
    method TurnStepReportingShooter(decision: Decision, afterShot: seq<Player>, landing: Point) returns (report: Option<LastHitReport>)
      requires Valid() && activeId.Some?
      requires SameRoster(players, afterShot)
      modifies this
      ensures Valid() && activeId.Some?
      ensures Fires(decision) ==>
                Rotated(players, activeId) == RotateScanning(afterShot, old(activeId)) &&
                report == Some(LastHitReport(old(activeId).value, Point(landing.x, displayHeight - landing.y)))
      ensures Fires(decision) ==> (GameOver() <==> |Survivors(afterShot)| <= 1)
      ensures !Fires(decision) ==> players == old(players) && activeId == old(activeId) && report == None
      ensures tankTurns == old(tankTurns) + [activeId.value]
      ensures takenColors == old(takenColors) && freeColors == old(freeColors)
    {
      var shooter := activeId.value;
      report := TurnStep(decision, afterShot, landing);
      if report.Some? {
        report := Some(LastHitReport(shooter, report.value.position));
      }
    }
  }
}
