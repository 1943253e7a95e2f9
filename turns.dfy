/** Turn rotation of the game manager, `update_players`
    (game_core/game_manager.py): drop the eliminated players and hand the
    turn to the next player. Two definitions are given: the rotation as the
    source writes it, whose fall-back loop can run forever, and the rotation
    with that loop scanning forward, which the rest of the model uses. */
module Turns {
  import opened Wrappers
  import opened Seqs
  import opened Bots
  import opened Players

  /** A well-formed turn state: players have distinct numbers and, while
      any player is listed, the active player is one of them. */
  predicate Roster(ps: seq<Player>, active: Option<nat>) {
    UniqueIds(ps) && (ps != [] ==> active.Some? && IndexOf(ps, active.value).Some?)
  }

  /** Outcome of one rotation: the new player list and active player, or the
      two ways the source's code fails to return: the fall-back loop never
      exits, or `players.index` raises because the active player is not in
      the list. */
  datatype Rotation = Rotated(players: seq<Player>, active: Option<nat>) | Hangs | NotInList

  /** The survivors-collecting loop of `update_players`. */
  method CollectSurvivors(ps: seq<Player>) returns (left: seq<Player>)
    ensures left == Survivors(ps)
  {
    left := [];
    for k := 0 to |ps|
      invariant left == Survivors(ps[..k])
    {
      FilterPrefixStep(ps, k, InGame);
      if ps[k].inGame {
        left := left + [ps[k]];
      }
    }
    assert ps[..|ps|] == ps;
  }

  /** `update_players` as written. If the active player survived, the turn
      passes to the next survivor, wrapping around. Otherwise the loop sets
      the active player to the old list's entry after the old active player;
      as the loop never moves its starting index, it repeats that same
      assignment forever unless that entry survived. With no survivors the
      active player stays as it was. */
  function RotateAsWritten(ps: seq<Player>, active: Option<nat>): (r: Rotation)
    ensures r.Rotated? ==> r.players == Survivors(ps)
    ensures r.Hangs? ==> Survivors(ps) != [] && active.Some? && IndexOf(ps, active.value).Some?
  {
    var left := Survivors(ps);
    if active.Some? && IndexOf(left, active.value).Some? then
      Rotated(left, Some(left[(IndexOf(left, active.value).value + 1) % |left|].id))
    else if |left| > 0 then
      if active.None? || IndexOf(ps, active.value).None? then NotInList
      else
        var next := ps[(IndexOf(ps, active.value).value + 1) % |ps|];
        if IndexOf(left, next.id).Some? then Rotated(left, Some(next.id)) else Hangs
    else
      Rotated(left, active)
  }

  /** The position `d` places after position `i` in a cyclic list of
      length `n`, for at most one full turn. */
  function Cyclic(n: nat, i: nat, d: nat): (r: nat)
    requires i < n && d <= n
    ensures r < n
  {
    if i + d < n then i + d else i + d - n
  }

  /** Whether the player `d` places after position `i` (cyclically) is
      among `left`. */
  predicate ListedAt(ps: seq<Player>, left: seq<Player>, i: nat, d: nat)
    requires i < |ps| && d <= |ps|
  {
    IndexOf(left, ps[Cyclic(|ps|, i, d)].id).Some?
  }

  /** How far past position `i` the first player listed in `left` sits,
      looking at most once around the list; a full turn, |ps|, lands on
      position `i` itself. */
  function ScanOffset(ps: seq<Player>, left: seq<Player>, i: nat, d: nat): (r: nat)
    requires i < |ps| && 1 <= d <= |ps|
    ensures d <= r <= |ps|
    ensures forall e :: d <= e < r ==> !ListedAt(ps, left, i, e)
    ensures r < |ps| ==> ListedAt(ps, left, i, r)
    decreases |ps| - d
  {
    if d == |ps| || ListedAt(ps, left, i, d) then d else ScanOffset(ps, left, i, d + 1)
  }

  /** `update_players` with the fall-back loop advancing: when the active
      player was eliminated, the turn passes to the first survivor after it
      in the old list, wrapping around. Everything else as written. */
  function RotateScanning(ps: seq<Player>, active: Option<nat>): (r: Rotation)
    ensures !r.Hangs?
    ensures r.Rotated? ==> r.players == Survivors(ps)
    ensures r.NotInList? ==> active.None? || IndexOf(ps, active.value).None?
  {
    var left := Survivors(ps);
    if active.Some? && IndexOf(left, active.value).Some? then
      Rotated(left, Some(left[(IndexOf(left, active.value).value + 1) % |left|].id))
    else if |left| > 0 then
      if active.None? || IndexOf(ps, active.value).None? then NotInList
      else
        var i := IndexOf(ps, active.value).value;
        Rotated(left, Some(ps[Cyclic(|ps|, i, ScanOffset(ps, left, i, 1))].id))
    else
      Rotated(left, active)
  }

  /** The branches of `RotateAsWritten`, given the survivors. */
  lemma AsWrittenBranches(ps: seq<Player>, left: seq<Player>, active: Option<nat>)
    requires left == Survivors(ps)
    ensures active.Some? && IndexOf(left, active.value).Some? ==>
              RotateAsWritten(ps, active) == Rotated(left, Some(left[(IndexOf(left, active.value).value + 1) % |left|].id))
    ensures !(active.Some? && IndexOf(left, active.value).Some?) && left != [] && active.Some? && IndexOf(ps, active.value).Some? ==>
              var next := ps[(IndexOf(ps, active.value).value + 1) % |ps|].id;
              RotateAsWritten(ps, active) == if IndexOf(left, next).Some? then Rotated(left, Some(next)) else Hangs
    ensures left == [] ==> RotateAsWritten(ps, active) == Rotated(left, active)
  {
  }

  /** The branches of `RotateScanning`, given the survivors. */
  lemma ScanningBranches(ps: seq<Player>, left: seq<Player>, active: Option<nat>)
    requires left == Survivors(ps)
    ensures active.Some? && IndexOf(left, active.value).Some? ==>
              RotateScanning(ps, active) == Rotated(left, Some(left[(IndexOf(left, active.value).value + 1) % |left|].id))
    ensures !(active.Some? && IndexOf(left, active.value).Some?) && left != [] && active.Some? && IndexOf(ps, active.value).Some? ==>
              var i := IndexOf(ps, active.value).value;
              RotateScanning(ps, active) == Rotated(left, Some(ps[Cyclic(|ps|, i, ScanOffset(ps, left, i, 1))].id))
    ensures left == [] ==> RotateScanning(ps, active) == Rotated(left, active)
  {
  }

  /** One place on, cyclically, is the source's `(i + 1) % n`. */
  lemma NextPosition(n: nat, i: nat)
    requires i < n
    ensures Cyclic(n, i, 1) == (i + 1) % n
  {
    if i + 1 == n {
      assert (i + 1) % n == 0;
    }
  }

  /** The offset that leads from position `i` to a different position `j`
      of a cyclic list of length `n`. */
  lemma CyclicOffset(n: nat, i: nat, j: nat) returns (e: nat)
    requires i < n && j < n && i != j
    ensures 1 <= e < n && Cyclic(n, i, e) == j
  {
    e := if j > i then j - i else j - i + n;
  }

  /** When the player at position `i` is not among the survivors but some
      player is, scanning forward from `i` stops at a survivor before coming
      back round to `i`. */
  lemma ScanReachesSurvivor(ps: seq<Player>, i: nat)
    requires i < |ps|
    requires Survivors(ps) != []
    requires IndexOf(Survivors(ps), ps[i].id).None?
    ensures ScanOffset(ps, Survivors(ps), i, 1) < |ps|
  {
    var left := Survivors(ps);
    FilterMembers(ps, InGame);
    assert left[0] in ps;
    var j :| 0 <= j < |ps| && ps[j] == left[0];
    assert IndexOf(left, ps[j].id).Some?;
    var e := CyclicOffset(|ps|, i, j);
    assert ListedAt(ps, left, i, e);
  }

  /** When the active player survived, the turn passes to a survivor. */
  lemma SurvivorBranchListed(ps: seq<Player>, id: nat)
    requires IndexOf(Survivors(ps), id).Some?
    ensures RotateScanning(ps, Some(id)).Rotated?
    ensures IndexOf(Survivors(ps), RotateScanning(ps, Some(id)).active.value).Some?
  {
    var left := Survivors(ps);
    var j := (IndexOf(left, id).value + 1) % |left|;
    var next := left[j].id;
    ScanningBranches(ps, left, Some(id));
    assert IndexOf(left, next).Some?;
  }

  /** When the active player was eliminated but someone survived, the
      scanning loop hands the turn to a survivor. */
  lemma FallbackBranchListed(ps: seq<Player>, id: nat)
    requires Survivors(ps) != [] && IndexOf(Survivors(ps), id).None?
    requires IndexOf(ps, id).Some?
    ensures RotateScanning(ps, Some(id)).Rotated?
    ensures IndexOf(Survivors(ps), RotateScanning(ps, Some(id)).active.value).Some?
  {
    var left := Survivors(ps);
    var i := IndexOf(ps, id).value;
    ScanReachesSurvivor(ps, i);
    var d := ScanOffset(ps, left, i, 1);
    ScanningBranches(ps, left, Some(id));
    assert ListedAt(ps, left, i, d);
  }

  /** The scanning rotation never fails on a well-formed state, keeps the
      survivors only (each still in the game) and hands
      the turn to one of them; with no survivors the list empties and the
      active player is left alone. */
  lemma RotateScanningKeepsRoster(ps: seq<Player>, active: Option<nat>)
    requires Roster(ps, active)
    ensures RotateScanning(ps, active).Rotated?
    ensures RotateScanning(ps, active).players == Survivors(ps)
    ensures Roster(RotateScanning(ps, active).players, RotateScanning(ps, active).active)
    ensures Survivors(ps) == [] ==> RotateScanning(ps, active).active == active
  {
    var left := Survivors(ps);
    SurvivorsUnique(ps);
    if left != [] {
      if IndexOf(left, active.value).Some? {
        SurvivorBranchListed(ps, active.value);
      } else {
        FallbackBranchListed(ps, active.value);
      }
    }
  }

  /** Where the written loop does exit, the scanning rotation gives exactly
      the same result: the correction changes only the runs that would hang. */
  lemma ScanningAgreesWhereAsWrittenReturns(ps: seq<Player>, active: Option<nat>)
    requires !RotateAsWritten(ps, active).Hangs?
    ensures RotateScanning(ps, active) == RotateAsWritten(ps, active)
  {
    var left := Survivors(ps);
    if !(active.Some? && IndexOf(left, active.value).Some?) && |left| > 0
       && active.Some? && IndexOf(ps, active.value).Some? {
      var i := IndexOf(ps, active.value).value;
      NextPosition(|ps|, i);
      assert ScanOffset(ps, left, i, 1) == 1;
    }
  }

  /** The written loop hangs although a player survives: three players, the
      first active, and the shot eliminates both the first and the second. */
  lemma AsWrittenHangsWithSurvivor(b: RandomAttacker, t: Tank)
    ensures var ps := [Player(0, b, "green", false, []),
                       Player(1, b, "magenta", false, []),
                       Player(2, b, "cyan", true, [t])];
            RotateAsWritten(ps, Some(0)) == Hangs &&
            RotateScanning(ps, Some(0)) == Rotated([ps[2]], Some(2))
  {
    var ps := [Player(0, b, "green", false, []),
               Player(1, b, "magenta", false, []),
               Player(2, b, "cyan", true, [t])];
    FilterPrefixStep(ps, 0, InGame);
    FilterPrefixStep(ps, 1, InGame);
    FilterPrefixStep(ps, 2, InGame);
    assert ps[..0] == [] && ps[..3] == ps;
    assert Survivors(ps) == [ps[2]];
    assert ListedAt(ps, [ps[2]], 0, 2);
  }

  /** Three players with one tank each; the second is eliminated while the
      first holds the turn. From then on the turn alternates between the
      first and the third player. */
  lemma RoundRobinExample(b: RandomAttacker, t: Tank)
    ensures var p1, p2, p3 := Player(1, b, "green", true, [t]), Player(2, b, "magenta", false, []), Player(3, b, "cyan", true, [t]);
            RotateAsWritten([p1, p2, p3], Some(1)) == Rotated([p1, p3], Some(3)) &&
            RotateAsWritten([p1, p3], Some(3)) == Rotated([p1, p3], Some(1)) &&
            RotateAsWritten([p1, p3], Some(1)) == Rotated([p1, p3], Some(3))
  {
    var p1, p2, p3 := Player(1, b, "green", true, [t]), Player(2, b, "magenta", false, []), Player(3, b, "cyan", true, [t]);
    TwoOfThreeSurvive(p1, p2, p3);
    TwoSurvive(p1, p3);
    var qs := [p1, p3];
    assert IndexOf(qs, 1) == Some(0) && IndexOf(qs, 3) == Some(1);
  }

  lemma TwoOfThreeSurvive(p1: Player, p2: Player, p3: Player)
    requires p1.inGame && !p2.inGame && p3.inGame
    ensures Survivors([p1, p2, p3]) == [p1, p3]
  {
    var ps := [p1, p2, p3];
    FilterPrefixStep(ps, 0, InGame);
    FilterPrefixStep(ps, 1, InGame);
    FilterPrefixStep(ps, 2, InGame);
    assert ps[..0] == [] && ps[..3] == ps;
  }

  lemma TwoSurvive(p1: Player, p3: Player)
    requires p1.inGame && p3.inGame
    ensures Survivors([p1, p3]) == [p1, p3]
  {
    var qs := [p1, p3];
    FilterPrefixStep(qs, 0, InGame);
    FilterPrefixStep(qs, 1, InGame);
    assert qs[..0] == [] && qs[..2] == qs;
  }

  /** When exactly one player survives, it holds the turn, whether or not it
      held the turn before. */
  lemma LastSurvivorTakesTheTurn(ps: seq<Player>, active: Option<nat>)
    requires Roster(ps, active)
    requires |Survivors(ps)| == 1
    ensures RotateScanning(ps, active) == Rotated(Survivors(ps), Some(Survivors(ps)[0].id))
  {
    RotateScanningKeepsRoster(ps, active);
  }

  /** While the player who fired and at least one other player survive, the
      rotation always hands the turn to someone other than the player who
      fired. */
  lemma TurnLeavesSurvivingShooter(ps: seq<Player>, id: nat)
    requires UniqueIds(ps)
    requires IndexOf(Survivors(ps), id).Some? && |Survivors(ps)| >= 2
    ensures RotateScanning(ps, Some(id)).Rotated?
    ensures RotateScanning(ps, Some(id)).active != Some(id)
  {
    var left := Survivors(ps);
    SurvivorsUnique(ps);
    ScanningBranches(ps, left, Some(id));
    var j := IndexOf(left, id).value;
    NextPosition(|left|, j);
    var m := (j + 1) % |left|;
    assert m != j;
    assert left[m].id != left[j].id;
  }
}
