/** The players of a game as the game manager sees them
    (game_core/game_manager.py), and the two read-only queries it answers
    from them: which object a shell segment hit first, and the list of tanks
    handed to the bots. */
module Players {
  import opened Wrappers
  import opened Seqs
  import opened Bots

  /** A tank on the field: position in screen coordinates (y grows
      downwards) and remaining health. */
  datatype Tank = Tank(x: int, y: int, health: int)

  /** A player: its number in the game (the position of its bot in the list
      the game was created with), the bot that decides its moves, its colour
      name, whether it is still in the game, and its tanks that are still
      active, in turn order. Players are objects in the source and are told
      apart by identity; here the number plays that part. */
  datatype Player = Player(id: nat, bot: RandomAttacker, color: string, inGame: bool, activeTanks: seq<Tank>)

  /** Position of the player with number `id` in `ps`, if any: the model of
      both `p in players` and `players.index(p)`. */
  function IndexOf(ps: seq<Player>, id: nat): (r: Option<nat>)
    ensures r.Some? ==> r.value < |ps| && ps[r.value].id == id
    ensures r.Some? ==> forall k :: 0 <= k < r.value ==> ps[k].id != id
    ensures r.None? ==> forall k :: 0 <= k < |ps| ==> ps[k].id != id
  {
    if ps == [] then None
    else if ps[0].id == id then Some(0)
    else match IndexOf(ps[1..], id)
      case None => None
      case Some(k) => Some(k + 1)
  }

  /** No two players share a number (distinct objects in the source). */
  predicate UniqueIds(ps: seq<Player>) {
    forall i, j :: 0 <= i < j < |ps| ==> ps[i].id != ps[j].id
  }

  /** `after` is `before` with only the players' in-game flags and tanks
      changed, as a shot leaves them. */
  predicate SameRoster(before: seq<Player>, after: seq<Player>) {
    |after| == |before| &&
    forall k :: 0 <= k < |before| ==>
      after[k].id == before[k].id && after[k].bot == before[k].bot && after[k].color == before[k].color
  }

  /** Damage to tanks changes nobody's place in the list. */
  lemma {:induction false} SameRosterIndexOf(before: seq<Player>, after: seq<Player>, id: nat)
    requires SameRoster(before, after)
    ensures IndexOf(after, id) == IndexOf(before, id)
  {
    if before != [] && before[0].id != id {
      SameRosterIndexOf(before[1..], after[1..], id);
    }
  }

  function InGame(p: Player): bool {
    p.inGame
  }

  /** The players still in the game, in their original order. */
  function Survivors(ps: seq<Player>): (r: seq<Player>)
    ensures |r| <= |ps|
  {
    Filter(ps, InGame)
  }

  /** Filtering the players keeps their numbers distinct. */
  lemma {:induction false} SurvivorsUnique(ps: seq<Player>)
    requires UniqueIds(ps)
    ensures UniqueIds(Survivors(ps))
  {
    if ps != [] {
      var init := ps[..|ps| - 1];
      SurvivorsUnique(init);
      FilterMembers(init, InGame);
      var left := Survivors(init);
      forall k | 0 <= k < |left|
        ensures left[k].id != ps[|ps| - 1].id
      {
        assert left[k] in init;
        var j :| 0 <= j < |init| && init[j] == left[k];
        assert init[j] == ps[j];
      }
    }
  }

  /** Among players with distinct numbers, a player is found in the list of
      survivors exactly when it is still in the game. */
  lemma ListedIffInGame(ps: seq<Player>, k: nat)
    requires UniqueIds(ps) && k < |ps|
    ensures IndexOf(Survivors(ps), ps[k].id).Some? <==> ps[k].inGame
  {
    var left := Survivors(ps);
    FilterMembers(ps, InGame);
    if ps[k].inGame {
      assert InGame(ps[k]);
      assert ps[k] in left;
    }
    match IndexOf(left, ps[k].id)
    case None =>
    case Some(m) =>
      assert left[m] in ps;
      var j :| 0 <= j < |ps| && ps[j] == left[m];
      assert j == k;
  }

  /** The shell's collision point, `check_collision`: each player's tanks are
      checked in player order and the first hit found is the answer; the ground
      decides only when no tank was hit. `tankHit` and `groundHit` stand for
      the geometric intersection tests of the shell's last segment. */
  function CheckCollision(ps: seq<Player>, tankHit: Player -> Option<Point>, groundHit: Option<Point>): (r: Option<Point>)
    ensures (forall k :: 0 <= k < |ps| ==> tankHit(ps[k]).None?) ==> r == groundHit
    ensures forall k :: 0 <= k < |ps| && tankHit(ps[k]).Some? && (forall j :: 0 <= j < k ==> tankHit(ps[j]).None?) ==>
              r == tankHit(ps[k])
  {
    if ps == [] then groundHit
    else if tankHit(ps[0]).Some? then tankHit(ps[0])
    else CheckCollision(ps[1..], tankHit, groundHit)
  }

  /** Once any tank is hit, what the ground test says makes no difference. */
  lemma {:induction false} GroundIgnoredAfterTankHit(ps: seq<Player>, tankHit: Player -> Option<Point>, g1: Option<Point>, g2: Option<Point>)
    requires exists k :: 0 <= k < |ps| && tankHit(ps[k]).Some?
    ensures CheckCollision(ps, tankHit, g1) == CheckCollision(ps, tankHit, g2)
    ensures CheckCollision(ps, tankHit, g1).Some?
  {
    if tankHit(ps[0]).None? {
      var k :| 0 <= k < |ps| && tankHit(ps[k]).Some?;
      assert ps[1..][k - 1] == ps[k];
      GroundIgnoredAfterTankHit(ps[1..], tankHit, g1, g2);
    }
  }

  /** A player that still has an active tank. */
  predicate Armed(p: Player) {
    p.activeTanks != []
  }

  /** What the bots are told about a player: its bot's name and its first
      active tank, with y flipped to count upwards from the bottom. */
  function Summary(p: Player, displayHeight: int): TankSummary
    requires Armed(p)
  {
    var t := p.activeTanks[0];
    TankSummary(p.bot.name, Point(t.x, displayHeight - t.y), t.health)
  }

  /** `generate_tank_list`: one summary per player that has an active tank,
      and for no other player. */
  function TankList(ps: seq<Player>, displayHeight: int): (r: seq<TankSummary>)
    ensures |r| <= |ps|
    ensures forall k :: 0 <= k < |ps| && Armed(ps[k]) ==> Summary(ps[k], displayHeight) in r
    ensures forall e :: e in r ==> exists k :: 0 <= k < |ps| && Armed(ps[k]) && e == Summary(ps[k], displayHeight)
  {
    if ps == [] then []
    else
      var last := ps[|ps| - 1];
      TankList(ps[..|ps| - 1], displayHeight) + (if Armed(last) then [Summary(last, displayHeight)] else [])
  }

  /** The summaries come in player order: the list for two groups of players
      is the first group's list followed by the second's. */
  lemma {:induction false} TankListAppend(a: seq<Player>, b: seq<Player>, displayHeight: int)
    ensures TankList(a + b, displayHeight) == TankList(a, displayHeight) + TankList(b, displayHeight)
  {
    if b == [] {
      assert a + b == a;
    } else {
      var b' := b[..|b| - 1];
      assert (a + b)[..|a + b| - 1] == a + b';
      TankListAppend(a, b', displayHeight);
    }
  }
}
