/** Colour choice for the players at the start of a session
    (`reinitialize_players` in game_core/game_manager.py). The game manager
    keeps two lists for its whole lifetime: the colours handed out because a
    bot asked for them, and a stack of spare colours. */
module Colors {

  /** The spare colours a game manager starts with; the last one is handed
      out first. */
  const InitialFreeColors: seq<string> := ["red", "green", "blue", "purple", "yellow", "orange", "cyan", "magenta"]

  /** The two lists: colours taken on request, and spare colours. */
  datatype Palette = Palette(taken: seq<string>, free: seq<string>)

  /** The colour one player gets, and the lists afterwards; or no colour,
      when a spare one is needed and none is left (popping an empty list
      raises in the source). */
  datatype Choice = Chosen(color: string, palette: Palette) | OutOfColors

  /** A bot's preferred colour is granted, and recorded as taken, exactly
      when it is a valid colour name and not taken yet; otherwise the player
      gets the last spare colour, which leaves the spare list. */
  function ChooseColor(preferred: string, pal: Palette, valid: set<string>): (r: Choice)
    ensures (r.Chosen? && r.color == preferred && r.palette == Palette(pal.taken + [preferred], pal.free))
            <==> (preferred !in pal.taken && preferred in valid)
    ensures !(preferred !in pal.taken && preferred in valid) ==>
              (r.OutOfColors? <==> pal.free == []) &&
              (r.Chosen? ==> r.color == pal.free[|pal.free| - 1] &&
                             r.palette == Palette(pal.taken, pal.free[..|pal.free| - 1]))
  {
    if preferred !in pal.taken && preferred in valid then
      Chosen(preferred, Palette(pal.taken + [preferred], pal.free))
    else if pal.free == [] then
      OutOfColors
    else
      Chosen(pal.free[|pal.free| - 1], Palette(pal.taken, pal.free[..|pal.free| - 1]))
  }

  /** The colours handed out to a sequence of players, the lists afterwards,
      and whether every player got one (false once the spare list ran dry). */
  datatype Assignment = Assignment(colors: seq<string>, palette: Palette, complete: bool)

  predicate IsPrefix(a: seq<string>, b: seq<string>) {
    |a| <= |b| && b[..|a|] == a
  }

  /** The colour loop of `reinitialize_players` over the players' preferred
      colours, in order; it stops at the first player left without a colour,
      so every player is served exactly when the loop completes. */
  function AssignColors(prefs: seq<string>, pal: Palette, valid: set<string>): (r: Assignment)
    ensures |r.colors| <= |prefs|
    ensures r.complete <==> |r.colors| == |prefs|
  {
    if prefs == [] then Assignment([], pal, true)
    else
      var before := AssignColors(prefs[..|prefs| - 1], pal, valid);
      if !before.complete then before
      else match ChooseColor(prefs[|prefs| - 1], before.palette, valid)
        case OutOfColors => Assignment(before.colors, before.palette, false)
        case Chosen(c, p) => Assignment(before.colors + [c], p, true)
  }

  /** Every player served consumes exactly one colour: either its preference
      joins the taken list or one spare colour leaves the spare list. Taken
      only grows, spare only shrinks, and each colour handed out is the
      player's own preference or was a spare colour at the start. */
  lemma {:induction false} AssignColorsConserves(prefs: seq<string>, pal: Palette, valid: set<string>)
    ensures var r := AssignColors(prefs, pal, valid);
            IsPrefix(pal.taken, r.palette.taken) && IsPrefix(r.palette.free, pal.free) &&
            (|r.palette.taken| - |pal.taken|) + (|pal.free| - |r.palette.free|) == |r.colors| &&
            forall k :: 0 <= k < |r.colors| ==> r.colors[k] == prefs[k] || r.colors[k] in pal.free
  {
    if prefs != [] {
      var init := prefs[..|prefs| - 1];
      AssignColorsConserves(init, pal, valid);
      var before := AssignColors(init, pal, valid);
      if before.complete {
        var pf := before.palette.free;
        if pf != [] {
          assert pal.free[..|pf| - 1] == pf[..|pf| - 1];
          assert pf[|pf| - 1] == pal.free[|pf| - 1];
        }
      }
    }
  }

  /** When every spare colour is a known colour name, so is every colour
      handed out and every spare colour left: looking a player's colour up
      among the known names never fails. */
  lemma {:induction false} AssignColorsValid(prefs: seq<string>, pal: Palette, valid: set<string>)
    requires forall c :: c in pal.free ==> c in valid
    ensures var r := AssignColors(prefs, pal, valid);
            (forall k :: 0 <= k < |r.colors| ==> r.colors[k] in valid) &&
            (forall c :: c in r.palette.free ==> c in valid)
  {
    if prefs != [] {
      var init := prefs[..|prefs| - 1];
      AssignColorsValid(init, pal, valid);
      var before := AssignColors(init, pal, valid);
      var f := before.palette.free;
      if before.complete && f != [] {
        assert f[|f| - 1] in f;
        forall c | c in f[..|f| - 1]
          ensures c in valid
        {
          var j :| 0 <= j < |f| - 1 && f[..|f| - 1][j] == c;
          assert f[j] == c;
        }
      }
    }
  }

  /** One more player: the assignment for a one-longer prefix of players. */
  lemma AssignPrefixStep(prefs: seq<string>, k: nat, pal: Palette, valid: set<string>)
    requires k < |prefs|
    ensures var before := AssignColors(prefs[..k], pal, valid);
            AssignColors(prefs[..k + 1], pal, valid) ==
              if !before.complete then before
              else match ChooseColor(prefs[k], before.palette, valid)
                case OutOfColors => Assignment(before.colors, before.palette, false)
                case Chosen(c, p) => Assignment(before.colors + [c], p, true)
  {
    assert prefs[..k + 1][..k] == prefs[..k];
  }

  /** One more player whose preferred colour is granted. */
  lemma GrantStep(prefs: seq<string>, k: nat, pal: Palette, valid: set<string>, served: seq<string>, taken: seq<string>, free: seq<string>)
    requires k < |prefs| && prefs[k] !in taken && prefs[k] in valid
    requires AssignColors(prefs[..k], pal, valid) == Assignment(served, Palette(taken, free), true)
    ensures AssignColors(prefs[..k + 1], pal, valid) ==
            Assignment(served + [prefs[k]], Palette(taken + [prefs[k]], free), true)
  {
    AssignPrefixStep(prefs, k, pal, valid);
  }

  /** One more player, refused its preference, who gets the last spare colour. */
  lemma PopStep(prefs: seq<string>, k: nat, pal: Palette, valid: set<string>, served: seq<string>, taken: seq<string>, free: seq<string>)
    requires k < |prefs| && !(prefs[k] !in taken && prefs[k] in valid) && free != []
    requires AssignColors(prefs[..k], pal, valid) == Assignment(served, Palette(taken, free), true)
    ensures AssignColors(prefs[..k + 1], pal, valid) ==
            Assignment(served + [free[|free| - 1]], Palette(taken, free[..|free| - 1]), true)
  {
    AssignPrefixStep(prefs, k, pal, valid);
  }

  /** One more player, refused its preference, when no spare colour is left. */
  lemma FailStep(prefs: seq<string>, k: nat, pal: Palette, valid: set<string>, served: seq<string>, taken: seq<string>)
    requires k < |prefs| && !(prefs[k] !in taken && prefs[k] in valid)
    requires AssignColors(prefs[..k], pal, valid) == Assignment(served, Palette(taken, []), true)
    ensures AssignColors(prefs[..k + 1], pal, valid) == Assignment(served, Palette(taken, []), false)
  {
    AssignPrefixStep(prefs, k, pal, valid);
  }

  /** Once a player is left without a colour nothing more happens: the
      outcome for all players is the outcome up to that player. */
  lemma {:induction false} AssignStopsAtFailure(prefs: seq<string>, j: nat, pal: Palette, valid: set<string>)
    requires j <= |prefs|
    requires !AssignColors(prefs[..j], pal, valid).complete
    ensures AssignColors(prefs, pal, valid) == AssignColors(prefs[..j], pal, valid)
    decreases |prefs| - j
  {
    if j < |prefs| {
      AssignPrefixStep(prefs, j, pal, valid);
      AssignStopsAtFailure(prefs, j + 1, pal, valid);
    } else {
      assert prefs[..j] == prefs;
    }
  }

  /** With at least as many spare colours as players, every player gets a
      colour: a fresh game manager serves up to eight bots. */
  lemma {:induction false} EnoughSpareColors(prefs: seq<string>, pal: Palette, valid: set<string>)
    requires |prefs| <= |pal.free|
    ensures AssignColors(prefs, pal, valid).complete
  {
    if prefs != [] {
      EnoughSpareColors(prefs[..|prefs| - 1], pal, valid);
      AssignColorsConserves(prefs[..|prefs| - 1], pal, valid);
    }
  }

  /** The game's three default bots all prefer green (and green is a valid
      colour name): the first gets green, the other two the last two spare
      colours. */
  lemma ThreeGreenBots(valid: set<string>)
    requires "green" in valid
    ensures AssignColors(["green", "green", "green"], Palette([], InitialFreeColors), valid) ==
            Assignment(["green", "magenta", "cyan"],
                       Palette(["green"], ["red", "green", "blue", "purple", "yellow", "orange"]), true)
  {
    var prefs := ["green", "green", "green"];
    assert prefs[..0] == [] && prefs[..1] == ["green"] && prefs[..2] == ["green", "green"];
    AssignPrefixStep(prefs, 0, Palette([], InitialFreeColors), valid);
    AssignPrefixStep(prefs, 1, Palette([], InitialFreeColors), valid);
    AssignPrefixStep(prefs, 2, Palette([], InitialFreeColors), valid);
    assert prefs[..3] == prefs;
  }

  /** The colour a player is handed from the spare list may already belong
      to another player: the first bot asks for magenta and gets it, the
      second asks for a name that is not a colour and is handed magenta,
      the last spare colour, again. */
  lemma SpareColorMayBeTaken(valid: set<string>, unknown: string)
    requires "magenta" in valid && unknown !in valid
    ensures AssignColors(["magenta", unknown], Palette([], InitialFreeColors), valid).colors == ["magenta", "magenta"]
  {
    var prefs := ["magenta", unknown];
    assert prefs[..0] == [] && prefs[..1] == ["magenta"];
    AssignPrefixStep(prefs, 0, Palette([], InitialFreeColors), valid);
    AssignPrefixStep(prefs, 1, Palette([], InitialFreeColors), valid);
    assert prefs[..2] == prefs;
  }

  /** Once green is taken, three bots preferring green each pop a spare
      colour, the last one first. */
  lemma ThreeGreenBotsWhenGreenTaken(taken: seq<string>, free: seq<string>, valid: set<string>)
    requires "green" in taken && |free| >= 3
    ensures var n := |free|;
            AssignColors(["green", "green", "green"], Palette(taken, free), valid) ==
            Assignment([free[n - 1], free[n - 2], free[n - 3]], Palette(taken, free[..n - 3]), true)
  {
    var prefs, pal := ["green", "green", "green"], Palette(taken, free);
    var n := |free|;
    var f1, f2, f3 := free[..n - 1], free[..n - 2], free[..n - 3];
    assert f1[..n - 2] == f2 && f2[..n - 3] == f3;
    assert f1[|f1| - 1] == free[n - 2] && f2[|f2| - 1] == free[n - 3];
    assert prefs[0] == "green" && prefs[1] == "green" && prefs[2] == "green";
    assert prefs[..0] == [] && [] + [free[n - 1]] == [free[n - 1]];
    PopStep(prefs, 0, pal, valid, [], taken, free);
    PopStep(prefs, 1, pal, valid, [free[n - 1]], taken, f1);
    PopStep(prefs, 2, pal, valid, [free[n - 1], free[n - 2]], taken, f2);
    assert prefs[..3] == prefs;
  }

  /** The lists are never reset, so one game manager running the three
      default bots through "play again" hands out green, magenta, cyan; then
      orange, yellow, purple; then blue, green, red; and in the fourth
      session the first bot finds both its colour taken and the spare list
      empty, and the colour loop fails. */
  lemma PlayAgainRunsOutOfColors(valid: set<string>)
    requires "green" in valid
    ensures var greens := ["green", "green", "green"];
            var s1 := AssignColors(greens, Palette([], InitialFreeColors), valid);
            var s2 := AssignColors(greens, s1.palette, valid);
            var s3 := AssignColors(greens, s2.palette, valid);
            var s4 := AssignColors(greens, s3.palette, valid);
            s1.complete && s1.colors == ["green", "magenta", "cyan"] &&
            s2.complete && s2.colors == ["orange", "yellow", "purple"] &&
            s3.complete && s3.colors == ["blue", "green", "red"] &&
            !s4.complete && s4.colors == []
  {
    var greens := ["green", "green", "green"];
    ThreeGreenBots(valid);
    var p1 := Palette(["green"], ["red", "green", "blue", "purple", "yellow", "orange"]);
    ThreeGreenBotsWhenGreenTaken(p1.taken, p1.free, valid);
    var p2 := Palette(["green"], ["red", "green", "blue"]);
    assert p1.free[..3] == p2.free;
    ThreeGreenBotsWhenGreenTaken(p2.taken, p2.free, valid);
    var p3 := Palette(["green"], []);
    assert p2.free[..0] == p3.free;
    assert greens[..0] == [] && greens[..1] == ["green"];
    AssignPrefixStep(greens, 0, p3, valid);
    AssignStopsAtFailure(greens, 1, p3, valid);
  }
}
