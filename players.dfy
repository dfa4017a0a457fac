/** The player list every service builds from `room_data['players']` before
    prompting: each player dictionary is copied with defaults for the
    optional fields, and one prompt line is written per player. */
module Players {
  import opened Wrappers
  import opened Text
  import opened Results

  /** A value of a player dictionary, as an f-string prints it. */
  datatype Scalar = SInt(i: int) | SStr(s: string) | SBool(b: bool) | SNone

  /** `str(v)`. */
  function Show(v: Scalar): string {
    match v
    case SInt(i) => IntToString(i)
    case SStr(s) => s
    case SBool(b) => if b then "True" else "False"
    case SNone => "None"
  }

  /** A player dictionary as the room data holds it. */
  type RawPlayer = map<string, Scalar>

  /** The normalised player dictionary. */
  datatype Player = Player(
    id: Scalar,
    name: Scalar,
    skill: Scalar,
    joinTime: Scalar,
    matches: Scalar,
    shuttlecocks: Scalar)

  /** One normalised entry: `id`, `name` and `skill` are required (in that
      order, so the first one missing is the KeyError raised); `join_time`
      defaults to `''` and both counts to `0`. */
  function NormalizePlayer(p: RawPlayer): (r: Result<Player, Fault>)
    ensures r.Success? <==> "id" in p && "name" in p && "skill" in p
    ensures r.Failure? ==> r.error == KeyMissing(if "id" !in p then "id" else if "name" !in p then "name" else "skill")
    ensures r.Success? ==> r.value.id == p["id"] && r.value.name == p["name"] && r.value.skill == p["skill"]
    ensures r.Success? && "join_time" !in p ==> r.value.joinTime == SStr("")
    ensures r.Success? && "number_of_matches" !in p ==> r.value.matches == SInt(0)
    ensures r.Success? && "number_of_shuttlecock" !in p ==> r.value.shuttlecocks == SInt(0)
    ensures r.Success? && "join_time" in p ==> r.value.joinTime == p["join_time"]
    ensures r.Success? && "number_of_matches" in p ==> r.value.matches == p["number_of_matches"]
    ensures r.Success? && "number_of_shuttlecock" in p ==> r.value.shuttlecocks == p["number_of_shuttlecock"]
  {
    if "id" !in p then Failure(KeyMissing("id"))
    else if "name" !in p then Failure(KeyMissing("name"))
    else if "skill" !in p then Failure(KeyMissing("skill"))
    else Success(Player(
      p["id"], p["name"], p["skill"],
      Get(p, "join_time", SStr("")),
      Get(p, "number_of_matches", SInt(0)),
      Get(p, "number_of_shuttlecock", SInt(0))))
  }

  /** The for-loop over the players as a value: the list of normalised
      players, or the KeyError of the first player that lacks a required key. */
  function NormalizeAll(ps: seq<RawPlayer>): (r: Result<seq<Player>, Fault>)
    ensures r.Success? ==> |r.value| == |ps|
    ensures r.Success? ==> forall i | 0 <= i < |ps| :: NormalizePlayer(ps[i]) == Success(r.value[i])
    ensures r.Failure? ==> exists i | 0 <= i < |ps| ::
      && NormalizePlayer(ps[i]) == Failure(r.error)
      && forall j | 0 <= j < i :: NormalizePlayer(ps[j]).Success?
    decreases |ps|
  {
    if ps == [] then Success([])
    else match NormalizePlayer(ps[0])
      case Failure(f) => Failure(f)
      case Success(q) =>
        match NormalizeAll(ps[1..])
        case Failure(f) => Failure(f)
        case Success(qs) => Success([q] + qs)
  }

  /** The list succeeds exactly when every player has its required keys. */
  lemma NormalizeAllSucceeds(ps: seq<RawPlayer>)
    ensures NormalizeAll(ps).Success? <==> forall i | 0 <= i < |ps| :: NormalizePlayer(ps[i]).Success?
  {
    if NormalizeAll(ps).Failure? {
      var i :| 0 <= i < |ps| && NormalizePlayer(ps[i]) == Failure(NormalizeAll(ps).error);
      assert !NormalizePlayer(ps[i]).Success?;
    }
  }

  /** `player_list`, built by appending one normalised player per input
      player; a missing required key ends the loop with its KeyError. */
  method NormalizePlayers(ps: seq<RawPlayer>) returns (r: Result<seq<Player>, Fault>)
    ensures r == NormalizeAll(ps)
  {
    var list: seq<Player> := [];
    var i := 0;
    while i < |ps|
      invariant 0 <= i <= |ps| && |list| == i
      invariant forall j | 0 <= j < i :: NormalizePlayer(ps[j]) == Success(list[j])
    {
      var entry := NormalizePlayer(ps[i]);
      if entry.Failure? {
        r := Failure(entry.error);
        var all := NormalizeAll(ps);
        assert all.Failure?;
        var k :| 0 <= k < |ps| && NormalizePlayer(ps[k]) == Failure(all.error)
          && forall j | 0 <= j < k :: NormalizePlayer(ps[j]).Success?;
        assert !(k < i) && !(i < k);
        return;
      }
      list := list + [entry.value];
      i := i + 1;
    }
    r := Success(list);
    var all := NormalizeAll(ps);
    assert all.Success?;
    assert all.value == list;
  }

  // ---------------------------------------------------------------------------
  // player_info

  /** `f"Player {id}: {name} (Skill: {skill}, Matches: {matches}, Join Time: {join_time})"`. */
  function PlayerLine(p: Player): (r: string)
    ensures StartsWith(r, "Player ") && EndsWith(r, ")")
  {
    "Player " + Show(p.id) + ": " + Show(p.name) + " (Skill: " + Show(p.skill)
      + ", Matches: " + Show(p.matches) + ", Join Time: " + Show(p.joinTime) + ")"
  }

  /** The prompt lines, one per player, in order. */
  function Lines(ps: seq<Player>): (r: seq<string>)
    ensures |r| == |ps| && forall i | 0 <= i < |ps| :: r[i] == PlayerLine(ps[i])
  {
    if ps == [] then [] else [PlayerLine(ps[0])] + Lines(ps[1..])
  }

  /** `"\n".join(...)` over the player lines: empty exactly when there are
      no players, and otherwise opening with the first player's line. */
  function PlayerInfo(ps: seq<Player>): (r: string)
    ensures r == [] <==> ps == []
    ensures ps != [] ==> StartsWith(r, PlayerLine(ps[0]))
  {
    Join(Lines(ps), '\n')
  }

  /** The printed fields of a player hold no line break. */
  predicate SingleLine(p: Player) {
    '\n' !in Show(p.id) && '\n' !in Show(p.name) && '\n' !in Show(p.skill)
      && '\n' !in Show(p.matches) && '\n' !in Show(p.joinTime)
  }

  lemma PlayerLineSingle(p: Player)
    requires SingleLine(p)
    ensures '\n' !in PlayerLine(p)
  {
    var a := "Player " + Show(p.id) + ": " + Show(p.name);
    var b := a + " (Skill: " + Show(p.skill) + ", Matches: " + Show(p.matches);
    assert '\n' !in a;
    assert '\n' !in b;
    assert PlayerLine(p) == b + ", Join Time: " + Show(p.joinTime) + ")";
  }

  /** `player_info` is one line per player, in order: splitting it at line
      breaks gives back each player's line, provided no printed field holds a
      line break; with no players it is empty. */
  lemma PlayerInfoLines(ps: seq<Player>)
    requires forall i | 0 <= i < |ps| :: SingleLine(ps[i])
    ensures ps == [] ==> PlayerInfo(ps) == ""
    ensures ps != [] ==> Split(PlayerInfo(ps), '\n') == Lines(ps)
  {
    if ps != [] {
      forall i | 0 <= i < |ps| ensures '\n' !in Lines(ps)[i] {
        PlayerLineSingle(ps[i]);
      }
      SplitJoin(Lines(ps), '\n');
    }
  }
}
