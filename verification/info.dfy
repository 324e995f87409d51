/**
 * The statistics the profile commands derive from the tables: the rank a
 * player holds and the next one, the win and loss streaks of the Profile
 * command, the head-to-head and same-team tallies of ProfileAgainst and
 * ProfileWith, the points history of the History command, and the page
 * window of the leaderboard.
 *
 * The team rows of a player come from hash sets or database queries; the
 * model takes them as a sequence, in the order the command meets them.
 */
module Info {
  import opened Wrappers
  import opened Seqs
  import opened Entities
  import opened Database

  // ---------------------------------------------------------------------
  // Ranks
  // ---------------------------------------------------------------------

  /**
   * The rank a player holds: of the guild's ranks whose threshold is strictly
   * below the player's points, the highest (the first of equals, as a stable
   * descending sort leaves it). A threshold equal to the points does not count.
   */
  function CurrentRank(ranks: seq<Rank>, guild: GuildId, points: int): (r: Option<Rank>)
    ensures r.None? <==> forall x :: x in ranks ==> x.guildId != guild || x.points >= points
    ensures r.Some? ==> r.value in ranks && r.value.guildId == guild && r.value.points < points
    ensures r.Some? ==> forall x :: x in ranks && x.guildId == guild && x.points < points ==> x.points <= r.value.points
  {
    if ranks == [] then None
    else
      assert ranks == [ranks[0]] + ranks[1..];
      var rest := CurrentRank(ranks[1..], guild, points);
      var x := ranks[0];
      if x.guildId == guild && x.points < points && (rest.None? || x.points >= rest.value.points) then Some(x)
      else rest
  }

  /**
   * The next rank to reach: of the guild's ranks whose threshold is strictly
   * above the player's points, the lowest (the first of equals). The gap the
   * profile shows, threshold minus points, is therefore positive.
   */
  function NextRank(ranks: seq<Rank>, guild: GuildId, points: int): (r: Option<Rank>)
    ensures r.None? <==> forall x :: x in ranks ==> x.guildId != guild || x.points <= points
    ensures r.Some? ==> r.value in ranks && r.value.guildId == guild && r.value.points - points > 0
    ensures r.Some? ==> forall x :: x in ranks && x.guildId == guild && x.points > points ==> r.value.points <= x.points
  {
    if ranks == [] then None
    else
      assert ranks == [ranks[0]] + ranks[1..];
      var rest := NextRank(ranks[1..], guild, points);
      var x := ranks[0];
      if x.guildId == guild && x.points > points && (rest.None? || x.points <= rest.value.points) then Some(x)
      else rest
  }

  // ---------------------------------------------------------------------
  // Streaks (Profile)
  // ---------------------------------------------------------------------

  /** How one game counts for a streak: canceled games are skipped, -1 as the winner is a draw. */
  datatype Verdict = Skipped | Won | Lost | Drew

  function VerdictOf(game: GameResult, teamNumber: int): Verdict {
    if game.state == Canceled then Skipped
    else if game.winningTeam == teamNumber then Won
    else if game.winningTeam != -1 then Lost
    else Drew
  }

  datatype Streaks = Streaks(curWin: nat, highWin: nat, curLoss: nat, highLoss: nat)

  function Max(a: nat, b: nat): nat {
    if a > b then a else b
  }

  /** One game of the streak loop. A draw ends a win streak but not a loss streak. */
  function Step(s: Streaks, v: Verdict): Streaks {
    match v
    case Skipped => s
    case Won => Streaks(s.curWin + 1, Max(s.curWin + 1, s.highWin), 0, s.highLoss)
    case Lost => Streaks(0, s.highWin, s.curLoss + 1, Max(s.curLoss + 1, s.highLoss))
    case Drew => s.(curWin := 0)
  }

  /** The streaks after the given games, in order, starting from all zero. */
  function Fold(vs: seq<Verdict>): Streaks {
    if vs == [] then Streaks(0, 0, 0, 0)
    else Step(Fold(vs[..|vs| - 1]), vs[|vs| - 1])
  }

  /** Looks a game number up among one lobby's games. */
  function InLobby(games: seq<GameResult>, channel: ChannelId): int -> Option<GameResult> {
    (n: int) => FindGame(games, channel, n)
  }

  /** `lookup` finds the game of every team row. */
  predicate AllFound(teams: seq<TeamPlayer>, lookup: int -> Option<GameResult>) {
    forall i :: 0 <= i < |teams| ==> lookup(teams[i].gameNumber).Some?
  }

  /**
   * The verdict of each of the player's team rows, looked up among the
   * lobby's games; none when a row names a game the lobby does not have
   * (the command fails on the missing game).
   */
  function Verdicts(teams: seq<TeamPlayer>, games: seq<GameResult>, channel: ChannelId): (r: Option<seq<Verdict>>)
    ensures r.Some? <==> AllFound(teams, InLobby(games, channel))
    ensures r.Some? ==> |r.value| == |teams|
    ensures r.Some? ==> forall i :: 0 <= i < |teams| ==>
      r.value[i] == VerdictOf(FindGame(games, channel, teams[i].gameNumber).value, teams[i].teamNumber)
  {
    if teams == [] then Some([])
    else
      match Verdicts(teams[..|teams| - 1], games, channel)
      case None => None
      case Some(vs) =>
        match FindGame(games, channel, teams[|teams| - 1].gameNumber)
        case None => None
        case Some(g) => Some(vs + [VerdictOf(g, teams[|teams| - 1].teamNumber)])
  }

  /** Once a prefix of the rows meets a missing game, the whole walk fails. */
  lemma {:induction false} VerdictsFailurePersists(teams: seq<TeamPlayer>, games: seq<GameResult>, channel: ChannelId, k: nat)
    requires k <= |teams|
    requires Verdicts(teams[..k], games, channel).None?
    ensures Verdicts(teams, games, channel).None?
  {
    if k < |teams| {
      var front := teams[..|teams| - 1];
      assert front[..k] == teams[..k];
      VerdictsFailurePersists(front, games, channel, k);
    } else {
      assert teams[..k] == teams;
    }
  }

  /** The streaks of a walk, or none when it fails. */
  function StreaksOf(teams: seq<TeamPlayer>, games: seq<GameResult>, channel: ChannelId): Option<Streaks> {
    match Verdicts(teams, games, channel)
    case None => None
    case Some(vs) => Some(Fold(vs))
  }

  /** The streak loop of the Profile command over the player's team rows in the lobby. */
  method ComputeStreaks(teams: seq<TeamPlayer>, games: seq<GameResult>, channel: ChannelId)
    returns (r: Option<Streaks>)
    ensures r == StreaksOf(teams, games, channel)
  {
    var curWin, highWin, curLoss, highLoss := 0, 0, 0, 0;
    for i := 0 to |teams|
      invariant Verdicts(teams[..i], games, channel).Some?
      invariant Streaks(curWin, highWin, curLoss, highLoss) == Fold(Verdicts(teams[..i], games, channel).value)
    {
      assert teams[..i + 1][..i] == teams[..i];
      var game := FindGame(games, channel, teams[i].gameNumber);
      if game.None? {
        VerdictsFailurePersists(teams, games, channel, i + 1);
        return None;
      }
      var result := game.value;
      var playerTeam := teams[i].teamNumber;
      if result.state != Canceled {
        if result.winningTeam == playerTeam {
          curLoss := 0;
          curWin := curWin + 1;
          highWin := if curWin > highWin then curWin else highWin;
        } else {
          if result.winningTeam != -1 {
            curLoss := curLoss + 1;
            highLoss := if curLoss > highLoss then curLoss else highLoss;
          }
          curWin := 0;
        }
      }
    }
    assert teams[..|teams|] == teams;
    r := Some(Streaks(curWin, highWin, curLoss, highLoss));
  }

  /** The wins since the last loss or draw, canceled games not counting. */
  function TrailingWins(vs: seq<Verdict>): nat {
    if vs == [] then 0
    else match vs[|vs| - 1]
      case Won => TrailingWins(vs[..|vs| - 1]) + 1
      case Skipped => TrailingWins(vs[..|vs| - 1])
      case _ => 0
  }

  /** The losses since the last win; neither draws nor canceled games end a loss streak. */
  function TrailingLosses(vs: seq<Verdict>): nat {
    if vs == [] then 0
    else match vs[|vs| - 1]
      case Lost => TrailingLosses(vs[..|vs| - 1]) + 1
      case Won => 0
      case _ => TrailingLosses(vs[..|vs| - 1])
  }

  /**
   * The current streaks count the games since the streak last broke, the
   * highest streaks never fall below them, and at most one of the two
   * current streaks is running.
   */
  lemma {:induction false} CurrentStreaks(vs: seq<Verdict>)
    ensures Fold(vs).curWin == TrailingWins(vs)
    ensures Fold(vs).curLoss == TrailingLosses(vs)
    ensures Fold(vs).curWin <= Fold(vs).highWin && Fold(vs).curLoss <= Fold(vs).highLoss
    ensures Fold(vs).curWin == 0 || Fold(vs).curLoss == 0
  {
    if vs != [] {
      CurrentStreaks(vs[..|vs| - 1]);
    }
  }

  /**
   * The highest streaks are the longest runs seen: the current streak after
   * every prefix of the games is at most the highest one, and some prefix
   * reaches it.
   */
  lemma {:induction false} HighestStreaks(vs: seq<Verdict>)
    ensures forall k :: 0 <= k <= |vs| ==> TrailingWins(vs[..k]) <= Fold(vs).highWin
    ensures forall k :: 0 <= k <= |vs| ==> TrailingLosses(vs[..k]) <= Fold(vs).highLoss
    ensures exists k :: 0 <= k <= |vs| && TrailingWins(vs[..k]) == Fold(vs).highWin
    ensures exists k :: 0 <= k <= |vs| && TrailingLosses(vs[..k]) == Fold(vs).highLoss
  {
    if vs == [] {
      assert vs[..0] == vs;
    } else {
      var n := |vs| - 1;
      var front := vs[..n];
      HighestStreaks(front);
      CurrentStreaks(front);
      CurrentStreaks(vs);
      assert vs[..|vs|] == vs;
      forall k | 0 <= k <= n ensures vs[..k] == front[..k] {
      }
      var kw :| 0 <= kw <= n && TrailingWins(front[..kw]) == Fold(front).highWin;
      var kl :| 0 <= kl <= n && TrailingLosses(front[..kl]) == Fold(front).highLoss;
      assert vs[..kw] == front[..kw] && vs[..kl] == front[..kl];
      if Fold(vs).highWin == Fold(front).highWin {
        assert TrailingWins(vs[..kw]) == Fold(vs).highWin;
      } else {
        assert TrailingWins(vs[..|vs|]) == Fold(vs).highWin;
      }
      if Fold(vs).highLoss == Fold(front).highLoss {
        assert TrailingLosses(vs[..kl]) == Fold(vs).highLoss;
      } else {
        assert TrailingLosses(vs[..|vs|]) == Fold(vs).highLoss;
      }
    }
  }

  // ---------------------------------------------------------------------
  // Head-to-head and same-team tallies (ProfileAgainst, ProfileWith)
  // ---------------------------------------------------------------------

  datatype Counts = Counts(wins: nat, losses: nat, draws: nat)

  function Total(c: Counts): nat {
    c.wins + c.losses + c.draws
  }

  /** Two seats of the same game: on opposing teams, or on the same team. */
  predicate Partners(t1: TeamPlayer, t2: TeamPlayer, opposing: bool) {
    t1.gameNumber == t2.gameNumber && (if opposing then t1.teamNumber != t2.teamNumber else t1.teamNumber == t2.teamNumber)
  }

  /** Some row of player 2 is a partner seat of `t1`. */
  predicate HasPartner(t1: TeamPlayer, p2: seq<TeamPlayer>, opposing: bool) {
    exists k :: 0 <= k < |p2| && Partners(t1, p2[k], opposing)
  }

  /** A decided game counts once: a win when player 1's team won, a draw on -1, otherwise a loss. */
  function CountGame(c: Counts, game: GameResult, teamNumber: int): Counts {
    if game.state == Canceled || game.state == Undecided then c
    else if game.winningTeam == teamNumber then c.(wins := c.wins + 1)
    else if game.winningTeam == -1 then c.(draws := c.draws + 1)
    else c.(losses := c.losses + 1)
  }

  /** The game of a row of player 1 is decided, and the row's team won it, drew or lost it. */
  predicate RowResult(t1: TeamPlayer, games: seq<GameResult>, channel: ChannelId, v: Verdict) {
    var g := FindGame(games, channel, t1.gameNumber);
    && g.Some? && g.value.state != Canceled && g.value.state != Undecided
    && match v
       case Won => g.value.winningTeam == t1.teamNumber
       case Drew => g.value.winningTeam != t1.teamNumber && g.value.winningTeam == -1
       case Lost => g.value.winningTeam != t1.teamNumber && g.value.winningTeam != -1
       case Skipped => false
  }

  /** The rows of player 1 that have a partner seat and whose game ended with verdict `v`. */
  function Scored(p2: seq<TeamPlayer>, games: seq<GameResult>, channel: ChannelId, opposing: bool, v: Verdict)
    : TeamPlayer -> bool
  {
    (t1: TeamPlayer) => HasPartner(t1, p2, opposing) && RowResult(t1, games, channel, v)
  }

  /**
   * The tally over player 1's rows: each row with a partner seat counts its
   * game (at most once: the search stops at the first partner); none when
   * a partnered game is missing from the lobby. `TallyCounts` says which
   * rows land in which count.
   */
  function TallyOf(p1: seq<TeamPlayer>, p2: seq<TeamPlayer>, games: seq<GameResult>, channel: ChannelId,
                   opposing: bool): (r: Option<Counts>)
    ensures r.Some? <==> forall i :: 0 <= i < |p1| && HasPartner(p1[i], p2, opposing) ==>
                                       FindGame(games, channel, p1[i].gameNumber).Some?
    ensures r.Some? ==> Total(r.value) <= |p1|
  {
    if p1 == [] then Some(Counts(0, 0, 0))
    else
      var t1 := p1[|p1| - 1];
      var front := p1[..|p1| - 1];
      match TallyOf(front, p2, games, channel, opposing)
      case None => None
      case Some(c) =>
        if !HasPartner(t1, p2, opposing) then Some(c)
        else match FindGame(games, channel, t1.gameNumber)
          case None => None
          case Some(g) => Some(CountGame(c, g, t1.teamNumber))
  }

  /**
   * Wins, losses and draws are the numbers of player 1's partnered rows whose
   * decided game the row's team won, lost or drew.
   */
  lemma {:induction false} TallyCounts(p1: seq<TeamPlayer>, p2: seq<TeamPlayer>, games: seq<GameResult>,
                                       channel: ChannelId, opposing: bool)
    requires TallyOf(p1, p2, games, channel, opposing).Some?
    ensures var c := TallyOf(p1, p2, games, channel, opposing).value;
      && c.wins == |Filter(p1, Scored(p2, games, channel, opposing, Won))|
      && c.losses == |Filter(p1, Scored(p2, games, channel, opposing, Lost))|
      && c.draws == |Filter(p1, Scored(p2, games, channel, opposing, Drew))|
  {
    if p1 != [] {
      var t1 := p1[|p1| - 1];
      var front := p1[..|p1| - 1];
      assert p1 == front + [t1];
      TallyCounts(front, p2, games, channel, opposing);
      var won, lost, drew := Scored(p2, games, channel, opposing, Won), Scored(p2, games, channel, opposing, Lost),
                             Scored(p2, games, channel, opposing, Drew);
      FilterAppend(front, [t1], won);
      FilterAppend(front, [t1], lost);
      FilterAppend(front, [t1], drew);
      assert |Filter([t1], won)| == if won(t1) then 1 else 0;
      assert |Filter([t1], lost)| == if lost(t1) then 1 else 0;
      assert |Filter([t1], drew)| == if drew(t1) then 1 else 0;
    }
  }

  /** Once a prefix of player 1's rows meets a missing game, the tally fails. */
  lemma {:induction false} TallyFailurePersists(p1: seq<TeamPlayer>, p2: seq<TeamPlayer>, games: seq<GameResult>,
                                                channel: ChannelId, opposing: bool, k: nat)
    requires k <= |p1|
    requires TallyOf(p1[..k], p2, games, channel, opposing).None?
    ensures TallyOf(p1, p2, games, channel, opposing).None?
  {
    if k < |p1| {
      var front := p1[..|p1| - 1];
      assert front[..k] == p1[..k];
      TallyFailurePersists(front, p2, games, channel, opposing, k);
    } else {
      assert p1[..k] == p1;
    }
  }

  /** Two players who never sat in the same game have an all-zero tally. */
  lemma {:induction false} NoSharedGamesNoTally(p1: seq<TeamPlayer>, p2: seq<TeamPlayer>, games: seq<GameResult>,
                                                channel: ChannelId, opposing: bool)
    requires forall i, j :: 0 <= i < |p1| && 0 <= j < |p2| ==> p1[i].gameNumber != p2[j].gameNumber
    ensures TallyOf(p1, p2, games, channel, opposing) == Some(Counts(0, 0, 0))
  {
    if p1 != [] {
      var front := p1[..|p1| - 1];
      NoSharedGamesNoTally(front, p2, games, channel, opposing);
      assert !HasPartner(p1[|p1| - 1], p2, opposing);
    }
  }

  datatype TallyOutcome = Player1NotFound | Player2NotFound | NotPlayedTogether | Tallied(counts: Counts)

  /**
   * ProfileAgainst (`opposing`) and ProfileWith: both players must be
   * registered; then every row of player 1 looks for its first partner row of
   * player 2 and counts that game.
   */
  method ProfileTally(registered1: bool, registered2: bool, p1: seq<TeamPlayer>, p2: seq<TeamPlayer>,
                      games: seq<GameResult>, channel: ChannelId, opposing: bool)
    returns (outcome: TallyOutcome)
    ensures !registered1 ==> outcome == Player1NotFound
    ensures registered1 && !registered2 ==> outcome == Player2NotFound
    ensures registered1 && registered2 ==>
      match TallyOf(p1, p2, games, channel, opposing)
      case None => outcome == NotPlayedTogether
      case Some(c) => outcome == Tallied(c)
  {
    if !registered1 {
      return Player1NotFound;
    } else if !registered2 {
      return Player2NotFound;
    }
    var wins, losses, draws := 0, 0, 0;
    for i := 0 to |p1|
      invariant TallyOf(p1[..i], p2, games, channel, opposing) == Some(Counts(wins, losses, draws))
    {
      assert p1[..i + 1][..i] == p1[..i];
      var team1 := p1[i];
      var j := 0;
      while j < |p2|
        invariant 0 <= j <= |p2|
        invariant forall k :: 0 <= k < j ==> !Partners(team1, p2[k], opposing)
      {
        var team2 := p2[j];
        if team1.gameNumber == team2.gameNumber
          && (if opposing then team1.teamNumber != team2.teamNumber else team1.teamNumber == team2.teamNumber)
        {
          var game := FindGame(games, channel, team1.gameNumber);
          if game.None? {
            TallyFailurePersists(p1, p2, games, channel, opposing, i + 1);
            return NotPlayedTogether;
          }
          var result := game.value;
          if result.state != Canceled && result.state != Undecided {
            if result.winningTeam == team1.teamNumber {
              wins := wins + 1;
            } else if result.winningTeam == -1 {
              draws := draws + 1;
            } else {
              losses := losses + 1;
            }
          }
          break;
        }
        j := j + 1;
      }
    }
    assert p1[..|p1|] == p1;
    outcome := Tallied(Counts(wins, losses, draws));
  }

  // ---------------------------------------------------------------------
  // Points history (History)
  // ---------------------------------------------------------------------

  /** A game whose result moved points: neither canceled nor undecided. */
  predicate Counted(game: GameResult) {
    game.state != Canceled && game.state != Undecided
  }

  /** The user's recorded point change in a game, 0 when none was recorded. */
  function Delta(updates: seq<ScoreUpdate>, game: GameResult, user: UserId): int {
    match GetScoreUpdate(updates, game.guildId, game.lobbyId, game.gameId, user)
    case None => 0
    case Some(s) => s.modifyAmount
  }

  /**
   * The points before each counted game, oldest first, then the current
   * points: walking the games from the latest back, each counted game's
   * change is taken off and the result put in front.
   */
  function History(current: int, gs: seq<GameResult>, updates: seq<ScoreUpdate>, user: UserId): (h: seq<int>)
    ensures |h| >= 1 && h[|h| - 1] == current
  {
    if gs == [] then [current]
    else
      var h := History(current, gs[..|gs| - 1], updates, user);
      var g := gs[|gs| - 1];
      if Counted(g) then [h[0] - Delta(updates, g, user)] + h else h
  }

  /** One more game puts the points before it at the front of the history, when the game counts. */
  lemma HistoryAppend(current: int, gs: seq<GameResult>, g: GameResult, updates: seq<ScoreUpdate>, user: UserId)
    ensures var h := History(current, gs, updates, user);
      History(current, gs + [g], updates, user) == if Counted(g) then [h[0] - Delta(updates, g, user)] + h else h
  {
    assert (gs + [g])[..|gs|] == gs;
  }

  /** The number of counted games. */
  function CountedGames(gs: seq<GameResult>): nat {
    if gs == [] then 0
    else CountedGames(gs[..|gs| - 1]) + (if Counted(gs[|gs| - 1]) then 1 else 0)
  }

  /** The user's total change over the counted games. */
  function TotalDelta(gs: seq<GameResult>, updates: seq<ScoreUpdate>, user: UserId): int {
    if gs == [] then 0
    else
      var g := gs[|gs| - 1];
      TotalDelta(gs[..|gs| - 1], updates, user) + (if Counted(g) then Delta(updates, g, user) else 0)
  }

  /**
   * The history has one entry per counted game plus the current points, and
   * starts at the current points less every recorded change.
   */
  lemma {:induction false} HistoryShape(current: int, gs: seq<GameResult>, updates: seq<ScoreUpdate>, user: UserId)
    ensures |History(current, gs, updates, user)| == 1 + CountedGames(gs)
    ensures History(current, gs, updates, user)[0] == current - TotalDelta(gs, updates, user)
  {
    if gs != [] {
      HistoryShape(current, gs[..|gs| - 1], updates, user);
    }
  }

  /** The first game of any lobby with this number. */
  function FindGameAnyLobby(games: seq<GameResult>, gameId: int): (r: Option<GameResult>)
    ensures r.None? <==> forall g :: g in games ==> g.gameId != gameId
    ensures r.Some? ==> r.value in games && r.value.gameId == gameId
  {
    if games == [] then None
    else if games[0].gameId == gameId then Some(games[0])
    else FindGameAnyLobby(games[1..], gameId)
  }

  /** Looks a game number up among all games, whatever their lobby. */
  function AnyLobby(games: seq<GameResult>): int -> Option<GameResult> {
    (n: int) => FindGameAnyLobby(games, n)
  }

  /** The game of each team row, by `lookup`; none when one is missing (the command fails on it). */
  function Resolve(teams: seq<TeamPlayer>, lookup: int -> Option<GameResult>): (r: Option<seq<GameResult>>)
    ensures r.Some? ==> |r.value| == |teams|
  {
    if teams == [] then Some([])
    else
      match Resolve(teams[..|teams| - 1], lookup)
      case None => None
      case Some(gs) =>
        match lookup(teams[|teams| - 1].gameNumber)
        case None => None
        case Some(g) => Some(gs + [g])
  }

  /** Once a prefix of the rows meets a missing game, resolving fails. */
  lemma {:induction false} ResolveFailurePersists(teams: seq<TeamPlayer>, lookup: int -> Option<GameResult>, k: nat)
    requires k <= |teams|
    requires Resolve(teams[..k], lookup).None?
    ensures Resolve(teams, lookup).None?
  {
    if k < |teams| {
      var front := teams[..|teams| - 1];
      assert front[..k] == teams[..k];
      ResolveFailurePersists(front, lookup, k);
    } else {
      assert teams[..k] == teams;
    }
  }

  /** Resolving one more row appends that row's game. */
  lemma ResolveStep(teams: seq<TeamPlayer>, lookup: int -> Option<GameResult>, i: nat)
    requires i < |teams|
    requires Resolve(teams[..i], lookup).Some? && lookup(teams[i].gameNumber).Some?
    ensures Resolve(teams[..i + 1], lookup) == Some(Resolve(teams[..i], lookup).value + [lookup(teams[i].gameNumber).value])
  {
    assert teams[..i + 1][..i] == teams[..i];
  }

  /** Resolving stops at the first row whose game the lookup does not find. */
  lemma ResolveStepFails(teams: seq<TeamPlayer>, lookup: int -> Option<GameResult>, i: nat)
    requires i < |teams|
    requires lookup(teams[i].gameNumber).None?
    ensures Resolve(teams[..i + 1], lookup).None?
  {
    assert teams[..i + 1][..i] == teams[..i];
  }

  /** Resolving succeeds exactly when the lookup finds every row's game, and element i is row i's game. */
  lemma {:induction false} ResolveContents(teams: seq<TeamPlayer>, lookup: int -> Option<GameResult>)
    ensures Resolve(teams, lookup).Some? <==> AllFound(teams, lookup)
    ensures Resolve(teams, lookup).Some? ==>
      forall i :: 0 <= i < |teams| ==> Resolve(teams, lookup).value[i] == lookup(teams[i].gameNumber).value
  {
    if teams != [] {
      var front := teams[..|teams| - 1];
      ResolveContents(front, lookup);
      assert forall i :: 0 <= i < |front| ==> front[i] == teams[i];
    }
  }

  /** Every game the lobby lookup resolves belongs to that lobby and has the row's number. */
  lemma {:induction false} InLobbyResolvesOwnGames(teams: seq<TeamPlayer>, games: seq<GameResult>, channel: ChannelId)
    requires Resolve(teams, InLobby(games, channel)).Some?
    ensures forall i :: 0 <= i < |teams| ==>
      Resolve(teams, InLobby(games, channel)).value[i].lobbyId == channel
      && Resolve(teams, InLobby(games, channel)).value[i].gameId == teams[i].gameNumber
  {
    if teams != [] {
      InLobbyResolvesOwnGames(teams[..|teams| - 1], games, channel);
    }
  }

  /** The history of the user's points in the lobby; none when a row's game is missing. */
  function HistoryOf(current: int, teams: seq<TeamPlayer>, games: seq<GameResult>, updates: seq<ScoreUpdate>,
                     channel: ChannelId, user: UserId): Option<seq<int>> {
    match Resolve(teams, InLobby(games, channel))
    case None => None
    case Some(gs) => Some(History(current, gs, updates, user))
  }

  /**
   * The History loop over the user's team rows in the lobby, latest game
   * first, each game looked up in the lobby.
   */
  method PointsHistory(current: int, teams: seq<TeamPlayer>, games: seq<GameResult>, updates: seq<ScoreUpdate>,
                       channel: ChannelId, user: UserId)
    returns (r: Option<seq<int>>)
    ensures r == HistoryOf(current, teams, games, updates, channel, user)
  {
    var points := current;
    var history := [current];
    ghost var gs: seq<GameResult> := [];
    var lookup := InLobby(games, channel);
    for i := 0 to |teams|
      invariant Resolve(teams[..i], lookup) == Some(gs)
      invariant history == History(current, gs, updates, user)
      invariant points == history[0]
    {
      var game := FindGame(games, channel, teams[i].gameNumber);
      if game.None? {
        assert Resolve(teams, lookup).None? by {
          assert lookup(teams[i].gameNumber) == game;
          ResolveStepFails(teams, lookup, i);
          ResolveFailurePersists(teams, lookup, i + 1);
        }
        return None;
      }
      var g := game.value;
      assert Resolve(teams[..i + 1], lookup) == Some(gs + [g]) by {
        assert lookup(teams[i].gameNumber) == game;
        ResolveStep(teams, lookup, i);
      }
      if Counted(g) {
        points := points - Delta(updates, g, user);
        history := [points] + history;
      }
      assert history == History(current, gs + [g], updates, user) by {
        HistoryAppend(current, gs, g, updates, user);
      }
      gs := gs + [g];
    }
    assert teams[..|teams|] == teams;
    r := Some(history);
  }

  /**
   * With the game looked up by number alone, a row of one lobby can meet a
   * game of another lobby that has the same number: here lobby 2's game 1
   * comes first, the user's change of +25 was recorded in lobby 1's game 1,
   * and the history misses it.
   */
  lemma HistoryCrossLobbyAsWritten()
    ensures Resolve([TeamPlayer(1, 1, 7, 1, 1)], AnyLobby([GameResult(1, 2, 1, Decided, 2, Random),
                                                        GameResult(1, 1, 1, Decided, 1, Random)])).Some?
    ensures History(100, Resolve([TeamPlayer(1, 1, 7, 1, 1)], AnyLobby([GameResult(1, 2, 1, Decided, 2, Random),
                                                                    GameResult(1, 1, 1, Decided, 1, Random)])).value,
                    [ScoreUpdate(1, 1, 7, 1, 25)], 7) == [100, 100]
    ensures HistoryOf(100, [TeamPlayer(1, 1, 7, 1, 1)], [GameResult(1, 2, 1, Decided, 2, Random),
                                                          GameResult(1, 1, 1, Decided, 1, Random)],
                      [ScoreUpdate(1, 1, 7, 1, 25)], 1, 7) == Some([75, 100])
  {
    var teams := [TeamPlayer(1, 1, 7, 1, 1)];
    var games := [GameResult(1, 2, 1, Decided, 2, Random), GameResult(1, 1, 1, Decided, 1, Random)];
    var updates := [ScoreUpdate(1, 1, 7, 1, 25)];
    assert teams[..0] == [];
    assert FindGameAnyLobby(games, 1) == Some(games[0]);
    assert FindGame(games, 1, 1) == Some(games[1]);
    assert GetScoreUpdate(updates, 1, 2, 1, 7) == None;
    assert GetScoreUpdate(updates, 1, 1, 1, 7) == Some(updates[0]);
    assert InLobby(games, 1)(1) == Some(games[1]);
    assert Resolve(teams[..0], InLobby(games, 1)) == Some([]);
    assert [] + [games[1]] == [games[1]];
    assert Resolve(teams, InLobby(games, 1)) == Some([games[1]]);
    assert [games[1]][..0] == [];
    assert History(100, [games[1]], updates, 7) == [75, 100];
  }

  // ---------------------------------------------------------------------
  // Leaderboard window
  // ---------------------------------------------------------------------

  const PageSize := 20

  /**
   * The page shown: a page of 0 or less becomes the first, and a guild
   * without premium sees only the first page.
   */
  function ClampPage(page: int, premium: bool): (r: int)
    ensures r >= 1
    ensures page <= 1 || !premium ==> r == 1
    ensures page >= 1 && premium ==> r == page
  {
    if page <= 0 then 1
    else if page > 1 && !premium then 1
    else page
  }

  const Int32Min := -0x8000_0000
  const Int32Max := 0x7fff_ffff

  /** A C# `int` result: `x` wrapped into the 32-bit two's complement range. */
  function Wrap32(x: int): (r: int)
    ensures Int32Min <= r <= Int32Max
    ensures (r - x) % 0x1_0000_0000 == 0
    ensures Int32Min <= x <= Int32Max ==> r == x
  {
    (x - Int32Min) % 0x1_0000_0000 + Int32Min
  }

  /** The last page whose first skipped player still has a 32-bit position. */
  const LastWholePage := 107374183

  /**
   * The number of players skipped before the page starts, computed in 32-bit
   * `int` arithmetic: up to `LastWholePage` it is a whole number of pages, one
   * fewer than the page number; beyond, it is that product wrapped around.
   */
  function SkipCount(page: int): (r: int)
    requires Int32Min <= page <= Int32Max
    ensures Int32Min <= r <= Int32Max
    ensures (r - (page - 1) * PageSize) % 0x1_0000_0000 == 0
    ensures 1 <= page <= LastWholePage ==> r >= 0 && r % PageSize == 0 && r / PageSize == page - 1
  {
    Wrap32((page - 1) * PageSize)
  }

  /** The page after `LastWholePage` skips a negative number of players. */
  lemma SkipCountWrapsPastLastWholePage()
    ensures SkipCount(LastWholePage) == 2147483640
    ensures SkipCount(LastWholePage + 1) == -2147483636
  {
  }

  /** A guild without premium always sees the top of the leaderboard. */
  lemma FreeGuildSeesTop(page: int)
    ensures SkipCount(ClampPage(page, false)) == 0
  {
  }
}
