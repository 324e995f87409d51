/**
 * The database context: the tables the core reads and writes, the composite
 * keys that make their rows unique, and the query helpers every command uses.
 * Tables are sequences; their order is the order in which a query without
 * `OrderBy` meets the rows, so "first match" is well defined.
 */
module Database {
  import opened Wrappers
  import opened Seqs
  import opened Entities
  import opened QueuedPlayers

  // ---------------------------------------------------------------------
  // Keys declared for the entities
  // ---------------------------------------------------------------------

  /** At most one queue entry per (channel, user). */
  predicate QueueKeysUnique(q: seq<QueuedPlayer>) {
    forall i, j :: 0 <= i < j < |q| ==> q[i].channelId != q[j].channelId || q[i].userId != q[j].userId
  }

  /** At most one party row per (channel, user): one party per user per channel. */
  predicate PartyKeysUnique(p: seq<PartyMember>) {
    forall i, j :: 0 <= i < j < |p| ==> p[i].channelId != p[j].channelId || p[i].userId != p[j].userId
  }

  /** At most one game per (lobby, game number). */
  predicate GameKeysUnique(g: seq<GameResult>) {
    forall i, j :: 0 <= i < j < |g| ==> g[i].lobbyId != g[j].lobbyId || g[i].gameId != g[j].gameId
  }

  /** At most one score update per (channel, user, game number). */
  predicate ScoreKeysUnique(s: seq<ScoreUpdate>) {
    forall i, j :: 0 <= i < j < |s| ==>
      s[i].channelId != s[j].channelId || s[i].userId != s[j].userId || s[i].gameNumber != s[j].gameNumber
  }

  /** Under the queue key, a (channel, user) pair names at most one position of the table. */
  lemma QueueKeyIdentifiesRow(q: seq<QueuedPlayer>)
    ensures QueueKeysUnique(q) <==>
      forall i, j :: 0 <= i < |q| && 0 <= j < |q| && q[i].channelId == q[j].channelId && q[i].userId == q[j].userId
        ==> i == j
  {
  }

  /** Under the party key, a (channel, user) pair names at most one position of the table. */
  lemma PartyKeyIdentifiesRow(p: seq<PartyMember>)
    ensures PartyKeysUnique(p) <==>
      forall i, j :: 0 <= i < |p| && 0 <= j < |p| && p[i].channelId == p[j].channelId && p[i].userId == p[j].userId
        ==> i == j
  {
  }

  /** Under the game key, a (lobby, game number) pair names at most one position of the table. */
  lemma GameKeyIdentifiesRow(g: seq<GameResult>)
    ensures GameKeysUnique(g) <==>
      forall i, j :: 0 <= i < |g| && 0 <= j < |g| && g[i].lobbyId == g[j].lobbyId && g[i].gameId == g[j].gameId
        ==> i == j
  {
  }

  /** Under the score key, a (channel, user, game number) triple names at most one position of the table. */
  lemma ScoreKeyIdentifiesRow(s: seq<ScoreUpdate>)
    ensures ScoreKeysUnique(s) <==>
      forall i, j :: (0 <= i < |s| && 0 <= j < |s| && s[i].channelId == s[j].channelId && s[i].userId == s[j].userId
                      && s[i].gameNumber == s[j].gameNumber) ==> i == j
  {
  }

  /** `user` has a party row in `channel`. */
  predicate InParty(p: seq<PartyMember>, channel: ChannelId, user: UserId) {
    exists i :: 0 <= i < |p| && p[i].channelId == channel && p[i].userId == user
  }

  /**
   * Every party is led by a host who is itself a member of that party: a row
   * naming host h in channel c comes with h's own row in c, hosted by h.
   * The party commands only ever add or remove whole parties, so this holds.
   */
  predicate PartiesWellFormed(p: seq<PartyMember>) {
    forall i :: 0 <= i < |p| ==> HasHostRow(p, p[i].channelId, p[i].partyHost)
  }

  /** `host` has its own row in `channel`, naming itself as host. */
  predicate HasHostRow(p: seq<PartyMember>, channel: ChannelId, host: UserId) {
    exists j :: 0 <= j < |p| && p[j].channelId == channel && p[j].userId == host && p[j].partyHost == host
  }

  // ---------------------------------------------------------------------
  // Game queries
  // ---------------------------------------------------------------------

  /** The lobby's game with the greatest number, the first of equals; none when the lobby has no game. */
  function GetLatestGame(games: seq<GameResult>, lobbyId: ChannelId): (r: Option<GameResult>)
    ensures r.None? <==> forall g :: g in games ==> g.lobbyId != lobbyId
    ensures r.Some? ==> r.value in games && r.value.lobbyId == lobbyId
    ensures r.Some? ==> forall g :: g in games && g.lobbyId == lobbyId ==> g.gameId <= r.value.gameId
  {
    if games == [] then None
    else
      var rest := GetLatestGame(games[1..], lobbyId);
      if games[0].lobbyId != lobbyId then rest
      else if rest.Some? && rest.value.gameId > games[0].gameId then rest
      else Some(games[0])
  }

  /** The first game with this lobby and number. */
  function FindGame(games: seq<GameResult>, lobbyId: ChannelId, gameId: int): (r: Option<GameResult>)
    ensures r.None? <==> forall g :: g in games ==> g.lobbyId != lobbyId || g.gameId != gameId
    ensures r.Some? ==> r.value in games && r.value.lobbyId == lobbyId && r.value.gameId == gameId
  {
    if games == [] then None
    else if games[0].lobbyId == lobbyId && games[0].gameId == gameId then Some(games[0])
    else FindGame(games[1..], lobbyId, gameId)
  }

  /** Under the game key, the lookup finds the one game with that key. */
  lemma {:induction false} FindGameUnique(games: seq<GameResult>, g: GameResult)
    requires GameKeysUnique(games)
    requires g in games
    ensures FindGame(games, g.lobbyId, g.gameId) == Some(g)
  {
    if games[0] != g {
      assert GameKeysUnique(games[1..]) by {
        forall i, j | 0 <= i < j < |games[1..]|
          ensures games[1..][i].lobbyId != games[1..][j].lobbyId || games[1..][i].gameId != games[1..][j].gameId
        {
          assert games[1..][i] == games[i + 1] && games[1..][j] == games[j + 1];
        }
      }
      FindGameUnique(games[1..], g);
    }
  }

  /** The lobby's current game (number `CurrentGameCount`) exists and is picking teams. */
  function IsCurrentlyPicking(games: seq<GameResult>, lobby: Lobby): (b: bool)
    ensures b ==> exists g :: (g in games && g.lobbyId == lobby.channelId
                              && g.gameId == lobby.currentGameCount && g.state == Picking)
    ensures (forall g :: g in games ==> g.lobbyId != lobby.channelId || g.gameId != lobby.currentGameCount) ==> !b
  {
    var g := FindGame(games, lobby.channelId, lobby.currentGameCount);
    g.Some? && g.value.state == Picking
  }

  /** With unique game keys, "currently picking" is exactly "the current game exists and is Picking". */
  lemma IsCurrentlyPickingExact(games: seq<GameResult>, lobby: Lobby)
    requires GameKeysUnique(games)
    ensures IsCurrentlyPicking(games, lobby) <==>
      exists g :: g in games && g.lobbyId == lobby.channelId && g.gameId == lobby.currentGameCount && g.state == Picking
  {
    if g :| g in games && g.lobbyId == lobby.channelId && g.gameId == lobby.currentGameCount && g.state == Picking {
      FindGameUnique(games, g);
    }
  }

  // ---------------------------------------------------------------------
  // Team queries
  // ---------------------------------------------------------------------

  /** The seats of one team of one game. */
  function GetTeamPlayers(players: seq<TeamPlayer>, guild: GuildId, channel: ChannelId, gameNumber: int, teamId: int)
    : (r: seq<TeamPlayer>)
    ensures forall x :: x in r <==> (x in players && x.guildId == guild && x.channelId == channel
                                     && x.gameNumber == gameNumber && x.teamNumber == teamId)
  {
    Filter(players, (x: TeamPlayer) => x.guildId == guild && x.channelId == channel && x.gameNumber == gameNumber && x.teamNumber == teamId)
  }

  /** The seats of team 1 of `game`. */
  function GetTeam1(players: seq<TeamPlayer>, game: GameResult): (r: seq<TeamPlayer>)
    ensures forall x :: x in r <==> (x in players && x.guildId == game.guildId && x.channelId == game.lobbyId
                                     && x.gameNumber == game.gameId && x.teamNumber == 1)
  {
    GetTeamPlayers(players, game.guildId, game.lobbyId, game.gameId, 1)
  }

  /** The seats of team 2 of `game`. */
  function GetTeam2(players: seq<TeamPlayer>, game: GameResult): (r: seq<TeamPlayer>)
    ensures forall x :: x in r <==> (x in players && x.guildId == game.guildId && x.channelId == game.lobbyId
                                     && x.gameNumber == game.gameId && x.teamNumber == 2)
  {
    GetTeamPlayers(players, game.guildId, game.lobbyId, game.gameId, 2)
  }

  /** The first captain row of one team of `game`. */
  function FindCaptain(captains: seq<TeamCaptain>, game: GameResult, teamNumber: int): (r: Option<TeamCaptain>)
    ensures r.None? <==> forall c :: c in captains ==> !CaptainOfTeam(c, game, teamNumber)
    ensures r.Some? ==> r.value in captains && CaptainOfTeam(r.value, game, teamNumber)
  {
    if captains == [] then None
    else if CaptainOfTeam(captains[0], game, teamNumber) then Some(captains[0])
    else FindCaptain(captains[1..], game, teamNumber)
  }

  predicate CaptainOfTeam(c: TeamCaptain, game: GameResult, teamNumber: int) {
    c.guildId == game.guildId && c.channelId == game.lobbyId && c.gameNumber == game.gameId && c.teamNumber == teamNumber
  }

  /**
   * The user ids of a whole team: its seated players, plus its captain when the
   * game was drafted by captains and a captain row with a non-zero id exists
   * (a missing captain reads as the default id 0, which is never added).
   */
  function GetTeamFull(players: seq<TeamPlayer>, captains: seq<TeamCaptain>, game: GameResult, teamNumber: int)
    : (r: set<UserId>)
    ensures forall u :: u in r <==>
      (exists x :: x in players && x.userId == u && x.guildId == game.guildId && x.channelId == game.lobbyId
         && x.gameNumber == game.gameId && x.teamNumber == teamNumber)
      || (IsCaptainMode(game.pickMode) && u != 0
          && exists c :: c in captains && c.userId == u && FindCaptain(captains, game, teamNumber) == Some(c))
    ensures !IsCaptainMode(game.pickMode) ==> forall u :: u in r ==> exists x :: x in players && x.userId == u
  {
    var cap: UserId := if IsCaptainMode(game.pickMode) then FindCaptain(captains, game, teamNumber).GetOr(TeamCaptain(0, 0, 0, 0, 0)).userId else 0;
    var seated := set x | x in players && x.guildId == game.guildId && x.channelId == game.lobbyId
                    && x.gameNumber == game.gameId && x.teamNumber == teamNumber :: x.userId;
    if cap != 0 then seated + {cap} else seated
  }

  // ---------------------------------------------------------------------
  // Queue and score queries
  // ---------------------------------------------------------------------

  /** The entries queued in one channel of one guild, in table order. */
  function GetQueuedPlayers(queue: seq<QueuedPlayer>, guild: GuildId, channel: ChannelId): (r: seq<QueuedPlayer>)
    ensures forall x :: x in r <==> x in queue && x.guildId == guild && x.channelId == channel
    ensures |r| <= |queue|
  {
    Filter(queue, (x: QueuedPlayer) => x.guildId == guild && x.channelId == channel)
  }

  /** The queue of `lobby`: entries of its guild and channel. */
  function GetQueue(queue: seq<QueuedPlayer>, lobby: Lobby): (r: seq<QueuedPlayer>)
    ensures forall x :: x in r <==> x in queue && x.guildId == lobby.guildId && x.channelId == lobby.channelId
  {
    GetQueuedPlayers(queue, lobby.guildId, lobby.channelId)
  }

  /** The score updates recorded for one game. */
  function GetScoreUpdates(updates: seq<ScoreUpdate>, guild: GuildId, channel: ChannelId, gameNumber: int)
    : (r: seq<ScoreUpdate>)
    ensures forall x :: x in r <==> x in updates && x.guildId == guild && x.channelId == channel && x.gameNumber == gameNumber
  {
    Filter(updates, (x: ScoreUpdate) => x.guildId == guild && x.channelId == channel && x.gameNumber == gameNumber)
  }

  /** The first score update of one user in one game, or none. */
  function GetScoreUpdate(updates: seq<ScoreUpdate>, guild: GuildId, channel: ChannelId, gameNumber: int, user: UserId)
    : (r: Option<ScoreUpdate>)
    ensures r.None? <==> forall x :: x in updates ==>
      !(x.guildId == guild && x.channelId == channel && x.gameNumber == gameNumber && x.userId == user)
    ensures r.Some? ==> (r.value in updates && r.value.guildId == guild && r.value.channelId == channel
                         && r.value.gameNumber == gameNumber && r.value.userId == user)
  {
    if updates == [] then None
    else
      var x := updates[0];
      if x.guildId == guild && x.channelId == channel && x.gameNumber == gameNumber && x.userId == user then Some(x)
      else GetScoreUpdate(updates[1..], guild, channel, gameNumber, user)
  }

  /** Under the score key, the lookup returns the one row recorded for that user and game. */
  lemma {:induction false} GetScoreUpdateUnique(updates: seq<ScoreUpdate>, s: ScoreUpdate)
    requires ScoreKeysUnique(updates)
    requires s in updates
    ensures GetScoreUpdate(updates, s.guildId, s.channelId, s.gameNumber, s.userId) == Some(s)
  {
    var x := updates[0];
    if x != s {
      assert ScoreKeysUnique(updates[1..]) by {
        forall i, j | 0 <= i < j < |updates[1..]|
          ensures updates[1..][i].channelId != updates[1..][j].channelId || updates[1..][i].userId != updates[1..][j].userId
            || updates[1..][i].gameNumber != updates[1..][j].gameNumber
        {
          assert updates[1..][i] == updates[i + 1] && updates[1..][j] == updates[j + 1];
        }
      }
      GetScoreUpdateUnique(updates[1..], s);
    }
  }

  // ---------------------------------------------------------------------
  // The context
  // ---------------------------------------------------------------------

  /** The tables of the database context that the core updates in place. */
  class Tables {
    var competitions: map<GuildId, Competition>
    var lobbies: map<ChannelId, Lobby>
    var queue: seq<QueuedPlayer>
    var bans: seq<Ban>
    var games: seq<GameResult>
    var scoreUpdates: seq<ScoreUpdate>
    var parties: seq<PartyMember>

    /** The keys hold, and every queue entry belongs to an existing lobby of the entry's guild. */
    ghost predicate Valid()
      reads this
    {
      && (forall g :: g in competitions ==> competitions[g].guildId == g)
      && (forall c :: c in lobbies ==> lobbies[c].channelId == c)
      && QueueKeysUnique(queue)
      && (forall i :: 0 <= i < |queue| ==>
            queue[i].channelId in lobbies && lobbies[queue[i].channelId].guildId == queue[i].guildId)
      && PartyKeysUnique(parties)
      && PartiesWellFormed(parties)
      && GameKeysUnique(games)
      && ScoreKeysUnique(scoreUpdates)
    }

    constructor ()
      ensures Valid()
      ensures competitions == map[] && lobbies == map[]
      ensures queue == [] && bans == [] && games == [] && scoreUpdates == [] && parties == []
    {
      competitions, lobbies := map[], map[];
      queue, bans, games, scoreUpdates, parties := [], [], [], [], [];
    }

    /**
     * The guild's settings row; when the guild has none, `created` (the row the
     * `Competition(guildId)` constructor builds) is added and returned. A second
     * call finds the row and adds nothing.
     */
    method GetOrCreateCompetition(guild: GuildId, created: Competition) returns (comp: Competition)
      requires Valid()
      requires created.guildId == guild
      modifies this`competitions
      ensures Valid()
      ensures comp.guildId == guild && guild in competitions && competitions[guild] == comp
      ensures guild in old(competitions) ==> comp == old(competitions)[guild] && competitions == old(competitions)
      ensures guild !in old(competitions) ==> comp == created && competitions == old(competitions)[guild := created]
    {
      if guild in competitions {
        comp := competitions[guild];
      } else {
        comp := created;
        competitions := competitions[guild := created];
      }
    }
  }
}
