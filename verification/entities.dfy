/**
 * The persisted records the matchmaking core reads and writes, reduced to the
 * fields the queue, party and statistics commands use. Discord snowflake ids
 * (C# `ulong`) are naturals; times are whole seconds on one UTC clock.
 */
module Entities {
  import opened Wrappers

  type GuildId = nat
  type ChannelId = nat
  type UserId = nat
  type RoleId = nat

  /** A UTC instant, in seconds. */
  type Time = int
  /** A time span, in seconds. */
  type Duration = int

  const Minute: Duration := 60
  const Hour: Duration := 60 * Minute

  /** Per-guild settings (`Competition`); the row is keyed by its guild. */
  datatype Competition = Competition(
    guildId: GuildId,
    allowMultiQueueing: bool,
    requeueDelay: Option<Duration>,
    defaultWinModifier: int,
    defaultLossModifier: int)

  /** A matchmaking channel (`Lobby`); the row is keyed by its channel. */
  datatype Lobby = Lobby(
    channelId: ChannelId,
    guildId: GuildId,
    playersPerTeam: int,
    isLocked: bool,
    minimumPoints: Option<int>,
    currentGameCount: int)

  /** Number of queue entries that fills a lobby. */
  function Capacity(lobby: Lobby): int {
    lobby.playersPerTeam * 2
  }

  /** A registered player of one guild. */
  datatype Player = Player(guildId: GuildId, userId: UserId, points: int)

  /** A time-boxed matchmaking suspension. */
  datatype Ban = Ban(
    guildId: GuildId,
    userId: UserId,
    timeOfBan: Time,
    length: Duration,
    manuallyDisabled: bool)

  /** The instant a ban stops blocking (`TimeOfBan + Length`). */
  function BanExpiry(b: Ban): Time {
    b.timeOfBan + b.length
  }

  datatype GameState = Undecided | Picking | Decided | Canceled

  datatype PickMode = Random | Captains_Random | Captains_HighestRanked | Captains_RandomHighestRanked

  /** The modes in which each team has a captain row besides its player rows. */
  predicate IsCaptainMode(m: PickMode) {
    m == Captains_HighestRanked || m == Captains_Random || m == Captains_RandomHighestRanked
  }

  /** One game of one lobby; `winningTeam` is -1 for a draw. */
  datatype GameResult = GameResult(
    guildId: GuildId,
    lobbyId: ChannelId,
    gameId: int,
    state: GameState,
    winningTeam: int,
    pickMode: PickMode)

  /** A user's seat on one team of one game. */
  datatype TeamPlayer = TeamPlayer(
    guildId: GuildId,
    channelId: ChannelId,
    userId: UserId,
    gameNumber: int,
    teamNumber: int)

  /** The captain of one team of one game. */
  datatype TeamCaptain = TeamCaptain(
    guildId: GuildId,
    channelId: ChannelId,
    userId: UserId,
    gameNumber: int,
    teamNumber: int)

  /** The recorded point change of one user in one game. */
  datatype ScoreUpdate = ScoreUpdate(
    guildId: GuildId,
    channelId: ChannelId,
    userId: UserId,
    gameNumber: int,
    modifyAmount: int)

  /** Membership of a user in the party hosted by `partyHost`, in one channel. */
  datatype PartyMember = PartyMember(
    guildId: GuildId,
    channelId: ChannelId,
    userId: UserId,
    partyHost: UserId)

  /** A rank threshold of one guild. */
  datatype Rank = Rank(guildId: GuildId, roleId: RoleId, points: int)
}
