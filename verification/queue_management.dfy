/**
 * The queue commands of a lobby: join (a fixed chain of admission checks,
 * then one insert), leave, the expiry command, and freezing. Each command is
 * one sequential step over the tables; the clock is read once, as `now`.
 */
module QueueManagement {
  import opened Wrappers
  import opened Seqs
  import opened Entities
  import opened QueuedPlayers
  import opened Database

  /** The process-wide "last joined at" times, per guild and then per user. */
  type DelayTable = map<GuildId, map<UserId, Time>>

  /** Seconds a user may pick for the expiry command, inclusive (10 minutes to 4 hours). */
  const MinExpiry: Duration := 10 * Minute
  const MaxExpiry: Duration := 240 * Minute

  /** How far ahead the expiry report looks when the user has no earlier expiry. */
  const ReportHorizon: Duration := 24 * Hour

  // ---------------------------------------------------------------------
  // Join
  // ---------------------------------------------------------------------

  /** The replies of the join command, in the order its checks run. */
  datatype JoinOutcome =
    | NotRegistered
    | NotALobby
    | Frozen
    | Banned(remaining: Duration)
    | QueueFull
    | MultiQueueDisallowed(channels: seq<ChannelId>)
    | BelowMinimumPoints(minimum: int)
    | PickingInProgress
    | AlreadyQueued
    | RequeueCooldown(remaining: Duration)
    | Joined(queueSize: int, lobbyFull: bool)

  /** A ban of this user in this guild that is not lifted and has not run out at `now`. */
  predicate ActiveBan(b: Ban, guild: GuildId, user: UserId, now: Time) {
    b.userId == user && b.guildId == guild && !b.manuallyDisabled && BanExpiry(b) > now
  }

  /** Among the user's active bans, the first one with the latest expiry; none when no ban is active. */
  function LatestActiveBan(bans: seq<Ban>, guild: GuildId, user: UserId, now: Time): (r: Option<Ban>)
    ensures r.None? <==> forall b :: b in bans ==> !ActiveBan(b, guild, user, now)
    ensures r.Some? ==> r.value in bans && ActiveBan(r.value, guild, user, now)
    ensures r.Some? ==> forall b :: b in bans && ActiveBan(b, guild, user, now) ==> BanExpiry(b) <= BanExpiry(r.value)
  {
    if bans == [] then None
    else
      var rest := LatestActiveBan(bans[1..], guild, user, now);
      if !ActiveBan(bans[0], guild, user, now) then rest
      else if rest.Some? && BanExpiry(rest.value) > BanExpiry(bans[0]) then rest
      else Some(bans[0])
  }

  /** The user's entries in the guild's other channels. */
  function QueuedElsewhere(queue: seq<QueuedPlayer>, guild: GuildId, user: UserId, channel: ChannelId)
    : (r: seq<QueuedPlayer>)
    ensures forall x :: x in r <==> (x in queue && x.guildId == guild && x.userId == user && x.channelId != channel)
  {
    Filter(queue, (x: QueuedPlayer) => x.guildId == guild && x.userId == user && x.channelId != channel)
  }

  /** The channels of some entries, in order. */
  function ChannelsOf(entries: seq<QueuedPlayer>): (r: seq<ChannelId>)
    ensures |r| == |entries|
    ensures forall i :: 0 <= i < |r| ==> r[i] == entries[i].channelId
  {
    seq(|entries|, i requires 0 <= i < |entries| => entries[i].channelId)
  }

  /** `queue` holds an entry of `user`. */
  predicate HasUser(queue: seq<QueuedPlayer>, user: UserId) {
    exists i :: 0 <= i < |queue| && queue[i].userId == user
  }

  /** The guild's settings as the join command sees them: the stored row, or the one it creates. */
  function SettingsFor(comps: map<GuildId, Competition>, guild: GuildId, created: Competition): Competition {
    if guild in comps then comps[guild] else created
  }

  /** What is left of the requeue delay at `now`; none when no delay applies. */
  function CooldownRemaining(delays: DelayTable, guild: GuildId, user: UserId, delay: Option<Duration>, now: Time)
    : (r: Option<Duration>)
    ensures r.Some? ==> r.value > 0
    ensures r.None? <==> (delay.None? || guild !in delays || user !in delays[guild]
                          || delays[guild][user] + delay.value <= now)
  {
    if delay.Some? && guild in delays && user in delays[guild] && delays[guild][user] + delay.value > now
    then Some(delays[guild][user] + delay.value - now)
    else None
  }

  // The admission checks of the join command, one predicate per check.

  /** The user is registered and the channel is a lobby that is not frozen. */
  predicate OpenTo(lobbies: map<ChannelId, Lobby>, player: Option<Player>, channel: ChannelId) {
    player.Some? && channel in lobbies && !lobbies[channel].isLocked
  }

  /** The user has no active ban in the guild. */
  predicate NotBanned(bans: seq<Ban>, guild: GuildId, user: UserId, now: Time) {
    forall b :: b in bans ==> !ActiveBan(b, guild, user, now)
  }

  /** The lobby's queue has a free place. */
  predicate HasRoom(queue: seq<QueuedPlayer>, guild: GuildId, channel: ChannelId, lobby: Lobby) {
    |GetQueuedPlayers(queue, guild, channel)| < Capacity(lobby)
  }

  /** Multi-queueing is allowed, or the user is queued in no other channel of the guild. */
  predicate MultiQueueAllows(comp: Competition, queue: seq<QueuedPlayer>, guild: GuildId, user: UserId, channel: ChannelId) {
    comp.allowMultiQueueing || forall x :: x in queue && x.guildId == guild && x.userId == user ==> x.channelId == channel
  }

  /** The lobby has no minimum, or the player reaches it. */
  predicate MeetsMinimum(lobby: Lobby, player: Player) {
    lobby.minimumPoints.None? || player.points >= lobby.minimumPoints.value
  }

  /** The user has no entry in the queue of this guild and channel. */
  predicate NotQueuedIn(queue: seq<QueuedPlayer>, guild: GuildId, channel: ChannelId, user: UserId) {
    forall x :: x in queue && x.guildId == guild && x.channelId == channel ==> x.userId != user
  }

  /** The checks up to "queue not full" pass; here the guild's settings row is fetched or created. */
  predicate PassesLobbyChecks(lobbies: map<ChannelId, Lobby>, bans: seq<Ban>, queue: seq<QueuedPlayer>,
                              player: Option<Player>, guild: GuildId, channel: ChannelId, user: UserId, now: Time) {
    OpenTo(lobbies, player, channel) && NotBanned(bans, guild, user, now) && HasRoom(queue, guild, channel, lobbies[channel])
  }

  /** Every check before the requeue delay passes. */
  predicate PassesPlayerChecks(
    lobbies: map<ChannelId, Lobby>, comps: map<GuildId, Competition>, bans: seq<Ban>,
    queue: seq<QueuedPlayer>, games: seq<GameResult>,
    player: Option<Player>, guild: GuildId, channel: ChannelId, user: UserId, now: Time, created: Competition)
  {
    && PassesLobbyChecks(lobbies, bans, queue, player, guild, channel, user, now)
    && MultiQueueAllows(SettingsFor(comps, guild, created), queue, guild, user, channel)
    && MeetsMinimum(lobbies[channel], player.value)
    && !IsCurrentlyPicking(games, lobbies[channel])
    && NotQueuedIn(queue, guild, channel, user)
  }

  /**
   * The join command's reply, checks in source order: registered, lobby exists,
   * not frozen, no active ban, queue not full, multi-queue policy, minimum
   * points, no draft in progress, not already queued, requeue delay. Each
   * reply is given exactly when the checks before it pass and its own fails.
   */
  function JoinVerdict(
    lobbies: map<ChannelId, Lobby>, comps: map<GuildId, Competition>, bans: seq<Ban>,
    queue: seq<QueuedPlayer>, games: seq<GameResult>, delays: DelayTable,
    player: Option<Player>, guild: GuildId, channel: ChannelId, user: UserId, now: Time, created: Competition)
    : (r: JoinOutcome)
    ensures r.NotRegistered? <==> player.None?
    ensures r.NotALobby? <==> player.Some? && channel !in lobbies
    ensures r.Frozen? <==> player.Some? && channel in lobbies && lobbies[channel].isLocked
    ensures r.Banned? <==> OpenTo(lobbies, player, channel) && !NotBanned(bans, guild, user, now)
    ensures r.QueueFull? <==>
      OpenTo(lobbies, player, channel) && NotBanned(bans, guild, user, now) && !HasRoom(queue, guild, channel, lobbies[channel])
    ensures r.MultiQueueDisallowed? <==>
      && PassesLobbyChecks(lobbies, bans, queue, player, guild, channel, user, now)
      && !MultiQueueAllows(SettingsFor(comps, guild, created), queue, guild, user, channel)
    ensures r.BelowMinimumPoints? <==>
      && PassesLobbyChecks(lobbies, bans, queue, player, guild, channel, user, now)
      && MultiQueueAllows(SettingsFor(comps, guild, created), queue, guild, user, channel)
      && !MeetsMinimum(lobbies[channel], player.value)
    ensures r.PickingInProgress? <==>
      && PassesLobbyChecks(lobbies, bans, queue, player, guild, channel, user, now)
      && MultiQueueAllows(SettingsFor(comps, guild, created), queue, guild, user, channel)
      && MeetsMinimum(lobbies[channel], player.value)
      && IsCurrentlyPicking(games, lobbies[channel])
    ensures r.AlreadyQueued? <==>
      && PassesLobbyChecks(lobbies, bans, queue, player, guild, channel, user, now)
      && MultiQueueAllows(SettingsFor(comps, guild, created), queue, guild, user, channel)
      && MeetsMinimum(lobbies[channel], player.value)
      && !IsCurrentlyPicking(games, lobbies[channel])
      && !NotQueuedIn(queue, guild, channel, user)
    ensures r.RequeueCooldown? <==>
      && PassesPlayerChecks(lobbies, comps, bans, queue, games, player, guild, channel, user, now, created)
      && CooldownRemaining(delays, guild, user, SettingsFor(comps, guild, created).requeueDelay, now).Some?
    ensures r.Joined? <==>
      && PassesPlayerChecks(lobbies, comps, bans, queue, games, player, guild, channel, user, now, created)
      && CooldownRemaining(delays, guild, user, SettingsFor(comps, guild, created).requeueDelay, now).None?
    // What each reply reports.
    ensures r.Banned? ==> r.remaining > 0
    ensures r.Banned? ==> exists b :: b in bans && ActiveBan(b, guild, user, now) && r.remaining == BanExpiry(b) - now
    ensures r.Banned? ==> forall b :: b in bans && ActiveBan(b, guild, user, now) ==> BanExpiry(b) - now <= r.remaining
    ensures r.MultiQueueDisallowed? ==> |r.channels| > 0 && channel !in r.channels
    ensures r.MultiQueueDisallowed? ==> forall c :: c in r.channels <==>
      exists x :: x in queue && x.guildId == guild && x.userId == user && x.channelId != channel && x.channelId == c
    ensures r.BelowMinimumPoints? ==> lobbies[channel].minimumPoints == Some(r.minimum) && player.value.points < r.minimum
    ensures r.RequeueCooldown? ==> r.remaining > 0
    ensures r.RequeueCooldown? ==> CooldownRemaining(delays, guild, user, SettingsFor(comps, guild, created).requeueDelay, now) == Some(r.remaining)
    ensures r.Joined? ==> r.queueSize == |GetQueuedPlayers(queue, guild, channel)| + 1 <= Capacity(lobbies[channel])
    ensures r.Joined? ==> (r.lobbyFull <==> r.queueSize == Capacity(lobbies[channel]))
  {
    if player.None? then NotRegistered
    else if channel !in lobbies then NotALobby
    else
      var lobby := lobbies[channel];
      if lobby.isLocked then Frozen
      else
        var lastBan := LatestActiveBan(bans, guild, user, now);
        if lastBan.Some? then Banned(BanExpiry(lastBan.value) - now)
        else
          var q := GetQueuedPlayers(queue, guild, channel);
          if |q| >= Capacity(lobby) then QueueFull
          else
            SettledVerdict(lobby, SettingsFor(comps, guild, created), queue, games, delays, player.value,
                           guild, channel, user, now)
  }

  /**
   * The join checks that follow the settings lookup: multi-queue policy,
   * minimum points, no draft in progress, not already queued, requeue delay.
   */
  function SettledVerdict(
    lobby: Lobby, comp: Competition, queue: seq<QueuedPlayer>, games: seq<GameResult>, delays: DelayTable,
    player: Player, guild: GuildId, channel: ChannelId, user: UserId, now: Time)
    : (r: JoinOutcome)
    requires HasRoom(queue, guild, channel, lobby)
    ensures r.MultiQueueDisallowed? || r.BelowMinimumPoints? || r.PickingInProgress? || r.AlreadyQueued?
            || r.RequeueCooldown? || r.Joined?
    ensures r.MultiQueueDisallowed? <==> !MultiQueueAllows(comp, queue, guild, user, channel)
    ensures r.BelowMinimumPoints? <==> MultiQueueAllows(comp, queue, guild, user, channel) && !MeetsMinimum(lobby, player)
    ensures r.PickingInProgress? <==>
      MultiQueueAllows(comp, queue, guild, user, channel) && MeetsMinimum(lobby, player) && IsCurrentlyPicking(games, lobby)
    ensures r.AlreadyQueued? <==>
      && MultiQueueAllows(comp, queue, guild, user, channel) && MeetsMinimum(lobby, player)
      && !IsCurrentlyPicking(games, lobby) && !NotQueuedIn(queue, guild, channel, user)
    ensures r.RequeueCooldown? <==>
      && MultiQueueAllows(comp, queue, guild, user, channel) && MeetsMinimum(lobby, player)
      && !IsCurrentlyPicking(games, lobby) && NotQueuedIn(queue, guild, channel, user)
      && CooldownRemaining(delays, guild, user, comp.requeueDelay, now).Some?
    ensures r.MultiQueueDisallowed? ==> |r.channels| > 0 && channel !in r.channels
    ensures r.MultiQueueDisallowed? ==> forall c :: c in r.channels <==>
      exists x :: x in queue && x.guildId == guild && x.userId == user && x.channelId != channel && x.channelId == c
    ensures r.BelowMinimumPoints? ==> lobby.minimumPoints == Some(r.minimum) && player.points < r.minimum
    ensures r.RequeueCooldown? ==> CooldownRemaining(delays, guild, user, comp.requeueDelay, now) == Some(r.remaining)
    ensures r.Joined? ==> r.queueSize == |GetQueuedPlayers(queue, guild, channel)| + 1 <= Capacity(lobby)
    ensures r.Joined? ==> (r.lobbyFull <==> r.queueSize == Capacity(lobby))
  {
    var q := GetQueuedPlayers(queue, guild, channel);
    var elsewhere := QueuedElsewhere(queue, guild, user, channel);
    assert |elsewhere| > 0 ==> elsewhere[0] in elsewhere;
    if !comp.allowMultiQueueing && |elsewhere| > 0 then MultiQueueDisallowed(ChannelsOf(elsewhere))
    else if lobby.minimumPoints.Some? && player.points < lobby.minimumPoints.value
    then BelowMinimumPoints(lobby.minimumPoints.value)
    else if IsCurrentlyPicking(games, lobby) then PickingInProgress
    else if HasUser(q, user) then AlreadyQueued
    else
      var wait := CooldownRemaining(delays, guild, user, comp.requeueDelay, now);
      if wait.Some? then RequeueCooldown(wait.value)
      else Joined(|q| + 1, |q| + 1 >= Capacity(lobby))
  }

  /** The join checks got past "queue not full", where the guild's settings row is fetched or created. */
  predicate ReachesSettings(r: JoinOutcome) {
    !(r.NotRegistered? || r.NotALobby? || r.Frozen? || r.Banned? || r.QueueFull?)
  }

  // ---------------------------------------------------------------------
  // The requeue-delay cache
  // ---------------------------------------------------------------------

  /**
   * The cache after an admitted join under a requeue delay: the user's last
   * join time becomes `now`, whether or not one was stored.
   */
  function RecordJoin(delays: DelayTable, guild: GuildId, user: UserId, now: Time): (r: DelayTable)
    ensures guild in r && user in r[guild] && r[guild][user] == now
    ensures r.Keys == delays.Keys + {guild}
    ensures forall g :: g in delays && g != guild ==> r[g] == delays[g]
    ensures guild in delays ==> forall u :: u in delays[guild] && u != user ==> u in r[guild] && r[guild][u] == delays[guild][u]
  {
    var users: map<UserId, Time> := if guild in delays then delays[guild] else map[];
    delays[guild := users[user := now]]
  }

  /**
   * The cache update as the join command writes it: a first join in a guild, or
   * a user's first join in it, stores `now`; a stored time is never refreshed,
   * because the refresh only assigns a local copy.
   */
  function RecordJoinAsWritten(delays: DelayTable, guild: GuildId, user: UserId, now: Time): (r: DelayTable)
    ensures guild in r && user in r[guild]
    ensures guild in delays && user in delays[guild] ==> r == delays
    ensures !(guild in delays && user in delays[guild]) ==> r[guild][user] == now
  {
    if guild in delays then
      if user in delays[guild] then delays
      else
        var users: map<UserId, Time> := delays[guild];
        delays[guild := users[user := now]]
    else delays[guild := map[user := now]]
  }

  /**
   * With the refresh as written, a user who waited out the delay once is never
   * held back again: delay 600 s, joins at 0, 1200 and 1300. The third join is
   * admitted, although it comes only 100 s after the second. With the refresh
   * in place it must wait another 500 s.
   */
  lemma RequeueDelayNotRefreshedAsWritten(guild: GuildId, user: UserId)
    ensures var d := Some(600);
      var first := RecordJoinAsWritten(map[], guild, user, 0);
      && CooldownRemaining(first, guild, user, d, 1200).None?
      && var second := RecordJoinAsWritten(first, guild, user, 1200);
      && CooldownRemaining(second, guild, user, d, 1300).None?
    ensures var d := Some(600);
      var first := RecordJoin(map[], guild, user, 0);
      && CooldownRemaining(first, guild, user, d, 1200).None?
      && var second := RecordJoin(first, guild, user, 1200);
      && CooldownRemaining(second, guild, user, d, 1300) == Some(500)
  {
  }

  /** After any admitted join, the user waits out the whole delay before the next one is admitted. */
  lemma {:induction false} JoinStartsFullCooldown(delays: DelayTable, guild: GuildId, user: UserId, delay: Duration, now: Time, later: Time)
    requires now <= later
    ensures CooldownRemaining(RecordJoin(delays, guild, user, now), guild, user, Some(delay), later)
      == if later < now + delay then Some(now + delay - later) else None
  {
    var r := RecordJoin(delays, guild, user, now);
    assert r[guild][user] == now;
  }

  /** The cache of `QueueManagement.QueueDelays`; it is never persisted. */
  class QueueDelayCache {
    var delays: DelayTable

    constructor ()
      ensures delays == map[]
    {
      delays := map[];
    }

    /**
     * The requeue-delay step of the join command under a configured `delay`:
     * a user whose last join plus the delay is still ahead of `now` is told
     * how long to wait and nothing changes; otherwise `now` is stored.
     */
    method CheckAndRecord(guild: GuildId, user: UserId, delay: Duration, now: Time) returns (wait: Option<Duration>)
      modifies this
      ensures wait == CooldownRemaining(old(delays), guild, user, Some(delay), now)
      ensures delays == if wait.None? then RecordJoin(old(delays), guild, user, now) else old(delays)
    {
      if guild in delays {
        var currentGuild: map<UserId, Time> := delays[guild];
        if user in currentGuild {
          var lastJoin := currentGuild[user];
          if lastJoin + delay > now {
            return Some(lastJoin + delay - now);
          }
          delays := delays[guild := currentGuild[user := now]];
        } else {
          delays := delays[guild := currentGuild[user := now]];
        }
      } else {
        delays := delays[guild := map[user := now]];
      }
      wait := None;
    }
  }

  // ---------------------------------------------------------------------
  // Queue table lemmas
  // ---------------------------------------------------------------------

  /** Appending an entry whose key is not yet used keeps the queue key unique. */
  lemma AppendKeepsQueueKeys(queue: seq<QueuedPlayer>, e: QueuedPlayer)
    requires QueueKeysUnique(queue)
    requires forall x :: x in queue ==> x.channelId != e.channelId || x.userId != e.userId
    ensures QueueKeysUnique(queue + [e])
  {
    var q' := queue + [e];
    forall i, j | 0 <= i < j < |q'|
      ensures q'[i].channelId != q'[j].channelId || q'[i].userId != q'[j].userId
    {
      assert q'[i] == queue[i];
      if j < |queue| {
        assert q'[j] == queue[j];
      } else {
        assert queue[i] in queue;
      }
    }
  }

  /** Only the queue of the entry's own guild and channel grows, and by that entry alone. */
  lemma JoinGrowsOnlyItsQueue(queue: seq<QueuedPlayer>, e: QueuedPlayer, guild: GuildId, channel: ChannelId)
    ensures GetQueuedPlayers(queue + [e], guild, channel)
      == GetQueuedPlayers(queue, guild, channel) + (if e.guildId == guild && e.channelId == channel then [e] else [])
  {
    var p := (x: QueuedPlayer) => x.guildId == guild && x.channelId == channel;
    FilterAppend(queue, [e], p);
    assert Filter([e], p) == (if p(e) then [e] + Filter([], p) else Filter([], p));
  }

  /** The removal done by the leave command: every entry with key (channel, user) goes. */
  function RemoveEntry(queue: seq<QueuedPlayer>, channel: ChannelId, user: UserId): (r: seq<QueuedPlayer>)
    ensures forall x :: x in r <==> (x in queue && (x.channelId != channel || x.userId != user))
  {
    Filter(queue, (x: QueuedPlayer) => x.channelId != channel || x.userId != user)
  }

  /** Under the queue key, removing a present entry shrinks the table by exactly one. */
  lemma {:induction false} RemoveEntryDropsOne(queue: seq<QueuedPlayer>, channel: ChannelId, user: UserId)
    requires QueueKeysUnique(queue)
    requires exists x :: x in queue && x.channelId == channel && x.userId == user
    ensures |RemoveEntry(queue, channel, user)| == |queue| - 1
  {
    var p := (x: QueuedPlayer) => x.channelId != channel || x.userId != user;
    assert queue[1..] + [] == queue[1..];
    if !p(queue[0]) {
      forall i | 0 <= i < |queue[1..]| ensures p(queue[1..][i]) {
        assert queue[1..][i] == queue[i + 1];
      }
      FilterKeepsAll(queue[1..], p);
    } else {
      var x :| x in queue && x.channelId == channel && x.userId == user;
      assert x in queue[1..];
      assert QueueKeysUnique(queue[1..]) by {
        forall i, j | 0 <= i < j < |queue[1..]|
          ensures queue[1..][i].channelId != queue[1..][j].channelId || queue[1..][i].userId != queue[1..][j].userId
        {
          assert queue[1..][i] == queue[i + 1] && queue[1..][j] == queue[j + 1];
        }
      }
      RemoveEntryDropsOne(queue[1..], channel, user);
    }
  }

  /** Join then leave by the same user restores the queue table exactly. */
  lemma {:induction false} JoinThenLeaveRestores(queue: seq<QueuedPlayer>, e: QueuedPlayer)
    requires forall x :: x in queue ==> x.channelId != e.channelId || x.userId != e.userId
    ensures RemoveEntry(queue + [e], e.channelId, e.userId) == queue
  {
    var p := (x: QueuedPlayer) => x.channelId != e.channelId || x.userId != e.userId;
    FilterAppend(queue, [e], p);
    forall i | 0 <= i < |queue| ensures p(queue[i]) {
      assert queue[i] in queue;
    }
    FilterKeepsAll(queue, p);
    assert Filter([e], p) == [];
  }

  // ---------------------------------------------------------------------
  // Commands
  // ---------------------------------------------------------------------

  /** The insert of the join command: appends an entry whose key the lobby's queue does not hold yet. */
  method Enqueue(db: Tables, queue: seq<QueuedPlayer>, entry: QueuedPlayer)
    requires db.Valid()
    requires entry.channelId in db.lobbies && db.lobbies[entry.channelId].guildId == entry.guildId
    requires queue == GetQueuedPlayers(db.queue, entry.guildId, entry.channelId)
    requires !HasUser(queue, entry.userId)
    modifies db`queue
    ensures db.Valid()
    ensures db.queue == old(db.queue) + [entry]
  {
    forall x | x in db.queue ensures x.channelId != entry.channelId || x.userId != entry.userId {
    }
    AppendKeepsQueueKeys(db.queue, entry);
    db.queue := db.queue + [entry];
  }

  /**
   * The join command. `player` is the registration lookup (none when the user is
   * not registered); `created` is the settings row the guild gets when it has
   * none. A rejection leaves the queue and the cache as they were; only the
   * settings row may have been created, once the "queue full" check passed.
   * On success exactly one entry is appended, and `lobbyFull` reports that the
   * queue reached capacity, which hands the lobby to the game-creation step.
   */
  method JoinLobby(
    db: Tables, cache: QueueDelayCache, player: Option<Player>,
    guild: GuildId, channel: ChannelId, user: UserId, now: Time, created: Competition)
    returns (outcome: JoinOutcome)
    requires db.Valid()
    requires created.guildId == guild
    requires channel in db.lobbies ==> db.lobbies[channel].guildId == guild
    modifies db`queue, db`competitions, cache
    ensures db.Valid()
    ensures outcome == JoinVerdict(old(db.lobbies), old(db.competitions), old(db.bans), old(db.queue), old(db.games),
                                   old(cache.delays), player, guild, channel, user, now, created)
    ensures db.queue == if outcome.Joined? then old(db.queue) + [NewQueuedPlayer(guild, user, channel, now)] else old(db.queue)
    ensures db.competitions == if ReachesSettings(outcome) && guild !in old(db.competitions)
                               then old(db.competitions)[guild := created] else old(db.competitions)
    ensures cache.delays == if outcome.Joined? && SettingsFor(old(db.competitions), guild, created).requeueDelay.Some?
                            then RecordJoin(old(cache.delays), guild, user, now) else old(cache.delays)
  {
    if player.None? {
      return NotRegistered;
    }
    if channel !in db.lobbies {
      return NotALobby;
    }
    var lobby := db.lobbies[channel];
    if lobby.isLocked {
      return Frozen;
    }
    var lastBan := LatestActiveBan(db.bans, guild, user, now);
    if lastBan.Some? {
      return Banned(BanExpiry(lastBan.value) - now);
    }
    var queue := GetQueuedPlayers(db.queue, guild, channel);
    if |queue| >= Capacity(lobby) {
      return QueueFull;
    }
    var comp := db.GetOrCreateCompetition(guild, created);
    if !comp.allowMultiQueueing {
      var queued := QueuedElsewhere(db.queue, guild, user, channel);
      if |queued| > 0 {
        return MultiQueueDisallowed(ChannelsOf(queued));
      }
    }
    if lobby.minimumPoints.Some? && player.value.points < lobby.minimumPoints.value {
      return BelowMinimumPoints(lobby.minimumPoints.value);
    }
    if IsCurrentlyPicking(db.games, lobby) {
      return PickingInProgress;
    }
    if HasUser(queue, user) {
      return AlreadyQueued;
    }
    if comp.requeueDelay.Some? {
      var wait := cache.CheckAndRecord(guild, user, comp.requeueDelay.value, now);
      if wait.Some? {
        return RequeueCooldown(wait.value);
      }
    }
    Enqueue(db, queue, NewQueuedPlayer(lobby.guildId, user, lobby.channelId, now));
    outcome := Joined(|queue| + 1, |queue| + 1 >= Capacity(lobby));
  }

  /** The replies of the leave command. */
  datatype LeaveOutcome =
    | LeaveNotRegistered
    | LeaveNotALobby
    | NotQueued
    | LeaveBlockedByPicking
    | Left(queueSize: int)

  /** The latest game of the lobby is picking teams. */
  predicate LatestIsPicking(games: seq<GameResult>, channel: ChannelId) {
    GetLatestGame(games, channel).Some? && GetLatestGame(games, channel).value.state == Picking
  }

  /**
   * The leave command's reply: a user without an entry in this lobby's queue
   * gets `NotQueued`; a lobby whose latest game is picking teams blocks the
   * leave; otherwise the user leaves and the queue is one shorter. Each reply
   * is given exactly when the checks before it pass and its own fails.
   */
  function LeaveVerdict(
    lobbies: map<ChannelId, Lobby>, queue: seq<QueuedPlayer>, games: seq<GameResult>,
    registered: bool, guild: GuildId, channel: ChannelId, user: UserId)
    : (r: LeaveOutcome)
    ensures r.LeaveNotRegistered? <==> !registered
    ensures r.LeaveNotALobby? <==> registered && channel !in lobbies
    ensures r.NotQueued? <==> registered && channel in lobbies && NotQueuedIn(queue, guild, channel, user)
    ensures r.LeaveBlockedByPicking? <==>
      registered && channel in lobbies && !NotQueuedIn(queue, guild, channel, user) && LatestIsPicking(games, channel)
    ensures r.Left? <==>
      registered && channel in lobbies && !NotQueuedIn(queue, guild, channel, user) && !LatestIsPicking(games, channel)
    ensures r.Left? ==> r.queueSize == |GetQueuedPlayers(queue, guild, channel)| - 1 >= 0
    ensures r.Left? ==> forall g :: g in games && g.lobbyId == channel && g.state == Picking ==>
                          exists h :: h in games && h.lobbyId == channel && h.gameId >= g.gameId && h.state != Picking
  {
    if !registered then LeaveNotRegistered
    else if channel !in lobbies then LeaveNotALobby
    else
      var q := GetQueuedPlayers(queue, guild, channel);
      if !HasUser(q, user) then NotQueued
      else
        var latest := GetLatestGame(games, channel);
        if latest.Some? && latest.value.state == Picking then LeaveBlockedByPicking
        else
          assert exists i :: 0 <= i < |q| && q[i].userId == user;
          Left(|q| - 1)
  }

  /** The leave command: removes exactly the user's entry of this lobby, unless rejected. */
  method LeaveLobby(db: Tables, registered: bool, guild: GuildId, channel: ChannelId, user: UserId)
    returns (outcome: LeaveOutcome)
    requires db.Valid()
    requires channel in db.lobbies ==> db.lobbies[channel].guildId == guild
    modifies db`queue
    ensures db.Valid()
    ensures outcome == LeaveVerdict(old(db.lobbies), old(db.queue), old(db.games), registered, guild, channel, user)
    ensures db.queue == if outcome.Left? then RemoveEntry(old(db.queue), channel, user) else old(db.queue)
    ensures outcome.Left? ==> |db.queue| == |old(db.queue)| - 1
  {
    if !registered {
      return LeaveNotRegistered;
    }
    if channel !in db.lobbies {
      return LeaveNotALobby;
    }
    var queue := GetQueuedPlayers(db.queue, guild, channel);
    if !HasUser(queue, user) {
      return NotQueued;
    }
    var game := GetLatestGame(db.games, channel);
    if game.Some? && game.value.state == Picking {
      return LeaveBlockedByPicking;
    }
    var k :| 0 <= k < |queue| && queue[k].userId == user;
    assert queue[k] in db.queue;
    RemoveEntryDropsOne(db.queue, channel, user);
    ghost var before := db.queue;
    db.queue := RemoveEntry(db.queue, channel, user);
    forall i, j | 0 <= i < j < |db.queue|
      ensures db.queue[i].channelId != db.queue[j].channelId || db.queue[i].userId != db.queue[j].userId
    {
      FilterKeepsOrder(before, (x: QueuedPlayer) => x.channelId != channel || x.userId != user, i, j);
    }
    forall i | 0 <= i < |db.queue|
      ensures db.queue[i].channelId in db.lobbies && db.lobbies[db.queue[i].channelId].guildId == db.queue[i].guildId
    {
      assert db.queue[i] in before;
    }
    outcome := Left(|queue| - 1);
  }

  /**
   * A user just admitted by the join command is queued for the leave command:
   * leaving right after gives back the queue size from before the join, unless
   * the lobby's latest game is picking teams. The join checked the current
   * game, the leave checks the latest one, so the draft can still block it.
   */
  lemma JoinThenLeaveVerdict(
    lobbies: map<ChannelId, Lobby>, comps: map<GuildId, Competition>, bans: seq<Ban>,
    queue: seq<QueuedPlayer>, games: seq<GameResult>, delays: DelayTable,
    player: Option<Player>, guild: GuildId, channel: ChannelId, user: UserId, now: Time, created: Competition)
    requires JoinVerdict(lobbies, comps, bans, queue, games, delays, player, guild, channel, user, now, created).Joined?
    ensures var joined := JoinVerdict(lobbies, comps, bans, queue, games, delays, player, guild, channel, user, now, created);
      LeaveVerdict(lobbies, queue + [NewQueuedPlayer(guild, user, channel, now)], games, true, guild, channel, user)
        == if LatestIsPicking(games, channel) then LeaveBlockedByPicking else Left(joined.queueSize - 1)
  {
    var e := NewQueuedPlayer(guild, user, channel, now);
    JoinGrowsOnlyItsQueue(queue, e, guild, channel);
    assert e in queue + [e];
  }

  // ---------------------------------------------------------------------
  // Expiry
  // ---------------------------------------------------------------------

  /** The replies of the expiry command when a duration is given. */
  datatype ExpireOutcome =
    | SyntaxError
    | BelowMinimumExpiry
    | AboveMaximumExpiry
    | NoQueues
    | ExpiryUpdated(duration: Duration)

  /**
   * The expiry command with an argument. `duration` is the parsed argument
   * (none when it does not parse). Outside 10 minutes to 4 hours nothing
   * changes; otherwise every entry of the user, in any lobby, now expires at
   * `now + duration`, and every other entry and every other field stays as it was.
   */
  method SetExpiry(db: Tables, user: UserId, duration: Option<Duration>, now: Time) returns (outcome: ExpireOutcome)
    requires db.Valid()
    modifies db`queue
    ensures db.Valid()
    ensures duration.None? ==> outcome == SyntaxError
    ensures duration.Some? && duration.value < MinExpiry ==> outcome == BelowMinimumExpiry
    ensures duration.Some? && MinExpiry <= duration.value && duration.value > MaxExpiry ==> outcome == AboveMaximumExpiry
    ensures !outcome.ExpiryUpdated? && !outcome.NoQueues? ==> db.queue == old(db.queue)
    ensures duration.Some? && MinExpiry <= duration.value <= MaxExpiry ==>
      outcome == (if HasUser(old(db.queue), user) then ExpiryUpdated(duration.value) else NoQueues)
    ensures |db.queue| == |old(db.queue)|
    ensures forall i :: 0 <= i < |db.queue| ==>
      (db.queue[i] == if (outcome.ExpiryUpdated? || outcome.NoQueues?) && old(db.queue)[i].userId == user
                      then WithExpiry(old(db.queue)[i], now + duration.value) else old(db.queue)[i])
  {
    if duration.None? {
      return SyntaxError;
    }
    var d := duration.value;
    if d < MinExpiry {
      return BelowMinimumExpiry;
    }
    if d > MaxExpiry {
      return AboveMaximumExpiry;
    }
    ghost var before := db.queue;
    var i := 0;
    while i < |db.queue|
      invariant |db.queue| == |before|
      invariant 0 <= i <= |db.queue|
      invariant forall j :: 0 <= j < |db.queue| ==>
        (db.queue[j] == if j < i && before[j].userId == user then WithExpiry(before[j], now + d) else before[j])
    {
      if db.queue[i].userId == user {
        db.queue := db.queue[i := WithExpiry(db.queue[i], now + d)];
      }
      i := i + 1;
    }
    ExpiryKeepsKeys(before, db.queue);
    assert HasUser(db.queue, user) == HasUser(before, user);
    outcome := if HasUser(db.queue, user) then ExpiryUpdated(d) else NoQueues;
  }

  /** Rewriting expiry times keeps every key and every lobby reference, hence the table invariant. */
  lemma ExpiryKeepsKeys(before: seq<QueuedPlayer>, after: seq<QueuedPlayer>)
    requires |after| == |before|
    requires forall j :: 0 <= j < |before| ==>
      after[j].channelId == before[j].channelId && after[j].userId == before[j].userId && after[j].guildId == before[j].guildId
    requires QueueKeysUnique(before)
    ensures QueueKeysUnique(after)
  {
  }

  /**
   * The expiry command without an argument: how long until the user's
   * soonest-expiring entry (in any lobby) expires, looking at most 24 hours
   * ahead; none when the user has no entry.
   */
  method ExpiryReport(queue: seq<QueuedPlayer>, user: UserId, now: Time) returns (remaining: Option<Duration>)
    ensures remaining.None? <==> !HasUser(queue, user)
    ensures remaining.Some? ==> remaining.value <= ReportHorizon
    ensures remaining.Some? ==> forall x :: x in queue && x.userId == user ==> remaining.value <= x.expireAt - now
    ensures remaining.Some? ==> remaining.value == ReportHorizon
                                || exists x :: x in queue && x.userId == user && remaining.value == x.expireAt - now
  {
    var soonest := now + ReportHorizon;
    var found := false;
    var i := 0;
    while i < |queue|
      invariant 0 <= i <= |queue|
      invariant found <==> exists j :: 0 <= j < i && queue[j].userId == user
      invariant soonest <= now + ReportHorizon
      invariant forall j :: 0 <= j < i && queue[j].userId == user ==> soonest <= queue[j].expireAt
      invariant soonest == now + ReportHorizon || exists j :: 0 <= j < i && queue[j].userId == user && soonest == queue[j].expireAt
    {
      if queue[i].userId == user {
        found := true;
        if queue[i].expireAt < soonest {
          soonest := queue[i].expireAt;
        }
      }
      i := i + 1;
    }
    if found {
      remaining := Some(soonest - now);
    } else {
      remaining := None;
    }
  }

  // ---------------------------------------------------------------------
  // Freezing
  // ---------------------------------------------------------------------

  /** The replies of the freeze and unfreeze commands. */
  datatype LockOutcome = LockNotALobby | AlreadyInState | LockChanged

  /** The lobbies with only the lock flag of `channel` set to `locked`. */
  function SetLocked(lobbies: map<ChannelId, Lobby>, channel: ChannelId, locked: bool): (r: map<ChannelId, Lobby>)
    requires channel in lobbies
    ensures r.Keys == lobbies.Keys
    ensures r[channel] == lobbies[channel].(isLocked := locked)
    ensures forall c :: c in lobbies && c != channel ==> r[c] == lobbies[c]
  {
    lobbies[channel := lobbies[channel].(isLocked := locked)]
  }

  /** Freezing an unfrozen lobby and then unfreezing it restores every lobby. */
  lemma FreezeThenUnfreezeRestores(lobbies: map<ChannelId, Lobby>, channel: ChannelId)
    requires channel in lobbies && !lobbies[channel].isLocked
    ensures SetLocked(SetLocked(lobbies, channel, true), channel, false) == lobbies
  {
  }

  /** The freeze command: an existing, unfrozen lobby becomes frozen; anything else is rejected unchanged. */
  method FreezeQueue(db: Tables, channel: ChannelId) returns (outcome: LockOutcome)
    requires db.Valid()
    modifies db`lobbies
    ensures db.Valid()
    ensures outcome == if channel !in old(db.lobbies) then LockNotALobby
                       else if old(db.lobbies)[channel].isLocked then AlreadyInState
                       else LockChanged
    ensures db.lobbies == if outcome.LockChanged? then SetLocked(old(db.lobbies), channel, true) else old(db.lobbies)
  {
    if channel !in db.lobbies {
      return LockNotALobby;
    }
    var lobby := db.lobbies[channel];
    if lobby.isLocked {
      return AlreadyInState;
    }
    db.lobbies := db.lobbies[channel := lobby.(isLocked := true)];
    outcome := LockChanged;
  }

  /** The unfreeze command: an existing, frozen lobby becomes unfrozen; anything else is rejected unchanged. */
  method UnFreezeQueue(db: Tables, channel: ChannelId) returns (outcome: LockOutcome)
    requires db.Valid()
    modifies db`lobbies
    ensures db.Valid()
    ensures outcome == if channel !in old(db.lobbies) then LockNotALobby
                       else if !old(db.lobbies)[channel].isLocked then AlreadyInState
                       else LockChanged
    ensures db.lobbies == if outcome.LockChanged? then SetLocked(old(db.lobbies), channel, false) else old(db.lobbies)
  {
    if channel !in db.lobbies {
      return LockNotALobby;
    }
    var lobby := db.lobbies[channel];
    if !lobby.isLocked {
      return AlreadyInState;
    }
    db.lobbies := db.lobbies[channel := lobby.(isLocked := false)];
    outcome := LockChanged;
  }
}
