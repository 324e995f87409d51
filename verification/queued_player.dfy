/** The queue entry record and the defaults it is created with. */
module QueuedPlayers {
  import opened Entities

  /** How long a fresh entry stays queued before it expires. */
  const DefaultExpiry: Duration := 2 * Hour

  /** A user waiting in one lobby's queue; keyed by (channel, user). */
  datatype QueuedPlayer = QueuedPlayer(
    guildId: GuildId,
    userId: UserId,
    channelId: ChannelId,
    queuedAt: Time,
    expireAt: Time)

  /**
   * A fresh entry created at `now`: it is stamped with the creation time and
   * expires two hours later, so it always expires after it was queued.
   */
  function NewQueuedPlayer(guild: GuildId, user: UserId, channel: ChannelId, now: Time): (q: QueuedPlayer)
    ensures q.guildId == guild && q.userId == user && q.channelId == channel
    ensures q.queuedAt == now
    ensures q.expireAt - q.queuedAt == DefaultExpiry
    ensures q.expireAt > q.queuedAt
  {
    QueuedPlayer(guild, user, channel, now, now + DefaultExpiry)
  }

  /** The same entry with only its expiry moved to `t`. */
  function WithExpiry(q: QueuedPlayer, t: Time): (r: QueuedPlayer)
    ensures r.expireAt == t
    ensures r.guildId == q.guildId && r.userId == q.userId && r.channelId == q.channelId
    ensures r.queuedAt == q.queuedAt
  {
    q.(expireAt := t)
  }
}
