/**
 * The party commands of a lobby: inviting a partner into a duo (and the
 * invitee accepting), an administrator forcing a duo, leaving (disbanding)
 * one's party, listing the parties of a lobby and disbanding them all.
 *
 * A party is a set of rows of the party table sharing a channel and a host;
 * the host's own row names itself as host. Every command only ever adds or
 * removes whole parties, so the keys and the well-formedness that
 * `Tables.Valid` asks for are preserved.
 */
module PartyCommands {
  import opened Wrappers
  import opened Seqs
  import opened Entities
  import opened Database

  // ---------------------------------------------------------------------
  // Lookups
  // ---------------------------------------------------------------------

  /** The first party row of `user` in `channel`. */
  function FindMember(p: seq<PartyMember>, channel: ChannelId, user: UserId): (r: Option<PartyMember>)
    ensures r.None? <==> !InParty(p, channel, user)
    ensures r.Some? ==> r.value in p && r.value.channelId == channel && r.value.userId == user
  {
    if p == [] then None
    else if p[0].channelId == channel && p[0].userId == user then Some(p[0])
    else
      var rest := FindMember(p[1..], channel, user);
      assert InParty(p[1..], channel, user) ==> InParty(p, channel, user) by {
        if InParty(p[1..], channel, user) {
          var i :| 0 <= i < |p[1..]| && p[1..][i].channelId == channel && p[1..][i].userId == user;
          assert p[i + 1] == p[1..][i];
        }
      }
      assert InParty(p, channel, user) ==> InParty(p[1..], channel, user) by {
        if InParty(p, channel, user) {
          var i :| 0 <= i < |p| && p[i].channelId == channel && p[i].userId == user;
          assert p[1..][i - 1] == p[i];
        }
      }
      rest
  }

  /** A user without a row in the first part of the table is found where the second part says. */
  lemma {:induction false} FindMemberAppend(a: seq<PartyMember>, b: seq<PartyMember>, channel: ChannelId, user: UserId)
    requires !InParty(a, channel, user)
    ensures FindMember(a + b, channel, user) == FindMember(b, channel, user)
  {
    if a != [] {
      assert (a + b)[0] == a[0];
      assert !(a[0].channelId == channel && a[0].userId == user);
      assert (a + b)[1..] == a[1..] + b;
      forall i | 0 <= i < |a[1..]| ensures a[1..][i].channelId != channel || a[1..][i].userId != user {
        assert a[1..][i] == a[i + 1];
      }
      FindMemberAppend(a[1..], b, channel, user);
    } else {
      assert a + b == b;
    }
  }

  /** The rows of the party `host` leads in `channel`. */
  function PartyRows(p: seq<PartyMember>, channel: ChannelId, host: UserId): seq<PartyMember> {
    Filter(p, (x: PartyMember) => x.channelId == channel && x.partyHost == host)
  }

  // ---------------------------------------------------------------------
  // Whole-party filters keep the table's invariants
  // ---------------------------------------------------------------------

  /** Keeps every row outside the party `host` leads in `channel`. */
  function OutsideParty(channel: ChannelId, host: UserId): PartyMember -> bool {
    (x: PartyMember) => x.channelId != channel || x.partyHost != host
  }

  /** Keeps every row of a channel other than `channel`. */
  function OutsideChannel(channel: ChannelId): PartyMember -> bool {
    (x: PartyMember) => x.channelId != channel
  }

  /**
   * Dropping whole parties (a choice that depends on nothing but a row's
   * channel and host) keeps the keys unique and every remaining party led
   * by its host.
   */
  lemma FilterPartiesKeepsInvariants(p: seq<PartyMember>, keep: PartyMember -> bool)
    requires PartyKeysUnique(p) && PartiesWellFormed(p)
    requires forall x: PartyMember, y: PartyMember :: x.channelId == y.channelId && x.partyHost == y.partyHost && keep(x) ==> keep(y)
    ensures PartyKeysUnique(Filter(p, keep)) && PartiesWellFormed(Filter(p, keep))
  {
    var r := Filter(p, keep);
    forall i, j | 0 <= i < j < |r| ensures r[i].channelId != r[j].channelId || r[i].userId != r[j].userId {
      FilterKeepsOrder(p, keep, i, j);
    }
    forall i | 0 <= i < |r| ensures HasHostRow(r, r[i].channelId, r[i].partyHost) {
      assert r[i] in r;
      var k :| 0 <= k < |p| && p[k] == r[i];
      assert HasHostRow(p, p[k].channelId, p[k].partyHost);
      var w :| 0 <= w < |p| && p[w].channelId == p[k].channelId
        && p[w].userId == p[k].partyHost && p[w].partyHost == p[k].partyHost;
      assert keep(p[w]);
      assert p[w] in r;
      var j :| 0 <= j < |r| && r[j] == p[w];
    }
  }

  // ---------------------------------------------------------------------
  // Creating a duo
  // ---------------------------------------------------------------------

  /** What a party command reports. */
  datatype DuoOutcome =
    | HostNotRegistered
    | UserNotRegistered
    | DuoNotALobby
    | HostInParty
    | UserInParty
    | InviteSent
    | NotInvitee
    | DuplicateMember
    | DuoCreated

  /** The rows a duo adds: the host, hosting itself, then the partner. */
  function DuoRows(guild: GuildId, channel: ChannelId, host: UserId, user: UserId): seq<PartyMember> {
    [PartyMember(guild, channel, host, host), PartyMember(guild, channel, user, host)]
  }

  /**
   * Creating a duo in a table: refused when either user already has a party
   * in the channel (host checked first); when host and partner are the same
   * user, the second row repeats the first one's key and the insert fails.
   */
  function DuoVerdict(p: seq<PartyMember>, channel: ChannelId, host: UserId, user: UserId): (r: DuoOutcome)
    ensures r == HostInParty <==> InParty(p, channel, host)
    ensures r == UserInParty <==> !InParty(p, channel, host) && InParty(p, channel, user)
    ensures r == DuplicateMember <==> !InParty(p, channel, host) && host == user
    ensures r == DuoCreated <==> !InParty(p, channel, host) && !InParty(p, channel, user) && host != user
  {
    if FindMember(p, channel, host).Some? then HostInParty
    else if FindMember(p, channel, user).Some? then UserInParty
    else if host == user then DuplicateMember
    else DuoCreated
  }

  /** Adding a duo whose members have no party in the channel keeps the party table's invariants. */
  lemma AddDuoKeepsInvariants(p: seq<PartyMember>, guild: GuildId, channel: ChannelId, host: UserId, user: UserId)
    requires PartyKeysUnique(p) && PartiesWellFormed(p)
    requires !InParty(p, channel, host) && !InParty(p, channel, user) && host != user
    ensures PartyKeysUnique(p + DuoRows(guild, channel, host, user))
    ensures PartiesWellFormed(p + DuoRows(guild, channel, host, user))
  {
    var q := p + DuoRows(guild, channel, host, user);
    forall i, j | 0 <= i < j < |q| ensures q[i].channelId != q[j].channelId || q[i].userId != q[j].userId {
      if i < |p| && |p| <= j {
        assert q[i] == p[i];
      }
    }
    forall i | 0 <= i < |q| ensures HasHostRow(q, q[i].channelId, q[i].partyHost) {
      if i < |p| {
        assert q[i] == p[i];
        assert HasHostRow(p, p[i].channelId, p[i].partyHost);
        var j :| 0 <= j < |p| && p[j].channelId == p[i].channelId
          && p[j].userId == p[i].partyHost && p[j].partyHost == p[i].partyHost;
        assert q[j] == p[j];
      } else {
        assert q[|p|] == PartyMember(guild, channel, host, host);
      }
    }
  }

  /**
   * The shared insert of the Duo callback and of ForceDuo: look up both
   * users' rows in the channel, refuse if either has one, otherwise add the
   * host's row and the partner's row.
   */
  method CreateDuo(db: Tables, guild: GuildId, channel: ChannelId, host: UserId, user: UserId)
    returns (outcome: DuoOutcome)
    requires db.Valid()
    modifies db`parties
    ensures db.Valid()
    ensures outcome == DuoVerdict(old(db.parties), channel, host, user)
    ensures db.parties == if outcome == DuoCreated then old(db.parties) + DuoRows(guild, channel, host, user)
                          else old(db.parties)
  {
    var hostRow := FindMember(db.parties, channel, host);
    var userRow := FindMember(db.parties, channel, user);
    if hostRow.Some? {
      outcome := HostInParty;
    } else if userRow.Some? {
      outcome := UserInParty;
    } else if host == user {
      outcome := DuplicateMember;
    } else {
      AddDuoKeepsInvariants(db.parties, guild, channel, host, user);
      db.parties := db.parties + DuoRows(guild, channel, host, user);
      outcome := DuoCreated;
    }
  }

  /**
   * The Duo command, before the invitation: both users registered, the
   * channel a lobby, neither user in a party there. Nothing is written yet.
   */
  function DuoRequestVerdict(lobbies: map<ChannelId, Lobby>, p: seq<PartyMember>, callerRegistered: bool,
                             userRegistered: bool, channel: ChannelId, caller: UserId, user: UserId): (r: DuoOutcome)
    ensures r == InviteSent <==> (callerRegistered && userRegistered && channel in lobbies
      && !InParty(p, channel, caller) && !InParty(p, channel, user))
    ensures r == HostNotRegistered <==> !callerRegistered
    ensures r == DuoNotALobby <==> callerRegistered && userRegistered && channel !in lobbies
  {
    if !callerRegistered then HostNotRegistered
    else if !userRegistered then UserNotRegistered
    else if channel !in lobbies then DuoNotALobby
    else if FindMember(p, channel, caller).Some? then HostInParty
    else if FindMember(p, channel, user).Some? then UserInParty
    else InviteSent
  }

  /** An invitation sent to someone else is accepted into a new duo if the table has not changed meanwhile. */
  lemma InviteThenAcceptCreates(lobbies: map<ChannelId, Lobby>, p: seq<PartyMember>, channel: ChannelId,
                                caller: UserId, user: UserId)
    requires DuoRequestVerdict(lobbies, p, true, true, channel, caller, user) == InviteSent
    ensures caller != user ==> DuoVerdict(p, channel, caller, user) == DuoCreated
    ensures caller == user ==> DuoVerdict(p, channel, caller, user) == DuplicateMember
  {
  }

  /**
   * The reaction callback of the Duo command: a reaction by anyone but the
   * invitee changes nothing; the invitee's reaction re-checks both users and
   * creates the duo hosted by the inviting user.
   */
  method AcceptDuo(db: Tables, guild: GuildId, channel: ChannelId, caller: UserId, invitee: UserId, reactor: UserId)
    returns (outcome: DuoOutcome)
    requires db.Valid()
    modifies db`parties
    ensures db.Valid()
    ensures reactor != invitee ==> outcome == NotInvitee && db.parties == old(db.parties)
    ensures reactor == invitee ==> outcome == DuoVerdict(old(db.parties), channel, caller, invitee)
    ensures db.parties == if outcome == DuoCreated then old(db.parties) + DuoRows(guild, channel, caller, invitee)
                          else old(db.parties)
  {
    if reactor != invitee {
      outcome := NotInvitee;
    } else {
      outcome := CreateDuo(db, guild, channel, caller, invitee);
    }
  }

  /** ForceDuo: an administrator pairs `host` and `user` without an invitation. */
  method ForceDuo(db: Tables, hostRegistered: bool, userRegistered: bool, guild: GuildId, channel: ChannelId,
                  host: UserId, user: UserId)
    returns (outcome: DuoOutcome)
    requires db.Valid()
    modifies db`parties
    ensures db.Valid()
    ensures !hostRegistered ==> outcome == HostNotRegistered
    ensures hostRegistered && !userRegistered ==> outcome == UserNotRegistered
    ensures hostRegistered && userRegistered && channel !in db.lobbies ==> outcome == DuoNotALobby
    ensures hostRegistered && userRegistered && channel in db.lobbies ==>
      outcome == DuoVerdict(old(db.parties), channel, host, user)
    ensures db.parties == if outcome == DuoCreated then old(db.parties) + DuoRows(guild, channel, host, user)
                          else old(db.parties)
  {
    if !hostRegistered {
      outcome := HostNotRegistered;
    } else if !userRegistered {
      outcome := UserNotRegistered;
    } else if channel !in db.lobbies {
      outcome := DuoNotALobby;
    } else {
      outcome := CreateDuo(db, guild, channel, host, user);
    }
  }

  // ---------------------------------------------------------------------
  // Disbanding
  // ---------------------------------------------------------------------

  /** The rows left after the party `host` leads in `channel` is removed. */
  function RemoveParty(p: seq<PartyMember>, channel: ChannelId, host: UserId): seq<PartyMember> {
    Filter(p, OutsideParty(channel, host))
  }

  datatype DisbandOutcome = DisbandNotALobby | NotInParty | Disbanded(host: UserId)

  /** Disband: the caller's first row in the channel names the party to remove. */
  function DisbandVerdict(lobbies: map<ChannelId, Lobby>, p: seq<PartyMember>, channel: ChannelId, user: UserId)
    : (r: DisbandOutcome)
    ensures r == DisbandNotALobby <==> channel !in lobbies
    ensures r == NotInParty <==> channel in lobbies && !InParty(p, channel, user)
    ensures r.Disbanded? ==> exists x :: x in p && x.channelId == channel && x.userId == user && x.partyHost == r.host
  {
    if channel !in lobbies then DisbandNotALobby
    else match FindMember(p, channel, user)
      case None => NotInParty
      case Some(m) => Disbanded(m.partyHost)
  }

  /**
   * Disband: remove the caller's row and every row of the caller's party in
   * the channel (the caller's row is one of them).
   */
  method Disband(db: Tables, channel: ChannelId, user: UserId) returns (outcome: DisbandOutcome)
    requires db.Valid()
    modifies db`parties
    ensures db.Valid()
    ensures outcome == DisbandVerdict(db.lobbies, old(db.parties), channel, user)
    ensures db.parties == if outcome.Disbanded? then RemoveParty(old(db.parties), channel, outcome.host)
                          else old(db.parties)
    ensures outcome.Disbanded? ==> !InParty(db.parties, channel, user)
    ensures outcome.Disbanded? ==> forall x :: x in db.parties <==>
      x in old(db.parties) && (x.channelId != channel || x.partyHost != outcome.host)
    ensures forall x :: x in old(db.parties) && x.channelId != channel ==> x in db.parties
  {
    if channel !in db.lobbies {
      return DisbandNotALobby;
    }
    var member := FindMember(db.parties, channel, user);
    if member.None? {
      return NotInParty;
    }
    var host := member.value.partyHost;
    DisbandRemovesCaller(db.parties, channel, user, member.value);
    FilterPartiesKeepsInvariants(db.parties, OutsideParty(channel, host));
    db.parties := RemoveParty(db.parties, channel, host);
    outcome := Disbanded(host);
  }

  /** With one row per user and channel, a row with `m`'s key is `m`. */
  lemma SameKeySameRow(p: seq<PartyMember>, m: PartyMember, x: PartyMember)
    requires PartyKeysUnique(p)
    requires m in p && x in p
    ensures x.channelId == m.channelId && x.userId == m.userId ==> x == m
  {
    var a :| 0 <= a < |p| && p[a] == x;
    var b :| 0 <= b < |p| && p[b] == m;
    assert a < b || a == b || b < a;
  }

  /** With one row per user and channel, removing the caller's party leaves the caller without a row. */
  lemma DisbandRemovesCaller(p: seq<PartyMember>, channel: ChannelId, user: UserId, m: PartyMember)
    requires PartyKeysUnique(p)
    requires m in p && m.channelId == channel && m.userId == user
    ensures !InParty(RemoveParty(p, channel, m.partyHost), channel, user)
  {
    var r := RemoveParty(p, channel, m.partyHost);
    forall i | 0 <= i < |r| ensures r[i].channelId != channel || r[i].userId != user {
      assert r[i] in r;
      SameKeySameRow(p, m, r[i]);
    }
  }

  /** In a well-formed table the host named by any row is itself in a party in that row's channel. */
  lemma HostOfRowInParty(p: seq<PartyMember>, x: PartyMember)
    requires PartiesWellFormed(p) && x in p
    ensures InParty(p, x.channelId, x.partyHost)
  {
    var i :| 0 <= i < |p| && p[i] == x;
    assert HasHostRow(p, p[i].channelId, p[i].partyHost);
  }

  /**
   * Forming a duo and then disbanding it, by the host or by the partner,
   * gives back the table as it was.
   */
  lemma {:induction false} DisbandUndoesDuo(lobbies: map<ChannelId, Lobby>, p: seq<PartyMember>, guild: GuildId,
                                            channel: ChannelId, host: UserId, user: UserId, leaver: UserId)
    requires PartiesWellFormed(p)
    requires channel in lobbies
    requires DuoVerdict(p, channel, host, user) == DuoCreated
    requires leaver == host || leaver == user
    ensures DisbandVerdict(lobbies, p + DuoRows(guild, channel, host, user), channel, leaver) == Disbanded(host)
    ensures RemoveParty(p + DuoRows(guild, channel, host, user), channel, host) == p
  {
    var rows := DuoRows(guild, channel, host, user);
    FindMemberAppend(p, rows, channel, leaver);
    var f := OutsideParty(channel, host);
    forall x | x in p ensures f(x) {
      HostOfRowInParty(p, x);
    }
    FilterKeepsAll(p, f);
    FilterDropsAll(rows, f);
    FilterAppend(p, rows, f);
  }

  datatype DisbandAllOutcome = DisbandAllNotALobby | AllDisbanded

  /** DisbandAll: remove every party row of the lobby's channel. */
  method DisbandAll(db: Tables, channel: ChannelId) returns (outcome: DisbandAllOutcome)
    requires db.Valid()
    modifies db`parties
    ensures db.Valid()
    ensures channel !in db.lobbies ==> outcome == DisbandAllNotALobby && db.parties == old(db.parties)
    ensures channel in db.lobbies ==> (outcome == AllDisbanded
      && db.parties == Filter(old(db.parties), OutsideChannel(channel)))
    ensures channel in db.lobbies ==> forall x :: x in db.parties <==> x in old(db.parties) && x.channelId != channel
  {
    if channel !in db.lobbies {
      return DisbandAllNotALobby;
    }
    FilterPartiesKeepsInvariants(db.parties, OutsideChannel(channel));
    db.parties := Filter(db.parties, OutsideChannel(channel));
    outcome := AllDisbanded;
  }

  // ---------------------------------------------------------------------
  // Listing
  // ---------------------------------------------------------------------

  datatype PartyInfoOutcome = InfoNotALobby | InfoNotInParty | Members(host: UserId, users: seq<UserId>)

  /** Party: the members of the caller's party in the lobby, in table order. */
  function PartyInfo(lobbies: map<ChannelId, Lobby>, p: seq<PartyMember>, channel: ChannelId, user: UserId)
    : (r: PartyInfoOutcome)
    ensures r == InfoNotALobby <==> channel !in lobbies
    ensures r == InfoNotInParty <==> channel in lobbies && !InParty(p, channel, user)
    ensures r.Members? ==> user in r.users
    ensures r.Members? ==> forall u :: u in r.users <==>
      exists x :: x in p && x.channelId == channel && x.partyHost == r.host && x.userId == u
  {
    if channel !in lobbies then InfoNotALobby
    else match FindMember(p, channel, user)
      case None => InfoNotInParty
      case Some(m) =>
        var rows := PartyRows(p, channel, m.partyHost);
        assert m in rows;
        var users := seq(|rows|, i requires 0 <= i < |rows| => rows[i].userId);
        assert forall i :: 0 <= i < |rows| ==> users[i] == rows[i].userId;
        Members(m.partyHost, users)
  }

  /** In a well-formed table the listing of a party includes its host. */
  lemma PartyInfoListsHost(lobbies: map<ChannelId, Lobby>, p: seq<PartyMember>, channel: ChannelId, user: UserId)
    requires PartiesWellFormed(p)
    requires PartyInfo(lobbies, p, channel, user).Members?
    ensures PartyInfo(lobbies, p, channel, user).host in PartyInfo(lobbies, p, channel, user).users
  {
    var r := PartyInfo(lobbies, p, channel, user);
    var m :| m in p && m.channelId == channel && m.partyHost == r.host && m.userId == user;
    var i :| 0 <= i < |p| && p[i] == m;
    assert HasHostRow(p, p[i].channelId, p[i].partyHost);
    var j :| 0 <= j < |p| && p[j].channelId == p[i].channelId
      && p[j].userId == p[i].partyHost && p[j].partyHost == p[i].partyHost;
    assert p[j] in p;
  }

  /** The distinct hosts of `rows`, in the order in which each first appears. */
  function Hosts(rows: seq<PartyMember>): (hs: seq<UserId>)
    ensures forall i, j :: 0 <= i < j < |hs| ==> hs[i] != hs[j]
    ensures forall h :: h in hs <==> exists x :: x in rows && x.partyHost == h
  {
    if rows == [] then []
    else
      var front := rows[..|rows| - 1];
      var last := rows[|rows| - 1];
      assert rows == front + [last];
      var pre := Hosts(front);
      if last.partyHost in pre then pre else pre + [last.partyHost]
  }

  datatype PartyGroup = PartyGroup(host: UserId, members: seq<PartyMember>)

  /** The rows grouped by host: one group per distinct host, each holding exactly that host's rows. */
  function GroupByHost(rows: seq<PartyMember>): (g: seq<PartyGroup>)
    ensures forall i, j :: 0 <= i < j < |g| ==> g[i].host != g[j].host
    ensures forall i :: 0 <= i < |g| ==> |g[i].members| > 0
    ensures forall x :: x in rows ==> exists i :: 0 <= i < |g| && x in g[i].members
    ensures forall i, x :: 0 <= i < |g| && x in g[i].members <==> 0 <= i < |g| && x in rows && x.partyHost == g[i].host
  {
    var hs := Hosts(rows);
    var g := seq(|hs|, i requires 0 <= i < |hs| =>
      PartyGroup(hs[i], Filter(rows, (x: PartyMember) => x.partyHost == hs[i])));
    forall i | 0 <= i < |g| ensures |g[i].members| > 0 {
      assert hs[i] in hs;
      var x :| x in rows && x.partyHost == hs[i];
      assert x in g[i].members;
    }
    forall x | x in rows ensures exists i :: 0 <= i < |g| && x in g[i].members {
      assert x.partyHost in hs;
      var i :| 0 <= i < |hs| && hs[i] == x.partyHost;
      assert x in g[i].members;
    }
    g
  }

  /** Parties: the lobby's party rows grouped by host; none when the channel is not a lobby. */
  function ListParties(lobbies: map<ChannelId, Lobby>, p: seq<PartyMember>, channel: ChannelId)
    : (r: Option<seq<PartyGroup>>)
    ensures r.None? <==> channel !in lobbies
    ensures r.Some? ==> (r.value == [] <==> forall x :: x in p ==> x.channelId != channel)
    ensures r.Some? ==> forall i, x :: 0 <= i < |r.value| && x in r.value[i].members ==>
      x in p && x.channelId == channel && x.partyHost == r.value[i].host
  {
    if channel !in lobbies then None
    else
      var rows := Filter(p, (x: PartyMember) => x.channelId == channel);
      var g := GroupByHost(rows);
      assert g == [] ==> rows == [] by {
        if rows != [] { assert rows[0] in rows; }
      }
      Some(g)
  }
}
