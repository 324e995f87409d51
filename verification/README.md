# ELO matchmaking core — a Dafny model

This project models the matchmaking core of an ELO Discord bot. Each guild
(Discord server) has lobbies: text channels with a queue that players join
and leave. The model covers these parts:

- **Queue admission.** The join command runs a fixed chain of checks: the user
  is registered, the channel is a lobby, the lobby is not frozen, there is no
  active ban, the queue is not full, the multi-queue policy allows it, the
  user has the minimum points, no draft is running, the user is not already
  queued, and the requeue delay has passed. It then inserts one queue entry.
- **Leaving a queue, expiry and freezing.** The leave command removes the
  user's entry unless a draft is running. The expiry command sets and reports
  when entries expire. Freezing a lobby stops new joins.
- **Parties (duos).** A party is a group of rows in the party table with the
  same channel and host, and the host has a row of its own. The model covers
  inviting and accepting, forcing a duo, disbanding, listing, and disbanding
  every party of a lobby.
- **Player statistics.** Current and next rank, win and loss streaks,
  head-to-head and same-team tallies, points history, and the leaderboard page
  window.
- **Database helpers** that these commands share, and the composite keys that
  make table rows unique.

The model is organised as follows:

- The database context is the class `Database.Tables`. Its tables are
  sequences, in the order a query without `OrderBy` meets the rows, so "first
  match" has a definite meaning. Lobbies and guild settings are maps, because
  each is keyed by a single id.
- `Tables.Valid` holds the declared keys and the well-formedness of parties.
  Every command keeps it.
- Each command is a method that changes the tables in place. Its reply is an
  outcome datatype, which the method's contract ties to a pure verdict
  function of the old state.
- The requeue-delay cache is a process-wide dictionary. It is the class
  `QueueManagement.QueueDelayCache`.
- The clock is read once per command and passed in as `now`, in whole seconds.
- Registration and the premium flag are looked up outside the core, so they
  are parameters.

Files:

- `wrappers.dfy`: `Option`.
- `seqs.dfy`: filtering (LINQ `Where`) and its lemmas.
- `entities.dfy`: the records.
- `queued_player.dfy`: queue entries.
- `database.dfy`: keys, queries and the context.
- `queue_management.dfy`, `party_commands.dfy`, `info.dfy`: the commands.

Two behaviours of the code worth knowing:

- **Current rank.** The current rank uses a strict `<` (Info.cs:465): it is
  the highest threshold strictly below the player's points. A threshold equal
  to the points is not the player's rank.
- **Duo invitation.** Accepting an invitation re-checks both users'
  parties (PartyCommands.cs:70-108), but it does not re-check that the
  channel is still a lobby.

## Model

| member | source | states |
|---|---|---|
| QueuedPlayers.NewQueuedPlayer | src/CompetitionModels/Game/QueuedPlayer.cs:6-20 | a new entry carries the given guild, user and channel, is queued at `now`, and expires exactly two hours later |
| QueuedPlayers.WithExpiry | src/Modules/QueueManagement.cs:347-351 | rewriting the expiry changes no key field and not the queue time |
| Database.QueueKeyIdentifiesRow | src/Services/Database.cs:256-262 | the queue key (channel, user) holds exactly when no two positions of the table share a channel and user. `Tables.Valid` holds it, and every command keeps it |
| Database.PartyKeyIdentifiesRow | src/Services/Database.cs:280-283 | the party key (channel, user) holds exactly when no two positions of the table share a channel and user. `Tables.Valid` holds it |
| Database.GameKeyIdentifiesRow | src/Services/Database.cs:248-254 | the game key (lobby, game number) holds exactly when no two positions of the table share both. `Tables.Valid` holds it |
| Database.ScoreKeyIdentifiesRow | src/Services/Database.cs:285-291 | the score key (channel, user, game number) holds exactly when no two positions of the table share all three. `Tables.Valid` holds it |
| Database.GetLatestGame | src/Services/Database.cs:103-106 | none exactly when the lobby has no game; otherwise a game of that lobby whose number is at least every other game's number in that lobby |
| Database.FindGame | src/Services/Database.cs:108-111 | none exactly when no game has that lobby and number; otherwise a row of the table with both |
| Database.FindGameUnique | src/Services/Database.cs:248-254 | under the (lobby, game) key, the lookup returns the one game with that key |
| Database.IsCurrentlyPicking | src/Services/Database.cs:108-111 | true only if the lobby's current game exists and is in the Picking state |
| Database.IsCurrentlyPickingExact | src/Services/Database.cs:108-111 | under the game key, true exactly when the lobby's current game is picking |
| Database.GetTeamPlayers | src/Services/Database.cs:123-126 | exactly the team rows of that guild, channel, game and team |
| Database.GetTeam1 | src/Services/Database.cs:128-131 | exactly the game's rows on team 1 |
| Database.GetTeam2 | src/Services/Database.cs:148-151 | exactly the game's rows on team 2 |
| Database.FindCaptain | src/Services/Database.cs:113-116 | none exactly when the team has no captain row; otherwise a captain row of that team |
| Database.GetTeamFull | src/Services/Database.cs:133-146 | a user is in the team exactly when seated on it, or when the game uses a captain mode and the user is the (non-zero) first captain; outside captain modes, only the seated players |
| Database.GetQueuedPlayers | src/Services/Database.cs:153-156 | exactly the entries of that guild and channel, never more than the table holds |
| Database.GetQueue | src/Services/Database.cs:168-171 | exactly the entries of the lobby's guild and channel |
| Database.GetScoreUpdates | src/Services/Database.cs:173-176 | exactly the score rows of that guild, channel and game |
| Database.GetScoreUpdate | src/Services/Database.cs:178-181 | none exactly when the user has no score row for that game; otherwise such a row |
| Database.GetScoreUpdateUnique | src/Services/Database.cs:285-291 | under the score key, the lookup returns the one row with that key |
| Database.Tables.GetOrCreateCompetition | src/Services/Database.cs:70-81 | an existing settings row is returned and nothing changes; otherwise the new row is added and returned; the table invariant is kept |
| QueueManagement.LatestActiveBan | src/Modules/QueueManagement.cs:63-66 | none exactly when the user has no active ban in the guild (not lifted, not run out); otherwise an active ban with the latest expiry |
| QueueManagement.QueuedElsewhere | src/Modules/QueueManagement.cs:97-99 | exactly the user's entries in the guild's other channels |
| QueueManagement.CooldownRemaining | src/Modules/QueueManagement.cs:156-174 | no wait exactly when no delay is set, the user has no stored join, or the stored join plus the delay is not after `now`; any wait is positive |
| QueueManagement.JoinVerdict | src/Modules/QueueManagement.cs:38-203 | each reply is given exactly when the checks before it pass and its own fails, in source order: registered, lobby, not frozen, no active ban, room in the queue, multi-queue policy, minimum points, no draft, not queued, requeue delay. Admission is exactly "all ten pass". The ban wait is the latest active ban's expiry less `now`, and it is positive. The multi-queue refusal lists exactly the user's other channels in the guild. The minimum is the lobby's, and the cooldown wait is `CooldownRemaining`. On admission the new size is at most capacity, and "lobby full" holds exactly when the size equals capacity |
| QueueManagement.RecordJoin | src/Modules/QueueManagement.cs:156-190 | the user's last join becomes `now`; every other guild and every other user of the guild keep their times |
| QueueManagement.RecordJoinAsWritten | src/Modules/QueueManagement.cs:175-178 | as written, a stored join time is never replaced; only first joins are stored |
| QueueManagement.RequeueDelayNotRefreshedAsWritten | src/Modules/QueueManagement.cs:156-190 | with delay 600 s and joins at 0, 1200 and 1300, the third join passes as written, but must wait 500 s once the time is refreshed |
| QueueManagement.JoinStartsFullCooldown | src/Modules/QueueManagement.cs:156-190 | after an admitted join, the next join waits exactly the rest of the delay |
| QueueManagement.QueueDelayCache.CheckAndRecord | src/Modules/QueueManagement.cs:156-190 | the wait is `CooldownRemaining` of the old cache. On no wait the cache becomes `RecordJoin`, the corrected refresh (see Findings); otherwise it is unchanged |
| QueueManagement.AppendKeepsQueueKeys | src/Services/Database.cs:256-262 | appending an entry whose (channel, user) key is unused keeps the queue key unique |
| QueueManagement.JoinGrowsOnlyItsQueue | src/Modules/QueueManagement.cs:192-197 | an insert grows only the queue of its own guild and channel, by that entry at the end |
| QueueManagement.RemoveEntry | src/Modules/QueueManagement.cs:272 | exactly the entries whose (channel, user) key differs remain |
| QueueManagement.RemoveEntryDropsOne | src/Modules/QueueManagement.cs:272 | under the queue key, removing a present entry shrinks the table by exactly one |
| QueueManagement.JoinThenLeaveRestores | src/Modules/QueueManagement.cs:192-197 | joining and then leaving gives back the queue table exactly |
| QueueManagement.Enqueue | src/Modules/QueueManagement.cs:192-197 | the entry is appended and the table invariant is kept |
| QueueManagement.JoinLobby | src/Modules/QueueManagement.cs:38-224 | the reply is `JoinVerdict` of the old state. The queue changes only on admission, by the new entry. Guild settings are created only once the "queue full" check has passed. The cache changes only on admission under a delay, and then becomes `RecordJoin`, the corrected refresh (see Findings). The invariant is kept |
| QueueManagement.LeaveVerdict | src/Modules/QueueManagement.cs:230-287 | each reply is given exactly when the checks before it pass and its own fails: registered, lobby, queued, latest game not picking. The user leaves exactly when registered, the channel is a lobby, the user has an entry there, and the latest game is absent or not picking. The new size is then one less |
| QueueManagement.JoinThenLeaveVerdict | src/Modules/QueueManagement.cs:192-287 | a user just admitted, leaving at once, gets back the queue size from before the join, unless the lobby's latest game is picking teams |
| QueueManagement.LeaveLobby | src/Modules/QueueManagement.cs:230-287 | the reply is `LeaveVerdict`; on success the table loses exactly the user's entry of this lobby (one row); the invariant is kept |
| QueueManagement.SetExpiry | src/Modules/QueueManagement.cs:293-373 | an unparsable duration, or one outside 10 minutes to 4 hours, changes nothing. Otherwise every entry of the user, in any lobby, expires at `now + duration`. All other entries are unchanged. The reply says whether the user had any entry |
| QueueManagement.ExpiryKeepsKeys | src/Modules/QueueManagement.cs:347-351 | rewriting expiry times keeps the queue key unique |
| QueueManagement.ExpiryReport | src/Modules/QueueManagement.cs:297-323 | none exactly when the user has no entry. Otherwise the time to the user's soonest expiry, capped at 24 hours: no later than any of the user's expiries, and either one of them or the cap |
| QueueManagement.SetLocked | src/Modules/QueueManagement.cs:403 | only the lock flag of that lobby changes |
| QueueManagement.FreezeThenUnfreezeRestores | src/Modules/QueueManagement.cs:403-440 | freezing an unfrozen lobby and then unfreezing it restores every lobby |
| QueueManagement.FreezeQueue | src/Modules/QueueManagement.cs:380-411 | a missing lobby or an already frozen one is rejected with no change; otherwise only that lobby becomes frozen |
| QueueManagement.UnFreezeQueue | src/Modules/QueueManagement.cs:417-448 | a missing lobby or an unfrozen one is rejected with no change; otherwise only that lobby becomes unfrozen |
| PartyCommands.FindMember | src/Modules/PartyCommands.cs:193 | none exactly when the user has no party row in the channel; otherwise such a row |
| PartyCommands.FindMemberAppend | src/Modules/PartyCommands.cs:193 | a user with no row in the old table is found among the rows appended after it |
| PartyCommands.FilterPartiesKeepsInvariants | src/Modules/PartyCommands.cs:200-202 | dropping whole parties keeps the party key unique and every remaining party led by its host. The choice to drop depends only on a row's channel and host |
| PartyCommands.DuoVerdict | src/Modules/PartyCommands.cs:144-174 | refused when the host has a party in the channel, otherwise when the partner has one. A host pairing with itself repeats a key and fails. A duo is created exactly when neither has a party and they differ |
| PartyCommands.AddDuoKeepsInvariants | src/Modules/PartyCommands.cs:158-174 | adding the host's and the partner's rows keeps the party key unique and the parties well formed |
| PartyCommands.CreateDuo | src/Modules/PartyCommands.cs:144-176 | the reply is `DuoVerdict`; only a created duo changes the table, by the host's row and then the partner's; the invariant is kept |
| PartyCommands.DuoRequestVerdict | src/Modules/PartyCommands.cs:34-64 | the invitation is sent exactly when both users are registered, the channel is a lobby and neither user is in a party there |
| PartyCommands.InviteThenAcceptCreates | src/Modules/PartyCommands.cs:70-108 | if the invitation was sent and the table has not changed, acceptance creates the duo, unless the user invited itself |
| PartyCommands.AcceptDuo | src/Modules/PartyCommands.cs:70-115 | a reaction from anyone but the invitee changes nothing; the invitee's reaction gives `DuoVerdict` with the inviting user as host; the invariant is kept |
| PartyCommands.ForceDuo | src/Modules/PartyCommands.cs:122-178 | checks host registration, then partner registration, then that the channel is a lobby, then `DuoVerdict`. Only a created duo changes the table. The invariant is kept |
| PartyCommands.DisbandVerdict | src/Modules/PartyCommands.cs:186-198 | "not a lobby" exactly when the channel has no lobby; "not in a party" exactly when the user has no row there; otherwise the party named by one of the user's rows |
| PartyCommands.Disband | src/Modules/PartyCommands.cs:182-207 | the reply is `DisbandVerdict`. On success exactly the rows of that party in the channel are removed, so the user has no row left there and every other party, in any channel, is untouched. The invariant is kept |
| PartyCommands.SameKeySameRow | src/Services/Database.cs:280-283 | under the party key, two rows with the same channel and user are the same row |
| PartyCommands.DisbandRemovesCaller | src/Modules/PartyCommands.cs:193-202 | under the party key, removing the caller's party leaves the caller without a row in the channel |
| PartyCommands.HostOfRowInParty | src/Modules/PartyCommands.cs:158-174 | in a well-formed table the host named by any row has a row in that channel |
| PartyCommands.DisbandUndoesDuo | src/Modules/PartyCommands.cs:182-207 | after a duo is created, disbanding by either member names the host's party and restores the table exactly |
| PartyCommands.DisbandAll | src/Modules/PartyCommands.cs:273-289 | a missing lobby changes nothing. Otherwise exactly the channel's party rows are removed, other channels keep theirs, and the invariant is kept |
| PartyCommands.PartyInfo | src/Modules/PartyCommands.cs:212-234 | the caller's party members: the caller is among them, and a user is listed exactly when it has a row of that host in the channel |
| PartyCommands.PartyInfoListsHost | src/Modules/PartyCommands.cs:212-234 | in a well-formed table the listing includes the host |
| PartyCommands.Hosts | src/Modules/PartyCommands.cs:250 | the hosts of the rows, each once, and no other value |
| PartyCommands.GroupByHost | src/Modules/PartyCommands.cs:250 | one non-empty group per distinct host. Every row is in the group of its own host and in no other. A group holds only rows of its host |
| PartyCommands.ListParties | src/Modules/PartyCommands.cs:239-268 | none exactly when the channel is not a lobby. The listing is empty exactly when the channel has no party row, and each group holds only that channel's rows of its host |
| Info.CurrentRank | src/Modules/Info.cs:464-465 | none exactly when no rank of the guild is strictly below the points; otherwise such a rank, and no rank of the guild below the points is higher |
| Info.NextRank | src/Modules/Info.cs:464-476 | none exactly when no rank of the guild is strictly above the points. Otherwise the lowest such rank, so the gap shown (threshold minus points) is positive |
| Info.Verdicts | src/Modules/Info.cs:482-498 | defined exactly when every row's game exists in the lobby. Then there is one verdict per row, and row i's verdict is that of its own game for its team |
| Info.VerdictsFailurePersists | src/Modules/Info.cs:492-498 | a missing game in a prefix of the rows makes the whole walk fail |
| Info.ComputeStreaks | src/Modules/Info.cs:479-520 | the loop's four counters are `Fold` of the verdicts, or none when a game is missing |
| Info.CurrentStreaks | src/Modules/Info.cs:487-520 | the current win streak counts the wins since the last loss or draw. The current loss streak counts the losses since the last win. Each is at most its high. At most one of them is non-zero |
| Info.HighestStreaks | src/Modules/Info.cs:487-520 | each high streak is the largest current streak seen after any prefix of the games |
| Info.TallyOf | src/Modules/Info.cs:317-350 | defined exactly when every row of player 1 with a partner seat finds its game in the lobby. Then wins + losses + draws is at most the number of player 1's rows |
| Info.TallyCounts | src/Modules/Info.cs:317-350 | wins, losses and draws are the numbers of player 1's partnered rows whose decided game the row's team won, lost or drew |
| Info.TallyFailurePersists | src/Modules/Info.cs:324-329 | a missing partnered game in a prefix makes the whole tally fail |
| Info.NoSharedGamesNoTally | src/Modules/Info.cs:317-350 | two players who never sat in the same game have an all-zero tally |
| Info.ProfileTally | src/Modules/Info.cs:283-434 | unregistered players are reported first. Otherwise the nested loops with `break` return `TallyOf` for opposing seats (ProfileAgainst) or the same team (ProfileWith), or "not played together" when a game is missing |
| Info.History | src/Modules/Info.cs:224-235 | the history is non-empty and ends with the current points |
| Info.HistoryShape | src/Modules/Info.cs:212-236 | one entry per counted game plus one, starting at the current points less every recorded change |
| Info.FindGameAnyLobby | src/Modules/Info.cs:226 | none exactly when no game of any lobby has that number; otherwise such a game |
| Info.Resolve | src/Modules/Info.cs:224-226 | when it succeeds, there is exactly one game per team row |
| Info.ResolveContents | src/Modules/Info.cs:224-226 | the lookup succeeds exactly when it finds every row's game. Then element i is the game found for row i |
| Info.ResolveFailurePersists | src/Modules/Info.cs:224-226 | a missing game in a prefix of the rows makes the history fail |
| Info.InLobbyResolvesOwnGames | src/Modules/Info.cs:226 | with the lookup confined to the lobby, every resolved game belongs to the lobby and has its row's number |
| Info.PointsHistory | src/Modules/Info.cs:212-236 | the loop that inserts at the front computes `HistoryOf`, or none when a game is missing. Games are looked up in the command's lobby, the corrected lookup (see Findings) |
| Info.HistoryCrossLobbyAsWritten | src/Modules/Info.cs:226 | with the game looked up by number alone, a game of another lobby is used and the recorded +25 is missed; the lobby-confined lookup gives [75, 100] |
| Info.ClampPage | src/Modules/Info.cs:663-676 | the page is at least 1. A page of 1 or less, or any page of a guild without premium, becomes 1. A premium guild keeps any positive page |
| Info.SkipCount | src/Modules/Info.cs:684-685 | the count is a 32-bit `int` congruent to (page - 1) * 20 modulo 2^32. Up to page 107374183 it is a whole number of 20-player pages, one fewer than the page number |
| Info.SkipCountWrapsPastLastWholePage | src/Modules/Info.cs:685 | page 107374183 skips 2147483640 players; the next page wraps around to -2147483636 |
| Info.FreeGuildSeesTop | src/Modules/Info.cs:663-685 | a guild without premium always starts at the top of the leaderboard |

## Left out

- Discord I/O is not modelled: messages, embeds, deleting messages and `HideQueue`. `HideQueue` only changes how a reply is shown, not which reply is given.
- Which of the user's queues the replies mention is not modelled, nor the `NameFormat` text.
- Registration (`IsRegistered`) and premium status are computed outside the core. They are parameters.
- The settings row that `Competition(guildId)` builds is passed in as `created`. Its defaults are not part of this model.
- The lobby-full hand-off (`LobbyService.LobbyFullAsync`) is not part of this model. The join reports `lobbyFull` instead.
- Team assembly, game creation and scoring are also not part of this model.
- Concurrency is not modelled. Every command is one atomic step, and the requeue-delay cache is not shared between threads.
- The clock is read once per command. The expiry command reads it once per entry; in the model all entries get the same `now`.
- `TimeSpan.Parse` is not modelled. The expiry argument arrives already parsed, or as none.
- Time is whole seconds. The report prints hours and minutes, and that formatting is not modelled.
- JoinLobby: the settings lookup of the join command is a map lookup. `FirstOrDefault` on the guild id finds the same row because the guild is the key.
- JoinLobby: a lobby's guild is required to be the guild the command runs in. The source reads both from the same Discord channel.
- LeaveLobby: the lobby's guild must likewise equal the command's guild.
- The Duo command's invitation message and the reaction service that calls back are not modelled. `AcceptDuo` is the callback body, given the reacting user.
- CreateDuo: when host and partner are the same user, the second insert repeats the first row's key. EF Core's change tracker throws on that second `Add` (PartyCommands.cs:174, and 106 in the callback), before the "Duo created." reply and before `SaveChanges`. The model reports `DuplicateMember` with no change. The exception itself is not modelled.
- CreateDuo: the membership lookups use `SingleOrDefault`, which throws on two matching rows. The party key rules that out, so the model uses the first match.
- PartyInfo: the Party listing text and the paging of the Parties listing are not modelled. `ListParties` returns the groups.
- The team rows of a player come from hash sets in the Profile commands. Their order is unspecified. The model takes them in the order given, which matters for streaks only.
- PointsHistory: the database sorts the History rows by descending game number. The model takes the rows in the order given.
- PointsHistory: the current points are a parameter. The command fails when the user has no player row, and that failure is not modelled.
- The command also checks `playerTeams == null`, which can never be true, so it is not modelled.
- A missing game makes the Profile and History commands fail on a null reference. The model returns none for it.
- Help, invite, shard info, server info, GitHub and HTTP queries, and the QuickChart URL are not modelled.
- The floating-point leaderboard modes (`wlr`, `kdr`) and the KDR display are not modelled.
- The database-side ordering of the leaderboard and the player rows it shows are not modelled. Only the page window is modelled.
- ShowRanks only formats the guild's ranks, so it is not modelled.
- The `Map` command of the queue module is not modelled.
- JoinLobby: the requeue-delay cache stores every admitted join time, the corrected refresh (see Findings). As written, QueueManagement.cs:177 assigns only a local, so the first join time stays. With a 600 s delay and joins at 0, 1200 and 1300 s, the source admits the third join, and the model replies `RequeueCooldown(500)`. The as-written refresh is `RecordJoinAsWritten`.
- CheckAndRecord: on no wait it stores `now`, the corrected refresh (see Findings). As written, a stored join time is never replaced (`RecordJoinAsWritten`).
- PointsHistory: games are looked up in the command's lobby, the corrected lookup (see Findings). Info.cs:226 looks them up by number across every lobby; that lookup is `FindGameAnyLobby`.

## Findings

| source | as written | input that shows it | evidently intended | confidence | as-written member | corrected member |
|---|---|---|---|---|---|---|
| src/Modules/QueueManagement.cs:175-178 | after the delay has passed, the new join time goes into a local copy (`currentUserLastJoin = DateTime.UtcNow`), so the cache keeps the first join time forever | delay 600 s; joins at 0, 1200 and 1300: the third join is admitted 100 s after the second | store the new join time, so every join starts a fresh delay | high, not executed | QueueManagement.RecordJoinAsWritten, QueueManagement.RequeueDelayNotRefreshedAsWritten | QueueManagement.RecordJoin, QueueManagement.JoinStartsFullCooldown |
| src/Modules/Info.cs:226 | the History command looks a game up by number alone, across every lobby, although the user's team rows and the game numbers belong to one lobby | lobby 2's game 1 stored before lobby 1's game 1; the user's +25 recorded in lobby 1: the history shows [100, 100] | look the game up in the lobby of the command, giving [75, 100] | high, not executed | Info.FindGameAnyLobby, Info.HistoryCrossLobbyAsWritten | Info.PointsHistory, Info.InLobbyResolvesOwnGames |
