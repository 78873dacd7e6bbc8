# Verified models of server state machines

Dafny models of the parts of the server that keep state over several steps, with proofs of what they promise over every
input and every run. The imperative code is modelled by classes and methods that are proved equal to functions on
values; the promises are lemmas about those functions and about runs of them.

| files | what they model |
|---|---|
| `BusyNode.dfy`, `BusyCluster.dfy`, `BusyReplication.dfy` | the busy flag of `app/busy.go`: one node with its timers, any cluster over an unreliable bus, one writer with replicas |
| `UploadSpec.dfy`, `UploadProperties.dfy`, `UploadAcceptance.dfy`, `UploadHandlers.dfy` | multipart upload of `api4/file.go`: stream mode, restart, buffered fallback |
| `LogPaging.dfy` | paging a log backwards, `app/admin.go` |
| `BotRows.dfy`, `BotStores.dfy` | bot rows and user rows, `app/bot.go` |
| `BotDraining.dfy`, `BotCascade.dfy`, `BotHandlers.dfy` | disabling an owner's bots, the bots those own, and so on, `app/bot.go` and `app/user.go` |
| `Login.dfy` | the counter of failed logins, `app/authentication.go` |
| `Permissions.dfy` | channel permissions by session, user and post, `app/authorization.go` |
| `ChannelStream.dfy` | streaming a user's channels as one JSON array, `api4/channel.go` |
| `Base64.dfy`, `Cursors.dfy` | GraphQL cursors, `api4/resolver_channel.go` and `api4/resolver_channel_member.go` |
| `AutoResponder.dfy` | one automatic reply a day, `app/auto_responder.go` |

`dafny verify dfyconfig.toml` checks everything.

## What the code does not do

Some promises hold only under a condition. The code is modelled as it is, and the exact condition is proved.

- A callback that has fired and waits for the mutex clears a Set made in the meantime (`BusyNode.SetLastsIff`), and a
  lock-free reader sees "not busy" in the middle of a renewal (`BusyNode.FlagGlitchIff`).
- With a channel ID in the URL, the files in front of the first `channel_id` part are uploaded twice: on success
  exactly these (`UploadProperties.UrlChannelOnceIff`), on an error as far as the request gets
  (`UploadProperties.UrlChannelTwiceIff`). The comment of `uploadFileMultipart` describes the case without one.
- The stream mode and the buffered routine answer alike only for a form described by `SameForm`
  (`UploadProperties.LegacyAgreesIff`).
- `disableUserBots` is entered again for every bot it disables, because `UpdateActive` disables the bots of the user it
  deactivates. It never returns when a bot it comes to is met again below itself, or an owner it comes to has a full
  page of 20 bots that cannot be updated; otherwise it returns (`BotDraining.DrainsIff`). A user converted to a bot owns
  itself, so with the setting DisableBotsWhenOwnerIsDeactivated it cannot be disabled
  (`BotDraining.SelfOwnedNeverEnds`). The loop's `options.Page += 1` has no effect because the options are rebuilt in
  every round, and an empty user ID lists the bots of every owner (`BotDraining.OtherOwnersSafeIff`).
- `getOrCreateBot` reads the ID of the bot that failed to save, which is nil: it crashes, and the user it leaves behind
  blocks that bot from then on (`BotStores.GetOrCreateCrash`).
- A lockout can be undone by an attempt that had read the user before (`Login.LockedForGoodIff`), and failed logins
  are all counted only if each finds the count that it had read (`Login.CountsAllIff`); any number of them that read the
  same count are counted once (`Login.OverlappingCountOnce`).
- A check by post falls back on the system roles when the channel is gone (`Permissions.ByPostAgreesIff`); a check by
  user does not do so outside a team (`Permissions.ChannelChecksAgreeIff`).
- East of UTC a receiver can reply twice on one UTC day (`AutoResponder.OncePerDayIff`).
- A member cursor is also that of another member exactly when one of its IDs has a dash
  (`Cursors.MemberCursorUniqueIff`).
- A busy message handled late is dropped; when it is the last one, the replica still agrees unless an earlier message
  makes it busy beyond the present (`BusyReplication.LateLastAgreesIff`).

## Model

| member | source | states |
|---|---|---|
| BusyNode.ApplyKeepsConsistent | app/busy.go:24-98 | after every critical section the flag is set iff a timer is installed iff the expiry is not zero, the installed timer is armed or fired for exactly that expiry, no other timer is armed, and the last value stored in the flag is the flag |
| BusyNode.FlagGlitchIff | app/busy.go:40-75 | between two busy states a lock-free reader can see "not busy" exactly when the action installs another timer |
| BusyNode.RunConsistent | app/busy.go:48-138 | the invariant holds in every state of every run of Set, Clear, cluster events, timers firing and callbacks |
| BusyNode.NeverStuckBusy | app/busy.go:66-75 | in every reachable state a set flag is backed by a timer armed for its expiry or fired and waiting, and once due the runtime's own steps clear it |
| BusyNode.PendingHasFired | app/busy.go:66-98 | a waiting callback belongs to a timer that fired earlier in the run, when it was installed and due |
| BusyNode.ClearsAccountedFor | app/busy.go:66-98 | every clearing of the flag is a Clear, a cluster clear, the installed timer's expiry, or a callback whose timer fired before it was replaced |
| BusyNode.SetLastsIff | app/busy.go:66-98 | left alone, a Set keeps the node busy at every instant before its expiry iff no callback was waiting when it was made |
| BusyNode.ExpiryOfSet | app/busy.go:48-75 | a Set of any duration makes the node busy until the end of that duration or of one second, whichever is longer, with a timer armed for that instant |
| BusyNode.SetLastsFor | app/busy.go:48-75 | left alone, with no callback waiting, the node is busy at every instant of the duration and of the first second, and after both only while a due timer has not run |
| BusyNode.ExpiryOfMessage | app/busy.go:125-138 | a busy message makes the node busy until the instant it names, cut down only to what a duration can hold, unless that has passed; a clear makes it idle |
| BusyNode.OneSecondIsTheLeastFloor | app/busy.go:52-61 | one second is the least floor on the duration with which the truncated expiry is always still ahead when sent |
| BusyNode.PromptReceiverActivates | app/busy.go:48-63 | a receiver handling the message at once becomes busy, with expiry in (E - 1s, E] |
| BusyNode.Busy.constructor | app/busy.go:35-37 | a new flag is idle and consistent |
| BusyNode.Busy.IsBusy | app/busy.go:40-45 | reads the flag without the mutex, in any state |
| BusyNode.Busy.Set | app/busy.go:48-63 | the new state with its expiry, the message it sends if there is a cluster, and the stores to the flag |
| BusyNode.Busy.SetWithoutNotify | app/busy.go:66-75 | clears, sets the flag, the expiry and a fresh timer |
| BusyNode.Busy.Clear | app/busy.go:78-88 | the cleared node and the message it sends |
| BusyNode.Busy.ClearWithoutNotify | app/busy.go:91-98 | stops the installed timer, which has no effect on one that has fired, and resets all fields |
| BusyNode.Busy.ClusterEventChanged | app/busy.go:125-138 | sets for what is left of the received expiry, ignores one that has passed, clears on a clear, sends nothing |
| BusyNode.Busy.RunCallback | app/busy.go:70-74 | the timer's callback clears whatever is installed when it gets the mutex |
| BusyCluster.ExpiriesBounded | app/busy.go:110-138 | in any run over a bus that delays, reorders, duplicates and loses messages, no node's expiry and no message exceeds the largest expiry any Set issued |
| BusyCluster.OnlyCallersSend | app/busy.go:48-88 | a Set sends its expiry in whole seconds and a Clear the zero time; handling a message and running a callback send nothing; no other node changes |
| BusyCluster.IdleForever | app/busy.go:66-138 | once the clock has passed every issued expiry and the callbacks have run, no node is busy at any later point of the run, whatever is delivered |
| BusyCluster.CanGoIdle | app/busy.go:66-75 | from any reachable state past every issued expiry the timers alone reach an idle cluster |
| BusyReplication.LogIsWhatTheWriterSends | app/busy.go:59-62 | the announcements of the model are the messages the writer sends |
| BusyReplication.RunKeepsInv | app/busy.go:48-138 | in every single-writer run each replica reflects the last message it handled in time, up to truncation and expiry, and all messages it was handed since were late |
| BusyReplication.ReplicasAgree | app/busy.go:48-138 | with nothing outstanding, the last message handled in time and due timers run, a replica is busy exactly while the writer is and the truncated expiry lies ahead; they differ only in the last second before the expiry |
| BusyReplication.LateLastAgreesIff | app/busy.go:125-138 | when the last message was late, the writer is idle or in its last second, and the replica agrees iff the last message it handled in time does not keep it busy |
| BusyReplication.LateMessageIsLost | app/busy.go:129-135 | after a busy message the replica is busy until the truncated expiry iff the message is handled before that, or the replica was busy until just then already |
| UploadProperties.LoopTracks | api4/file.go:230-363 | at its end or first error the stream loop has uploaded exactly the files read so far, in order, each with its client ID, to one permitted channel |
| UploadProperties.ClientIdPairing | api4/file.go:319-372 | a successful stream pass returned no client ID, or one per file with file i uploaded under the i-th ID received, for every interleaving |
| UploadProperties.AcceptedForm | api4/file.go:233-290 | a successful stream pass has read a complete body in which every form value is known and readable and every channel ID is the one uploaded to, or empty if there was none before |
| UploadProperties.FirstPassUploadsNothing | api4/file.go:213-308 | without a channel ID in the URL the pass before restart or fallback uploads nothing and remembers the channel ID it met |
| UploadProperties.RestartSafety | api4/file.go:204-375 | over the whole request the file parts taken are uploaded at most once each, in order, and all on success |
| UploadProperties.UploadsArePermitted | api4/file.go:310-317 | every upload of a request goes to one valid channel in which the session may upload, however the request ends |
| UploadProperties.UrlFirstPass | api4/file.go:213-308 | with a channel ID in the URL the first pass never falls back, and restarts iff it gets through the parts in front of the first channel_id value and reads the ID of the URL there |
| UploadProperties.UrlChannelUploads | api4/file.go:204-375 | with a channel ID in the URL, however the request ends, it uploads the files in front of the first channel_id value in order, then after a restart all files in order from the start, each time as far as it gets |
| UploadProperties.UrlChannelOnceIff | api4/file.go:204-375 | a successful request with a channel ID in the URL uploads every file once iff no file comes in front of the first channel_id value, and otherwise those files twice |
| UploadProperties.UrlChannelTwiceIff | api4/file.go:262-308 | however the request ends, a file is uploaded twice iff a file comes in front of the first channel_id value, the request restarts there and the store takes the first file again |
| UploadProperties.UrlChannelUploadsTwice | api4/file.go:262-308 | the smallest such form: a file and then the channel ID of the URL |
| UploadProperties.LegacyUploadsInOrder | api4/file.go:424-464 | the buffered routine uploads its files in order, a prefix of them on error |
| UploadProperties.LegacyAgreesIff | api4/file.go:204-467 | a successful stream pass over at least one file equals the buffered routine's response, uploads and channel iff all files are named "files", no client ID is empty or too long, the first channel ID is not empty, and the values fit the form reader |
| UploadProperties.RequestAgreesIff | api4/file.go:274-278 | the same for a whole request that was restarted in stream mode |
| UploadAcceptance.StreamAcceptsIff | api4/file.go:230-375 | a stream pass succeeds iff the body is complete, every value is known and readable, the channel IDs fit, when a file comes the channel is known, valid and permitted, there is no client ID or one for each file and none after its file, and the store takes each upload in turn; then every file is uploaded in order under its client ID |
| UploadAcceptance.StreamFailsAt | api4/file.go:230-371 | otherwise it uploads the files in front of the first part that does not fit and answers that part's error, or, if all fit, the error for the end of the body or the number of client IDs |
| UploadAcceptance.LegacyAcceptsIff | api4/file.go:380-467 | the buffered routine succeeds iff the whole body can be read within its limit, the first channel ID is valid and permitted, there is no client ID or one for each file named "files", and the store takes each upload in turn |
| UploadAcceptance.LegacyReasons | api4/file.go:384-464 | which error it answers otherwise, and that only a refusing store comes after an upload |
| UploadAcceptance.ValueBytesAdd | api4/file.go:384-391 | the bytes that count against the limit are those of all form values |
| UploadAcceptance.RequestAcceptsIff | api4/file.go:204-375 | without a channel ID in the URL the request succeeds iff, when a file comes before any channel ID, the values in front of it are known and the buffered routine accepts, and otherwise a stream pass accepts |
| UploadAcceptance.UrlRequestAcceptsIff | api4/file.go:204-375 | with a channel ID in the URL it succeeds iff a stream pass accepts, after a first pass over the parts in front of the form's channel ID if it has one |
| UploadHandlers.PartReader.Fill | api4/file.go:216-222 | however far the reader reads ahead, tee buffer plus unread body is the original body |
| UploadHandlers.PartReader.NextPart | api4/file.go:233-242 | returns the parts of buffer and body in order |
| UploadHandlers.Context.ReadValue | api4/file.go:250-290 | the treatment of a form value |
| UploadHandlers.Context.UploadPart | api4/file.go:310-362 | the treatment of a file part |
| UploadHandlers.Context.UploadFileMultipart | api4/file.go:204-375 | result, channel and uploads are those of the parts of the whole original body, also after a restart; it is entered at most twice |
| UploadHandlers.Context.UploadAll | api4/file.go:424-466 | the loop over the file headers |
| UploadHandlers.Context.UploadFileMultipartLegacy | api4/file.go:380-467 | the buffered routine |
| LogPaging.FlattenChunks | app/admin.go:97-127 | the chunks laid end to end are the text |
| LogPaging.ChunksAreNewlineLed | app/admin.go:108-122 | every chunk but the first starts with a newline and holds no other |
| LogPaging.PagesRebuildFile | app/admin.go:80-131 | the pages before an empty one laid end to end, oldest first, with the newline the file ends with, if any, are the file |
| LogPaging.PagesAreFull | app/admin.go:108-126 | an answer has at most perPage lines, and fewer only if all later pages are empty |
| LogPaging.TrailingNewlineIsSkipped | app/admin.go:84-93 | a file that ends with a newline has the lines of what is in front of it, and is an error if that is nothing |
| LogPaging.Scan | app/admin.go:93-127 | the backward byte loop terminates, fails iff there is nothing in front of the trailing newline, and collects the requested chunks of the forward split, last first |
| LogPaging.ReverseInPlace | app/admin.go:129-131 | the swap loop reverses the lines |
| LogPaging.GetLogsSkipSend | app/admin.go:67-137 | page p is the slice of chunks from max(0, n-(p+1)*perPage) to max(0, n-p*perPage) in file order, with the answers for page sizes of zero and below and the error cases |
| BotStores.EveryBotHasItsUser | app/bot.go:20-60 | through any sequence of create, get-or-create, convert and permanent delete, with any store call failing, every bot row has its user row and usernames stay unique |
| BotStores.CreateBotIsCompensated | app/bot.go:26-60 | no earlier row is touched, so the compensating delete removes only the user just saved, which has no bot; a user is left behind iff saving the bot and that delete both fail |
| BotStores.GetOrCreateCrash | app/bot.go:153-198 | it crashes iff a new user was saved and the bot was not, and then neither getting nor creating that bot succeeds again |
| BotStores.SavedIsTheBot | app/bot.go:153-211 | an ID answered by creating or getting is that of a live bot of the name, and asking again gives the same bot and changes nothing |
| BotStores.CreateBotIff | app/bot.go:20-60 | creating a bot succeeds iff the definition is valid, neither ID nor name is taken and no call fails; both rows are then as defined, also if only the notice fails |
| BotStores.GetOrCreateIff | app/bot.go:153-211 | for a taken name nothing changes and it succeeds iff that user's bot is there, live and readable; otherwise iff both rows can be saved |
| BotStores.ConvertIff | app/bot.go:560-572 | converting succeeds iff the bot can be saved, as a live bot owned by itself |
| BotStores.DeleteIff | app/bot.go:364-380 | a permanent delete succeeds iff neither delete fails, removes the bot's row first, and keeps every other row |
| BotStores.DeleteCanBeRepeated | app/bot.go:364-380 | repeating a permanent delete that broke off completes it, and no other ID is touched |
| BotStores.ConvertNeedsUser | app/bot.go:560-572 | converting keeps the integrity iff the user row exists or the save fails |
| BotStores.App.CreateBot | app/bot.go:20-93 | both stores and the answer, for every combination of failing calls |
| BotStores.App.GetOrCreateBot | app/bot.go:153-211 | both stores and the answer, for every combination of failing calls |
| BotStores.App.ConvertUserToBot | app/bot.go:560-572 | both stores and the answer |
| BotStores.App.PermanentDeleteBot | app/bot.go:364-380 | both stores and the answer |
| BotDraining.DrainsIff | app/bot.go:415-446 | disableUserBots returns iff along every chain of listings and cascades from the owner no ID comes twice and the last one has fewer than a page of bots that cannot be updated, for any number of bots |
| BotDraining.UnsoundNeverEnds | app/user.go:849-869 | on a cycle of owners, or above a full page of failing bots, no number of nested rounds is enough |
| BotDraining.SelfOwnedNeverEnds | app/user.go:862-866 | neither disabling a bot that owns itself nor disabling its bots ever returns |
| BotDraining.SoundEnds | app/bot.go:415-446 | otherwise some number of nested rounds is enough |
| BotDraining.OtherOwnersSafeIff | app/bot.go:418-424 | only bots of the given owner are listed iff the user ID is not empty |
| BotCascade.SoundWithoutCascade | app/user.go:862-866 | with the setting off the loop returns iff the owner has fewer than a page of failing bots |
| BotCascade.SoundWithoutFaults | app/bot.go:415-446 | without failures it returns iff no chain has a cycle |
| BotCascade.TouchesExactlyReached | app/bot.go:415-446 | the bots disabled are exactly those reached from the owner through listings and cascades whose update does not fail, the users deactivated those whose update gets that far; every other row is as it was |
| BotCascade.NoneLeftBehind | app/bot.go:417-436 | said of the rows alone: afterwards no bot of the owner, and with the setting on none of a bot that has been disabled, is active or has an active user unless its update fails |
| BotCascade.OnlyOwnedAreDisabled | app/bot.go:417-436 | only bots of the owner, or of a bot whose user has been deactivated, are disabled |
| BotCascade.LeavesStuck | app/bot.go:415-446 | afterwards the active bots of the owner are those whose update fails, so none if nothing fails |
| BotCascade.NothingLeft | app/bot.go:415-446 | disabling the same owner's bots again at any later time returns and changes nothing |
| BotCascade.UpdateEndsIff | app/bot.go:308-361 | updating one bot returns iff its user is not deactivated, or the setting is off, or disabling its own bots returns |
| BotCascade.UpdateKeepsInStep | app/bot.go:308-361 | an update succeeds iff no store call on its way fails, and then user and bot are in step, with the bot's owner kept; a failed one leaves the bot's row alone; of the other rows it changes those that disabling the bot's own bots changes |
| BotHandlers.App.UpdateBotActive | app/bot.go:308-361 | all rows and the answer, for a fault at any store call |
| BotHandlers.App.UpdateActive | app/user.go:894-932 | the user's row, the rows changed by the cascade, and the answer |
| BotHandlers.App.UserDeactivated | app/user.go:849-869 | the cascade if the setting is on, with its own error dropped |
| BotHandlers.App.DisableUserBots | app/bot.go:415-446 | returns, with all rows as the nested loops leave them; it fails iff the listing fails |
| Login.LoginSucceedsIff | app/authentication.go:66-112 | a login succeeds iff the user is live, no bot and below the maximum, password and second factor are right, the store answers, and the address is verified if required |
| Login.LoginCounts | app/authentication.go:71-100 | the count is raised iff the password or a second factor that is not empty is wrong, set to zero iff both are right, and otherwise not written; an empty second factor writes nothing |
| Login.LoginReasons | app/authentication.go:66-112 | which error is answered, for every user, configuration and attempt |
| Login.DoubleCheckIff | app/authentication.go:115-143 | the same for the check of a user who is logged in: only the maximum, the password and the store matter |
| Login.CountNeverExceedsMaximum | app/authentication.go:66-143 | under any interleaving of attempts with stale snapshots the stored count stays between zero and the maximum |
| Login.LockedForGoodIff | app/authentication.go:226-232 | at the maximum every later attempt by either entry point fails and changes nothing iff no attempt under way had read the user below the maximum |
| Login.CountsAllIff | app/authentication.go:66-143 | under any interleaving the count is at every step that of the counted failures answered since the last reset iff each of them found the count that its attempt had read |
| Login.OverlappingCountOnce | app/authentication.go:71-74 | in any run whose ended attempts are counted failures that read the same count, they are counted once |
| Login.CountIsFailuresSinceReset | app/authentication.go:66-143 | in sequential runs the count is the number of wrong passwords and wrong non-empty MFA tokens answered since the last reset |
| Login.FailuresBounded | app/authentication.go:181-195 | so no more than the maximum are counted between resets, and at the maximum every attempt is refused and leaves the count |
| Login.App.CheckPasswordAndAllCriteria | app/authentication.go:66-112 | error and stored count, for every answer of the checks and the store |
| Login.App.DoubleCheckPassword | app/authentication.go:115-143 | error and stored count, for every answer of the checks and the store |
| Permissions.RolesGrantPermissionIff | app/authorization.go:243-266 | granted iff the roles can be read and some named live role lists the permission |
| Permissions.SessionChannelIff | app/authorization.go:60-91 | granted iff a live role lists the permission that is among the user's roles in the channel, the session's in the channel's team, or its system roles, or the session is local; for every failing read |
| Permissions.SessionPostIff | app/authorization.go:112-127 | the same by post, for which the system roles always count |
| Permissions.UserChannelIff | app/authorization.go:195-215 | granted to a user iff a live role lists it that is among the roles in the channel, in a live membership of its team, or, for a channel that is in a team or does not exist, the system roles |
| Permissions.ByPostAgreesIff | app/authorization.go:60-127 | the check by post equals the check of the post's channel iff the channel exists or the system roles do not grant |
| Permissions.TeamChecksAgree | app/authorization.go:42-58 | for a team, the check of a user equals the check of the session loaded for that user |
| Permissions.ChannelChecksAgreeIff | app/authorization.go:60-215 | for an existing channel the user-based check implies the session-based one; over all channel IDs they are equal exactly under the stated condition |
| Permissions.FaultsWidenIff | app/authorization.go:60-91 | a failing read widens a session's rights iff the channel does not exist, its absence could not be read, and the system roles grant |
| ChannelStream.ArrayIsWellFormed | api4/channel.go:943-983 | reading the written tokens by the grammar of RFC 8259 gives back exactly the channels, in order |
| ChannelStream.CutShortIsMalformed | api4/channel.go:941-955 | an answer that stops at an error is not an array |
| ChannelStream.NextPage | api4/channel.go:945-955 | the page after the last ID of the previous one holds the following channels, and is reported as not found at the end |
| ChannelStream.WriteBatch | api4/channel.go:963-975 | one page extends the joined list, with no comma missing or left over |
| ChannelStream.StreamChannelsForUser | api4/channel.go:913-984 | terminates; it writes one array of every channel once in ID order iff there are channels and none of the pages that have to be read fails; otherwise the error is that of the first page that fails, in front of which all pages are written |
| Base64.DecodeEncode | api4/resolver_channel.go:34-40 | decoding gives back every byte sequence |
| Base64.QuantumIs | api4/resolver_channel.go:34-36 | four characters stand for the 24 bits of three bytes, padded at the end |
| Base64.NewlinesAreSkipped | api4/resolver_channel.go:38-43 | decoding skips carriage returns and line feeds |
| Base64.OtherCharactersAreRefused | api4/resolver_channel.go:38-43 | and otherwise accepts only whole quanta of the alphabet, padded at most at the end |
| Cursors.ParseChannelIff | api4/resolver_channel.go:38-54 | the parser accepts exactly the encodings of prefix, dash and an ID without dash |
| Cursors.ParseChannelMemberIff | api4/resolver_channel_member.go:97-113 | the parser accepts exactly the encodings of prefix and two IDs without dash |
| Cursors.ChannelRoundTripIff | api4/resolver_channel.go:32-54 | a printed cursor parses back to its ID iff the ID has no dash |
| Cursors.ChannelMemberRoundTripIff | api4/resolver_channel_member.go:76-113 | a printed cursor parses back to its IDs iff neither has a dash |
| Cursors.ChannelPrintingIsInjective | api4/resolver_channel.go:32-36 | different IDs print differently |
| Cursors.MemberPrintingIsInjective | api4/resolver_channel_member.go:76-80 | different pairs print differently when the channel IDs have no dash |
| Cursors.DashesCollide | api4/resolver_channel_member.go:76-80 | pairs that differ in which dash separates the IDs print alike |
| Cursors.MemberCursorUniqueIff | api4/resolver_channel_member.go:76-80 | a pair prints like no other pair iff neither ID has a dash |
| Cursors.KindsAreDisjoint | api4/resolver.go:26-27 | no string is accepted by both parsers, and neither accepts the other kind's cursor |
| AutoResponder.ReplySeen | app/auto_responder.go:15-22 | a reply of the UTC day of the new reply is found by the check, even if the trigger is of the day before |
| AutoResponder.RepliesIff | app/auto_responder.go:24-85 | a reply is appended iff the channel is direct, the sender is no bot, the responder is active with a message, and the receiver has no reply in the channel updated since midnight UTC of the server's day; it is a reply of the receiver in the trigger's thread |
| AutoResponder.ReceiverIsTheOther | app/auto_responder.go:33-37 | the other one of a direct channel replies, oneself in a channel with oneself |
| AutoResponder.WithheldIff | app/auto_responder.go:44-52 | on a UTC server a reply to an eligible message is withheld iff the receiver has one written or touched on the message's day or later, and otherwise there is one afterwards |
| AutoResponder.OncePerDayIff | app/auto_responder.go:15-85 | no channel holds two replies of one receiver on one UTC day, in every sequential run, iff the server's calendar is never ahead of UTC |
| AutoResponder.App.CheckIfRespondedToday | app/auto_responder.go:15-22 | whether a reply of the user was updated since midnight UTC of the server's calendar day |
| AutoResponder.App.SendAutoResponse | app/auto_responder.go:55-85 | appends the receiver's reply to the thread of the trigger if the responder is active and has a message |
| AutoResponder.App.SendAutoResponseIfNecessary | app/auto_responder.go:24-53 | appends one reply or nothing |

## Left out

- Clock drift within one critical section and clocks that differ between nodes: each critical section reads one clock.
- `Busy` on a nil receiver, `Expires` and `ToJSON`: reads without effect.
- ReplicasAgree: assumes that no timer is replaced after it has fired; what happens otherwise is BusyNode.SetLastsIff.
- The byte level of multipart bodies: a body is its list of parts, the last of which may be cut off, and the reader may
  read ahead any number of parts.
- `multipart.Reader.ReadForm` is not part of this model beyond its results: it fails on a broken body and when the form
  values exceed the file size limit plus 10 MB; temporary files and their errors are left out.
- The contents of stored files: `App.UploadFileX` is an arbitrary answer that may depend on all earlier uploads.
- ValidId: letters and digits are the ASCII ones.
- Read errors in the middle of a log file; a log that cannot be opened is modelled.
- `uploadFileSimple`, audit records, HTTP status codes and translated messages.
- BotHandlers.App.DisableUserBots: requires the condition of DrainsIff, without which the source does not return.
- BotHandlers.App.UpdateBotActive: requires the condition of UpdateEndsIff, for the same reason.
- BotHandlers.App.UpdateActive: is for a user that has been read, so not for one whose reading fails.
- BotDraining.DrainsIff: a failing update of a bot or listing of an owner fails for as long as the loop runs; with
  failures that go away the loop may return where the model's does not.
- The messages to system administrators about a deactivated owner, status changes, and cache invalidation.
- ChannelStream: the user's channels stay the same between the pages of one answer.
- Store calls that fail after taking effect: a failed call leaves its store unchanged.
- Concurrent runs of the bot operations and of the auto-responder: their runs are sequential.
- Validation of MFA tokens, password hashing, LDAP, SAML: the answers of the checks are inputs.
- Splitting role strings at spaces and merging scheme permissions: role names are lists and a role lists what it grants.
- The JSON text of a channel and failures to write it: an encoded channel is one token.
- The sorting of display names in `api4/resolver_channel.go`: it would only add an easy member.
