# A verified model of the VCS SRS server

A Dafny 4.11 model of the voice-over-radio server written in Go. `dafny verify dfyconfig.toml`
checks all of it. Classes stand for the structs that the server updates in place; their methods
are proved against functions on values, and what the server promises is proved about those
functions, for every input, every run or every interleaving.

| modules | what they model |
|---|---|
| `Protocol` | the 27-byte UDP header: parsing, serialising, flags |
| `Float32`, `Frequency` | division of an integer kHz value by 1000 in binary32 (IEEE 754-2019, round to nearest, ties to even), and what matching by `float32` equality decides |
| `Registry`, `Settings`, `Slices`, `BanList`, `Admin` | the shared maps of clients and radios, listening, kicking, banning, muting |
| `Auth`, `RadioService` | the login handlers and the handlers of a logged-in client |
| `ControlRuns`, `LoginRuns` | all runs of those handlers, each handler atomic |
| `LoginChecks` | what each login handler demands and leaves behind, spelled out |
| `ControlPlane`, `Deployment` | the handlers put together on shared objects: each request, datagram and tick is a step of the runs |
| `Interleaving` | the same handlers cut at their locks and interleaved freely, with client records as heap objects |
| `InterleavedLogins`, `InterleavedRoles`, `InterleavedRadios` | when, over all interleavings, an entry admits twice, a role rises, a radio entry has no client |
| `VoiceServer`, `VoiceRuns` | the session table, the relay, and all runs in which control handlers, voice packets and eviction ticks alternate |
| `Audio`, `PcmStream` | local playback of test frequencies: downmix, sizes, the sliding window over a pipe |
| `EventBus`, `EventRuns` | the event queue with its bounded channels, and all interleavings of its lock-delimited steps |
| `Basics`, `Histories` | shared types; "since" and "last" over a history |

A run is a sequence of steps of any length and any kind. `ControlRuns.Apply`, `VoiceRuns.Apply`,
`Interleaving.Do` and `EventRuns.Apply` give the effect of a step; the handlers' `ensures` clauses
equate the new state of the objects with the same functions (`Auth.InitStep`, `VoiceServer.TableStep`,
`RadioService.UpdatedInfo` and so on). `ControlPlane.Server.Handle` and `Deployment.Node` prove that the
methods on the shared objects take exactly these steps, and the `Uninterrupted` lemmas of `Interleaving`
that its smaller steps make up the same handlers. What the functions mean is stated apart from them,
with the constants written out: `Protocol.WireLayout`, `Frequency.MegahertzIsNearest`,
`VoiceRuns.PacketEffect`, `LoginChecks.SelectsIff`, `RadioService.StaleIff` and their neighbours.

## What the code does that one might not expect

Each of these is kept in the model, and the exact condition is proved.

- The listening test looks the receiver up under the sender's id (`state/server.go:183`), so the
  coalition comparison compares the sender with itself and rejects nobody: `IsListeningOnFrequency`
  ignores coalitions.
- Matching by `float32` is matching by kHz exactly up to 16,384,001 kHz; 16,384,001 and 16,384,002
  are the first two that become equal (`Frequency.DistinctExactlyUpTo`). The documented range ends
  at 999,999, the wire format at 16,777,215.
- A radio that is switched off masks a later one on the same frequency that is switched on: listening
  and the list of enabled frequencies agree exactly when no radio masks another
  (`Registry.HeardIffListedIff`).
- `utils.Remove` empties a one-element slice even if it holds something else (`Slices.RemovesOneIff`).
  Unbanning never meets the case (`BanList.UnbanRemovesFirst`); `services/coalitions.go:60` can.
- Kicking and banning leave the radio entry behind, and synchronisation then dereferences a missing
  client until that client logs in again or is cleared (`ControlRuns.SyncSafeIff`, `ControlRuns.KickBreaksSync`).
- A login leaves `LastUpdate` at the zero time, so the next cleanup pass clears a client with an
  update stream that has not sent its own information since it was admitted, unless the limit is the
  longest duration there is (`RadioService.FreshLoginIsStale`, `ControlRuns.SurvivesCleanupIff`).
- `UnitSelect` does not sweep expired entries. It accepts a login of any age (`LoginRuns.SelectAtAnyAge`),
  exactly as long as no request that sweeps has come after the entry's expiry (`LoginRuns.SelectAdmittedIff`).
- With atomic handlers an entry is used once. With interleaved ones it admits again exactly when the
  selections overlap or a selection or login straddles the removal of the entry
  (`InterleavedLogins.SelectedAgainIff`); both happen (`InterleavedLogins.SelectTwice`,
  `InterleavedLogins.RestoredAndSelected`).
- With atomic updates a role never rises. With interleaved ones a write raises it exactly when the
  last write before it came from another update between its own check and write, and wrote less
  (`InterleavedRoles.RaisesIff`); this happens (`InterleavedRoles.LoweredRoleMayRise`). The bound by
  granted roles (`Interleaving.RoleBound`) and the difference between guests and others
  (`InterleavedRoles.GuestStays`) survive every interleaving.
- `UpdateRadioInfo` checks and then stores, so a client that disconnects in between leaves a radio
  entry without any kick (`InterleavedRadios.RestoresIff`, `InterleavedRadios.OrphanedWithoutKick`).
- The intercom flag of a radio is dropped on its way in and on its way out
  (`RadioService.RadiosRoundTripIff`).
- An event published under the name "*" reaches a "*" subscriber twice (`EventRuns.WantedOnceIff`).
- The stereo path reads inside the decoded frame exactly for rates below 144,050 Hz
  (`Audio.StereoFitsIff`).

## Model

| member | source | states |
|---|---|---|
| `Protocol.AcceptedIff` | voice/protocol.go:139-158 | a datagram is accepted iff it has 27 bytes, the magic, and version 1 in the high nibble |
| `Protocol.RefusedBecause` | voice/protocol.go:139-158 | a refused datagram is refused for the first of length, magic and version that is wrong, and the error names what was found |
| `Protocol.WireLayout` | voice/protocol.go:139-184 | where an accepted datagram holds each field, bit by bit, the most significant byte first |
| `Protocol.AcknowledgementBytes` | voice/protocol.go:61-98 | the two acknowledgements, byte for byte |
| `Protocol.EncodeInvertsDecode` | voice/protocol.go:139-219 | serialising an accepted datagram's packet gives the datagram back, whatever its length |
| `Protocol.DecodeInvertsEncode` | voice/protocol.go:139-219 | parsing a serialised packet gives the packet back iff magic, version, a type below 16 and a sequence and frequency below 2^24 hold |
| `Protocol.VoiceSurvivesIff` | voice/protocol.go:74-85 | a voice packet as the constructor makes it survives the wire iff its sequence and frequency fit in 24 bits |
| `Protocol.DecodeInjective` | voice/protocol.go:139-184 | no two accepted datagrams parse to the same packet |
| `Protocol.ParsePacket` | voice/protocol.go:139-184 | the parser fills a packet with the value the wire format defines, or names the first check that failed |
| `Protocol.VCSPacket.SerializePacket` | voice/protocol.go:187-219 | the buffer filled byte by byte is the encoding of the packet |
| `Protocol.VCSPacket.SetPTT` | voice/protocol.go:101-112 | sets exactly the PTT bit and leaves the other seven |
| `Protocol.VCSPacket.SetIntercom` | voice/protocol.go:115-126 | sets exactly the intercom bit and leaves the other seven |
| `Protocol.FrequencyIsNearest` | voice/protocol.go:227-229 | a packet is matched by the float nearest to its kHz value divided by 1000, the even one in a tie |
| `Float32.RoundIsNearest` | voice/protocol.go:227-229 | the rounding used is to nearest, ties to even: no representable value is nearer, and a tie leaves an even significand |
| `Float32.RoundExact` | voice/protocol.go:227-229 | a representable value rounds to itself |
| `Float32.EqIffSameNumber` | state/server.go:188 | on finite values == holds iff the numbers are the same |
| `Frequency.FromUintExact` | voice/protocol.go:228 | the conversion of a kHz value to float32 is exact on the range used |
| `Frequency.MegahertzIsNearest` | voice/protocol.go:227-229 | for every 24-bit kHz value, the conversion and the division together give the float nearest to kHz/1000, the even one in a tie |
| `Frequency.WholeMegahertz` | voice/protocol.go:227-229 | whole megahertz come out exactly |
| `Frequency.StrictlyIncreasing` | voice/protocol.go:227-229 | kHz/1000 in float32 is strictly increasing up to 16,384,001 kHz |
| `Frequency.MatchIsKilohertzEquality` | voice/protocol.go:227-229 | float equality of two converted frequencies is equality of their kHz values on that range |
| `Frequency.FirstCollision` | voice/protocol.go:227-229 | 16,384,001 and 16,384,002 kHz become the same float |
| `Frequency.DistinctExactlyUpTo` | voice/protocol.go:227-229 | floats tell all kHz values up to a bound apart iff the bound is at most 16,384,001 |
| `Audio.OrIsSum` | voice/server.go:489-490 | the shifted or of two bytes is the 16-bit word low + 256 high |
| `Audio.HalfBetween` | voice/server.go:491 | the mean truncated toward zero lies between its operands and keeps equal ones |
| `Audio.DownmixStereo` | voice/server.go:484-497 | sample i of the output, read back as little-endian two's complement, is the truncated mean of the two channels |
| `Audio.MixedBetween` | voice/server.go:484-497 | each output sample lies between left and right and equals them when they are equal |
| `Audio.MixedUnique` | voice/server.go:484-497 | the downmix has only one possible output |
| `Audio.MixedBytes` | voice/server.go:486-495 | four bytes holding left and right, low byte first, become the two bytes of their mean truncated toward zero |
| `Audio.EqualChannelsPass` | voice/server.go:486-495 | equal channels pass through byte for byte |
| `Audio.PlaybackSize` | voice/server.go:447-464 | the sizes of a 20 ms frame, never more than the buffer, never zero |
| `Audio.SizeInNumbers` | voice/server.go:447-464 | 20 ms of samples, 960 where the rate gives none; mono is clamped to 11520 bytes from 288,050 Hz on, stereo from 144,050 Hz on |
| `Audio.StereoFitsIff` | voice/server.go:451-472 | the stereo path is not clamped and its indices stay in the frame iff the rate is below 144,050 Hz |
| `PcmStream.PipeReader.Read` | voice/server.go:525 | a read delivers the oldest write, or as much of it as there is room for, or an error and nothing |
| `PcmStream.PCMStream.Refill` | voice/server.go:515-533 | moving the tail and reading more loses and repeats no byte |
| `PcmStream.PCMStream.DecodeWindow` | voice/server.go:535-540 | the loop turns the window into whole frames, in order, up to the room asked for |
| `PcmStream.PCMStream.Stream` | voice/server.go:512-542 | the frames emitted followed by the rest are exactly the bytes before; the result and the error say whether the pipe had ended |
| `PcmStream.EmitsIsPrefix` | voice/server.go:535-540 | frames emitted so far and the batch form of the rest make the batch form of the whole |
| `PcmStream.FrameAt` | voice/server.go:535-540 | frame i of the batch form is decoded from bytes i·width to (i+1)·width |
| `PcmStream.FrameCount` | voice/server.go:535-540 | the batch form leaves out less than one frame |
| `PcmStream.Play` | voice/server.go:413 | successive calls of Stream with any sizes return the stream cut into frames, and all of it once the end was reported |
| `PcmStream.PlaybackIsBatch` | voice/server.go:512-542 | whatever the chunking and the sizes asked for, successive calls play the stream cut into frames; after the end has been reported, all of it |
| `Slices.IndexOf` | utils/slice.go:3-10 | finds the first position of the element, or -1 |
| `Slices.Remove` | utils/slice.go:12-22 | overwrites the first match in the caller's slice with the last element and shortens it; at most one element gives a new, empty slice and leaves the caller's as it is |
| `Slices.RemovesOneIff` | utils/slice.go:12-22 | exactly one occurrence goes and all else stays iff the slice is not a single different element |
| `Slices.RemovedKeepsOthers` | utils/slice.go:20-21 | every other position keeps its element |
| `BanList.BannedState.Unban` | app/clients.go:91-98 | the search loop and the removal yield the list without the first entry with that id, and success iff there was one |
| `BanList.UnbanRemovesFirst` | app/clients.go:88-103 | unbanning removes exactly the first entry with the id and keeps all others, for every list length |
| `BanList.BannedState.Append` | app/clients.go:63-68 | appending adds one entry at the end, growing the slice if need be |
| `Registry.EnabledIff` | state/server.go:163-176 | the enabled frequencies are those of the radios switched on |
| `Registry.EnabledInOrder` | state/server.go:167-173 | the enabled frequencies come in the order of the radios, once for each radio that is on |
| `Registry.HeardIsListed` | state/server.go:163-196 | a frequency that is heard is among the enabled ones |
| `Registry.HeardIffListedIff` | state/server.go:163-196 | hearing and listing agree on all frequencies iff no switched-off radio comes first on the frequency of a later one that is on |
| `Registry.DistinctNeverMask` | state/server.go:163-196 | they agree for radios on distinct frequencies |
| `Registry.HearsByKilohertz` | state/server.go:187-191 | for radios and packets tuned in kHz, hearing by float32 is hearing by integer kHz |
| `Registry.ServerState.AddClient` | state/server.go:112-123 | both maps get an entry, the radio list empty and unmuted, and nothing else changes, whatever record is passed |
| `Registry.ServerState.GetAllClients` | state/server.go:125-142 | every client once, with its own record |
| `Registry.ServerState.GetAllEnabledFrequencies` | state/server.go:163-176 | the loop collects the frequencies of the enabled radios in order |
| `Registry.ServerState.IsListeningOnFrequency` | state/server.go:178-196 | true iff the sender is registered and the first radio of the receiver on the frequency is on; coalitions play no part |
| `Settings.SettingsState.DoesCoalitionExist` | state/settings.go:229-238 | true iff some coalition has the name |
| `Settings.ContainsByKilohertz` | state/settings.go:240-250 | for global and test frequencies entered in kHz, matching by float32 is membership of the integer |
| `Settings.SettingsState.FrequenciesByKilohertz` | state/settings.go:240-250 | test frequencies are sought in the list of test frequencies, global ones in that of global ones |
| `Admin.VCSApplication.BanClient` | app/clients.go:48-86 | the ban is recorded for a present client; its client entry goes only if saving succeeded, its radio entry stays |
| `Admin.VCSApplication.UnbanClient` | app/clients.go:88-115 | the ban list becomes the list without the first entry with the id |
| `Admin.VCSApplication.KickClient` | app/clients.go:117-133 | only the client entry goes |
| `Admin.VCSApplication.MuteClient` | app/clients.go:135-158 | only the muted mark of that radio entry changes |
| `Admin.VCSApplication.UnmuteClient` | app/clients.go:160-183 | only the muted mark of that radio entry changes |
| `Admin.MutesOnly` | app/clients.go:135-183 | the mark of that one radio entry becomes what was asked for; its radios and all other entries stay |
| `RadioService.CanSwapRoles` | srs/utils.go:71-89 | a role may be taken iff it is above guest and at most the present one |
| `RadioService.AcceptedIff` | srs/srs_service.go:166-216 | an update is accepted iff all four checks pass |
| `RadioService.UnitIdIff` | srs/utils.go:22-26 | a unit id is accepted iff it has 2 to 4 characters, each A-Z or 0-9 |
| `RadioService.FieldsFollowChecks` | srs/srs_service.go:168-206 | each field becomes the requested one iff its own check passes, with the checks written out |
| `RadioService.ErrorsFollowChecks` | srs/srs_service.go:168-202 | each error is reported iff its own check fails |
| `RadioService.ErrorsInOrder` | srs/srs_service.go:166-202 | the errors come in the order of the fields, each at most once |
| `RadioService.SimpleRadioServer.UpdateClientInfo` | srs/srs_service.go:145-227 | each field changes iff its own check passes, the time always, nothing else; the answer lists the failed checks |
| `RadioService.ConvertRadioInfo` | srs/utils.go:91-109 | the stored radios, in order, without intercom marks |
| `RadioService.ConvertRadios` | srs/utils.go:50-65 | the sent radios, in order, without intercom marks |
| `RadioService.RadiosRoundTripIff` | srs/utils.go:50-109 | an uploaded radio list comes back unchanged iff no radio is marked as intercom |
| `RadioService.StoredRadiosHeard` | srs/utils.go:91-109 | an installed radio list hears what the uploaded one says |
| `RadioService.SimpleRadioServer.UpdateRadioInfo` | srs/srs_service.go:229-264 | replaces the radio entry of a client that has one; refuses otherwise |
| `RadioService.SimpleRadioServer.SubscribeToUpdates` | srs/srs_service.go:266-281 | registers a stream iff the client has none |
| `RadioService.SimpleRadioServer.Disconnect` | srs/srs_service.go:109-143 | clears both entries in every case with a valid id, and succeeds iff both were present |
| `RadioService.SimpleRadioServer.CleanupClientState` | srs/srs_service.go:308-321 | clears exactly both entries of the client |
| `RadioService.SweepStep` | srs/srs_service.go:329-343 | dropping some streams does not change which of the others are stale |
| `RadioService.SimpleRadioServer.CleanupPass` | srs/srs_service.go:324-346 | one pass, in any order, removes exactly the streams that were stale at its start and both entries of exactly those clients |
| `RadioService.FreshLoginIsStale` | srs/srs_service.go:333 | a client just admitted is stale iff the limit is below the longest duration |
| `RadioService.StaleIff` | srs/srs_service.go:333 | a present client is stale iff it has been silent for longer than the limit and the limit is not the longest duration |
| `RadioService.SimpleRadioServer.CollectRadios` | srs/srs_service.go:72-86 | fails iff some radio entry has no client; else one entry for each |
| `RadioService.SyncContents` | srs/srs_service.go:62-86 | what a client is sent: name, coalition and last update of every client, radios and mute mark of every radio entry, times cut to seconds |
| `RadioService.SimpleRadioServer.SyncClient` | srs/srs_service.go:52-103 | panics iff some radio entry has no client; else returns the two maps entry for entry |
| `Auth.AuthServer.RemoveExpired` | srs/auth_service.go:550-559 | the sweep leaves exactly the entries with Expires not before now |
| `Auth.AuthServer.CheckDistribution` | srs/auth_service.go:489-508 | true iff the current mode is among the features |
| `Auth.AuthServer.InitAuth` | srs/auth_service.go:100-142 | sweeps, and on acceptance adds one entry of 20 minutes without roles under the new GUID |
| `Auth.AuthServer.GuestLogin` | srs/auth_service.go:144-255 | sweeps and admits a guest whose checks pass, even if signing the token then fails; the entry stays |
| `Auth.AuthServer.Login` | srs/auth_service.go:257-378 | sweeps and replaces the entry by one of 5 minutes with the roles and units the plugin granted |
| `Auth.AuthServer.GetSelectedUnit` | srs/utils.go:28-37 | finds the first unit with the id, iff there is one |
| `Auth.AuthServer.IsRoleAvailable` | srs/utils.go:39-48 | true iff the role was granted |
| `Auth.AuthServer.UnitSelect` | srs/auth_service.go:380-487 | admits with the entry's name, unit, coalition and role iff secret, unit, role and coalition pass, and uses the entry up; no sweep |
| `ControlRuns.PresenceStep` | srs/srs_service.go:308-321 | how each handler changes a client's presence in each map |
| `ControlRuns.PresentIffJoined` | state/server.go:112-123 | a client is registered iff it was admitted and not since cleared, kicked or banned |
| `ControlRuns.ExactPairing` | app/clients.go:75-126 | in every reachable state each client has a radio entry, and the surplus radio entries are exactly those of clients kicked or banned while present and not since readmitted or cleared |
| `ControlRuns.SyncSafeIff` | srs/srs_service.go:72-86 | in every reachable state synchronisation is safe iff no such client is outstanding |
| `ControlRuns.KickBreaksSync` | srs/srs_service.go:83 | after kicking any present client it is not |
| `ControlRuns.OthersStay` | srs/srs_service.go:145-346 | a request of one client, and a cleanup pass that spares it, leaves the record, radios and stream of every other as they are |
| `ControlRuns.LastUpdateIs` | srs/srs_service.go:204-206 | in every reachable state LastUpdate is the time of the last own update since the last admission, else zero |
| `ControlRuns.SurvivesCleanupIff` | srs/srs_service.go:329-343 | a client with a stream, and its stream, survive a pass iff the time since that update is at most the limit, or the limit is the longest duration |
| `LoginChecks.InitializesIff` | srs/auth_service.go:106-120 | a GUID is handed out iff the version is 0.1.0 and the server's mode is among the features |
| `LoginChecks.InitializedWith` | srs/auth_service.go:122-127 | its entry lasts 20 minutes and grants no role and no unit |
| `LoginChecks.EarlyRefusals` | srs/auth_service.go:148-169 | the answers when a login is switched off or the GUID does not parse |
| `LoginChecks.MatchIsFirst` | srs/auth_service.go:191-197 | the coalition selected is the first with a matching password |
| `LoginChecks.GuestJoinsIff` | srs/auth_service.go:148-220 | a guest joins iff guests are allowed, its entry has not expired, and its name, unit and password pass |
| `LoginChecks.GuestJoinsWith` | srs/auth_service.go:214-220 | it joins under its own name and unit, in the coalition of its password, as a guest, with an empty radio list |
| `LoginChecks.GuestRefusals` | srs/auth_service.go:170-212 | a refused guest is told of the first check that fails |
| `LoginChecks.GrantsIff` | srs/auth_service.go:261-324 | a login is granted iff logins are allowed, the entry has not expired, and plugin, answer and secret are there |
| `LoginChecks.GrantedWith` | srs/auth_service.go:325-345 | its entry lasts 5 minutes and holds the name, secret and units, and every role cut to 8 bits, in order |
| `LoginChecks.LoginRefusals` | srs/auth_service.go:283-324 | a refused login is told of the first check that fails |
| `LoginChecks.SelectsIff` | srs/auth_service.go:393-445 | a selection is admitted iff the entry is there with its secret and role, the unit is one of the entry's or a short code, and the coalition exists |
| `LoginChecks.SelectsWith` | srs/auth_service.go:447-456 | it joins under the entry's name with the unit, coalition and role asked for, and uses the entry up; otherwise nothing changes |
| `LoginChecks.SelectRefusals` | srs/auth_service.go:393-445 | a refused selection is told of the first check that fails |
| `ControlPlane.Server.Handle` | srs/srs_service.go:109-346 | every handler, run on the shared objects, is the step of that name in a run |
| `LoginRuns.EntryStep` | srs/auth_service.go:122-127 | only InitAuth, Login and UnitSelect change an entry, apart from expiry |
| `LoginRuns.EntryOrigin` | srs/auth_service.go:337-345 | every entry was initialised for its GUID and is what InitAuth or a granted Login wrote |
| `LoginRuns.UsedUp` | srs/auth_service.go:454-456 | a GUID whose entry was used up never has one again |
| `LoginRuns.SelectOnce` | srs/auth_service.go:380-487 | in any run each GUID is admitted by UnitSelect at most once |
| `LoginRuns.SelectNeedsLogin` | srs/auth_service.go:405-437 | and only after a granted Login for it, with that login's secret and into one of its roles |
| `LoginRuns.EntryStepIff` | srs/auth_service.go:550-559 | what each handler does to an entry, exactly |
| `LoginRuns.EntryIff` | srs/auth_service.go:122-456 | in every reachable state a GUID has an entry iff an InitAuth or granted Login has no later admitting selection and no later sweep after its expiry; it is the last one written |
| `LoginRuns.SelectAdmittedIff` | srs/auth_service.go:393-456 | a selection that passes the checks against the last entry written is admitted iff no sweeping request came after the entry's expiry |
| `LoginRuns.EntryExpiry` | srs/auth_service.go:124-126 | every entry expires within 20 minutes of now, within 5 if a login wrote it |
| `LoginRuns.RecentOrigin` | srs/auth_service.go:159-178 | a guest admission or granted login follows an InitAuth by at most 20 minutes or a Login by at most 5 |
| `LoginRuns.SelectAtAnyAge` | srs/auth_service.go:380-403 | UnitSelect succeeds on a login of any age |
| `LoginRuns.RoleNeverRises` | srs/srs_service.go:195-202 | between admissions a role never rises, a guest stays one and nobody becomes one |
| `LoginRuns.RoleBound` | srs/auth_service.go:432-452 | in every reachable state a client is a guest or has at most a role a plugin granted to its GUID |
| `Interleaving.InvStep` | srs/auth_service.go:326-345 | each lock-delimited step keeps the bound, including writes through stale pointers |
| `Interleaving.InvAlways` | srs/srs_service.go:155-206 | the invariant holds after every interleaving |
| `Interleaving.RoleBound` | srs/auth_service.go:432-452 | for every interleaving of the handlers' steps, a client is a guest or has at most a role of a completed login of its GUID |
| `Interleaving.UninterruptedUpdate` | srs/srs_service.go:145-227 | the steps of an update, uninterrupted, do what the atomic handler does |
| `Interleaving.UninterruptedSelect` | srs/auth_service.go:393-456 | the steps of a selection, uninterrupted, do what the atomic handler does |
| `Interleaving.UninterruptedInit` | srs/auth_service.go:104-127 | the steps of an initialisation, uninterrupted, do what the atomic handler does |
| `Interleaving.UninterruptedLogin` | srs/auth_service.go:272-345 | the steps of a granted login, uninterrupted, do what the atomic handler does |
| `Interleaving.UninterruptedGuest` | srs/auth_service.go:159-220 | the steps of a guest's login, uninterrupted, do what the atomic handler does |
| `InterleavedLogins.RestoredByLogin` | srs/auth_service.go:283-345 | for every interleaving, an entry that a selection removed is back only if a login was in progress at the removal and wrote after it |
| `InterleavedLogins.RemovalIsStraddled` | srs/auth_service.go:393-456 | before any admission after a removal, some other selection or login of the GUID straddled that removal |
| `InterleavedLogins.SelectedAgainIff` | srs/auth_service.go:393-456 | for every interleaving, a selection is admitted for a GUID already admitted iff it overlaps one that has joined and not yet removed the entry, or a removal was straddled |
| `InterleavedLogins.ExclusiveSelectsOnce` | srs/auth_service.go:380-487 | selection is one-shot if no other selection or login of the GUID is in progress between a join and its removal |
| `InterleavedLogins.SelectTwice` | srs/auth_service.go:393-456 | from the start, two overlapping selections are both admitted by one entry |
| `InterleavedLogins.RestoredAndSelected` | srs/auth_service.go:283-345 | from the start, a login that straddles a selection restores the entry, and a later selection is admitted again |
| `InterleavedRoles.RaisesIff` | srs/srs_service.go:195-202 | for every interleaving, a write raises the role of a record iff the last write before it came from another update between this one's check and write, and wrote less |
| `InterleavedRoles.NeverRises` | srs/srs_service.go:195-202 | a record's role never rises in a run in which no two updates of it are between check and write at once |
| `InterleavedRoles.GuestStays` | srs/utils.go:71-89 | for every interleaving, a guest stays one and nobody becomes one |
| `InterleavedRoles.ClientRoleNeverRises` | srs/srs_service.go:155-202 | the same two facts for a client between its admissions |
| `InterleavedRoles.LoweredRoleMayRise` | srs/srs_service.go:195-202 | from the start, two overlapping updates lower a role and raise it again, to any two roles above the guest's |
| `InterleavedRadios.ExactPairing` | srs/srs_service.go:239-253 | for every interleaving, each client has a radio entry, and one without a client is there iff a kick or a late store orphaned it and nothing has renewed it |
| `InterleavedRadios.RestoresIff` | srs/srs_service.go:239-253 | a store brings back a radio entry iff its client was dropped between the check and the store, with nothing added since |
| `InterleavedRadios.OrphanedWithoutKick` | srs/srs_service.go:239-253 | from the start, a run without any kick leaves a radio entry without a client |
| `VoiceServer.Server.HandleHello` | voice/server.go:163-186 | a registered sender gets a new session at its address and an acknowledgement; anyone else nothing |
| `VoiceServer.Server.HandleKeepalive` | voice/server.go:188-209 | a session is refreshed in place, keeping its address; the answer goes to the packet's address |
| `VoiceServer.Server.DisconnectClient` | voice/server.go:316-329 | removes exactly that session |
| `VoiceServer.Server.Cleanup` | voice/server.go:267-281 | removes exactly the sessions last seen more than a minute ago |
| `VoiceServer.KeepExact` | voice/server.go:356-370 | the loop over distinct clients keeps exactly the listeners, each once |
| `VoiceServer.Server.CollectListeners` | voice/server.go:355-370 | the sessions of exactly the listeners, each once, in whatever order the clients were listed |
| `VoiceServer.Server.GetListeningClients` | voice/server.go:343-371 | those sessions, or nobody and local playback on a test frequency |
| `VoiceServer.Server.BroadcastVoice` | voice/server.go:239-251 | the encoded packet goes once to each listener, at the address of its session |
| `VoiceServer.Server.HandleVoice` | voice/server.go:211-233 | a sender with a session is refreshed and relayed; any other is ignored |
| `VoiceServer.Server.Dispatch` | voice/server.go:149-160 | the table step and the answer that belong to the packet's type |
| `VoiceServer.Server.HandlePacket` | voice/server.go:130-160 | a datagram changes the table as its event says, and is relayed byte for byte as it came in |
| `Deployment.Node.HandleControl` | voice/server.go:163-169 | a control request on the shared objects is a step of a whole run and touches no session |
| `Deployment.Node.HandleDatagram` | voice/server.go:130-160 | a datagram on the shared objects is a step of a whole run, and what is sent is what the run says |
| `Deployment.Node.HandleTick` | voice/server.go:267-281 | an eviction pass on the shared objects is a step of a whole run |
| `VoiceRuns.WorldIsControlRun` | voice/server.go:163-169 | voice traffic never changes the registry |
| `VoiceRuns.OnlyHelloOpens` | voice/server.go:163-237 | nothing but an accepted HELLO creates a session or changes its address |
| `VoiceRuns.SessionIff` | voice/server.go:163-281 | in every reachable state a session is open iff an accepted HELLO has no later BYE or eviction; it holds the last HELLO's address and the last refresh's time |
| `VoiceRuns.HelloAcceptedIffJoined` | voice/server.go:163-175 | a HELLO opens a session iff its sender has then been admitted and not since cleared, kicked or banned |
| `VoiceRuns.PacketEffect` | voice/server.go:148-237 | what each type of packet does to the sessions: HELLO of a joined client opens one, KEEPALIVE and VOICE refresh one at its address, BYE closes it, nothing else changes anything |
| `VoiceRuns.OthersKeepSessions` | voice/server.go:136-147 | a refused datagram and a control request leave the sessions as they are |
| `VoiceRuns.EvictedByTick` | voice/server.go:267-281 | from a tick at t on, every session was last seen at t minus one minute or later |
| `VoiceRuns.SilenceBound` | voice/server.go:253-281 | with ticks at most 30 s apart, no session is ever silent for more than 90 s |
| `VoiceRuns.SilenceBoundReached` | voice/server.go:253-281 | such ticks can leave a session that has been silent for up to 90 s |
| `VoiceRuns.KeptAliveIsKept` | voice/server.go:188-223 | a session whose refreshes follow one another within a minute, the last at most a minute old, lasts until its BYE |
| `VoiceRuns.RelayExact` | voice/server.go:211-251 | a relayed packet reaches exactly the other registered clients with an open session whose first radio on its frequency is on, one datagram each, unchanged, at the address of their last HELLO, and none if the sender is not registered |
| `VoiceRuns.AnswerExact` | voice/server.go:148-251 | all that is sent for a datagram: HELLO and KEEPALIVE are acknowledged byte for byte to where they came from, VOICE is relayed exactly or played on the server, nothing else is answered |
| `VoiceRuns.ReachedByKilohertz` | voice/server.go:343-371 | with frequencies in kHz, who is reached is decided by integer equality |
| `VoiceRuns.OustedIsSilent` | app/clients.go:75-126 | from a kick or ban until the next admission, a client reaches nobody and is reached by nobody |
| `EventBus.EventBus.Publish` | events/bus.go:74-78 | the event is queued last |
| `EventBus.EventBus.Subscribe` | events/bus.go:64-71 | a new empty channel is listed last under the name |
| `EventBus.EventBus.Pop` | events/bus.go:28-37 | the oldest event leaves the queue, if there is one |
| `EventBus.EventBus.Take` | app/app.go:277-278 | a reader gets the oldest event of its channel, and nothing else changes |
| `EventBus.EventBus.Dispatch` | events/bus.go:44-61 | the nested loops offer the event to the subscribers of its name and then to those of "*", dropping it at full channels |
| `EventBus.EventBus.PublishNext` | events/bus.go:25-41 | one round of the publisher moves one event from the queue to its channels |
| `EventRuns.RoundIsRun` | events/bus.go:25-61 | that round is the run of its lock-delimited steps with none in between |
| `EventRuns.QueueIsFifo` | events/bus.go:25-78 | for every interleaving, published = dispatched ++ under way ++ queued |
| `EventRuns.WantedOnceIff` | events/bus.go:47-53 | every matching event is owed exactly once iff the topic is not "*" or no event has that name |
| `EventRuns.TableIsListing` | events/bus.go:64-71 | the table lists every channel once, under its topic |
| `EventRuns.TargetsAreCopies` | events/bus.go:47-53 | a dispatch sends to each channel as often as its topic is owed the event |
| `EventRuns.ChannelAccounted` | events/bus.go:54-61 | for every interleaving, what a channel is owed is got, still to be sent, or lost |
| `EventRuns.Delivery` | events/bus.go:54-68 | received ++ buffered is an in-order subsequence of what is owed, with at most 10 buffered, and between dispatches all of it iff no send found the channel full |
| `EventRuns.DrainedIsComplete` | events/bus.go:25-78 | once the bus is idle, a channel never full has got every matching event not dispatched before it subscribed; for a "*" subscriber, if no event has that name |

## Left out

- Sockets, gRPC, TLS, token signing, password hashing, files and logging: their outcomes are parameters of the handlers (a GUID that parses or not, a token that is signed or not, a ban list that is saved or not).
- Clocks, `uuid.New`, plugin answers and generated secrets are parameters too; run theorems that need a non-decreasing clock or fresh GUIDs say so.
- Concurrency inside a handler, except in `EventRuns` and the modules on interleaving: a handler is otherwise one step, and reads of the maps without a lock count as atomic.
- Starting and stopping the voice server: `VoiceRuns` covers a running one.
- The receive buffer that the voice server shares with its packet goroutines: each datagram is taken to be parsed before the next is read.
- Order of delivery on the network: a relayed packet is written by one goroutine for each listener.
- Opus decoding and the speaker: a frame is an abstract function of its bytes.
- `PcmStream.PipeReader.Read`: a read that fails delivers no bytes, as for an `io.Pipe`.
- `Auth.AuthServer.InitAuth`: the answer carries the new GUID only, not the mode, the plugin names and the guest flag.
- `Auth.AuthServer.GuestLogin`: does not model that the branch without a matching coalition returns with the mutex locked, only its response.
- `Auth.AuthServer.Login`: a plugin that reports success is taken to send a result, so the type assertion on it cannot fail here; the answer leaves out the coalitions and the role names.
- `Auth.AuthServer.RemoveExpired`: reads the clock once, where the source reads it again for each entry.
- `RadioService.SimpleRadioServer.CleanupPass`: removes streams without a call on them; the source calls `Done` on a stream's context, which returns a channel and cancels nothing.
- `RadioService.SimpleRadioServer.SyncClient`: does not model the server settings in the answer, the published event, or a client cleared between the reading of the lists and of its record, which the source would dereference too.
- `InterleavedRadios.ExactPairing`: follows which radio entries exist, not what is stored in them.
- Strings are sequences of bytes written as characters; lengths count bytes, as Go's `len` does.
- Aliasing of the ban list with the slice that `GetBannedClients` hands out, which the in-place removal would show.
- `FrequencyMHz` and `SetFrequencyMHz`: float64 helpers that no handler calls.
- `RadioService.SimpleRadioServer.SubscribeToUpdates`: registers that there is a stream, not the stream; notifications are left out.
- The distributed control protocol, the REST interface, the frontend, health checks and configuration: wiring, or not implemented.
