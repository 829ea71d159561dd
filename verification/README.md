# Verified models of Tela's access control, transfer and update logic

Tela connects machines through a hub. This project models the parts of it whose
behaviour is decided by state and order rather than by a single call, and proves
what they keep.

**Hub access control** (`AccessVersion`, `AccessModel`, `AccessSteps`, `Hub`,
`AccessDecisions`, `OwnerSafety`, `AccessHistory`, `AccessGrants`, `AccessExact`,
`AccessAcceptance`, `AccessIsolation`, `AccessView`, `IfMatch`). The state is the token list, the ACL of each machine,
the version counter of each identity, and the runtime store rebuilt from the
first two. `Hub.AccessHub` is the mutable state with the handlers as methods over
it: searches, in-place compaction, cascades over the ACL map, counter updates,
reloads. Each method is proved equal to a transition of `AccessSteps.Step` and
keeps the store equal to what a reload would build. The theorems are about those
transitions, about every run of them, and about the decisions (`CanConnect`,
`CanManage`, `CanRegister`, `CanView`, the service filter) of the store.

**Two concurrent protocols.** `PresenceCache` interleaves callers, invalidators
and a clock; its theorems are about the log of every run. `TunnelBridge` has the
mutex-protected updates as a class and interleaves them with any number of
dialers.

**File transfer** (`Decimal`, `Text`, `Chunk`, `ChunkStream`, `ChunkProxy`,
`FileWrite`, `ShareConnection`). The CHUNK framing as it is printed, decoded by three decoders
that tolerate different things, forwarded by the control API's proxy, accepted by
the agent's write handler, and shared with the request lines of a connection.

**Release channels** (`VersionOrder`, `ReleaseChannel`, `ManifestCache`). The
version order on all strings, channel inference, update decisions, and the
stale-serving manifest cache under every interleaving of its callers.

**Smaller algorithms** (`LocalPorts`, `Paging`, `LogRing`, `Gateway`).

A method that updates state is specified by a function of the old state; the
results about that function are lemmas beside it. Where a promise holds only
under a condition, the lemma ending in `Exactly` says when, in both directions.

## Where the code does less than it promises

- Versions wrap: 2^64 - 1 is followed by 1, so "strictly increasing" is a walk
  round a cycle of 2^64 - 1 values. Equal versions mean an unchanged identity
  unless a whole cycle lies in between. At the wrap one reply carries no ETag.
- A PATCH with an ID and a role that is answered 409 has already renamed the
  entry (internal/hub/admin_api.go:983-1003), without moving the counter. It is
  the only refusal that changes the configuration (`RefusalsAreAtomicExactly`,
  `RefusalCanRename`).
- The sole-owner guard of PATCH counts revoked owners, that of revoke and delete
  does not, so the last unrevoked owner can be demoted (`DemotionExactly`).
- Rotation carries connect grants and register slots to the new token but not
  manage grants, and clears a revocation.
- Granting "register" takes the slot from whoever held it, without a new version
  for that identity; emptying the slot, or creating an ACL, lets every valid
  token register (`RowMovesRegistrationExactly`, `DeleteKeepsOthers`).
- Deleting an identity and adding it again restarts its version at 1
  (`RecreationRestarts`).
- An If-Match header that cannot be parsed is dropped, so the list form of section
  3.1 of RFC 7232 makes a request unconditional (`PreconditionExactly`,
  `ListIsNoPrecondition`).
- Clearing a tunnel bridge that holds no tunnel strands the dialers waiting on
  it for good (`ClearingEmptyStrands`). `runSession` never does that.
- A write refused by a gate leaves its chunks in the stream, where they are read
  as requests (`PipelineStaysInFrameExactly`, `AnyLineIsCarried`).
- An upload by the mount is one chunk, which the agent refuses above 16384 bytes.
  One of no bytes is refused for its size, and both terminators are left in the
  stream (`MountUploadExactly`).
- After a stored upload the proxy waits for chunks that never come, until the
  connection ends (`WriteResponseWaitsExactly`, `MountUploadWaitsExactly`).
- Between the compaction of a delete and its reload, the store's pointers lead to
  shifted entries (`StaleLookups`); between the edit of a rotation and its reload,
  the old token leads to an entry that is no longer revoked
  (`StaleLookupsInRotation`). The other theorems are about the states between
  requests.
- The proxy sends no terminator for an empty file, so reading one through the
  mount fails.
- The mount's decoder skips a chunk line with a negative size; the other two fail.
- The comment above `CompareVersions` has prereleases sort below releases. That
  fails for a channel name whose fields are all zero, or whose first non-zero
  field is a number (`SemVerAgreementExactly`).
- Polling a channel whose HEAD is "dev" installs forever, on a "dev" build, an
  unknown version or one from another channel.
- For an empty running version the HEAD gates of hub and agent proceed only when
  HEAD sorts above the empty string, while `ShouldOfferUpdate` always offers.
- Two fetches of one manifest may store their answers in the other order than they
  got them, and the older one then stays cached (`OlderAnswerCanWin`).
- Two different gateway routes with one path leave the choice to the sort, which
  is not stable (`DeterminedExactly`).

## Model

| member | source | states |
|---|---|---|
| `AccessVersion.AccessVersions.Current` | internal/hub/access_version.go:35-39 | returns the stored counter, 0 when there is none |
| `AccessVersion.AccessVersions.Ensure` | internal/hub/access_version.go:44-53 | a read creates a counter only where there is none and returns the observable version |
| `AccessVersion.AccessVersions.Bump` | internal/hub/access_version.go:58-68 | the counter moves to its successor in uint64 arithmetic and no other counter moves |
| `AccessVersion.AccessVersions.Rename` | internal/hub/access_version.go:74-88 | the counter moves to the new name, bumped; renaming to itself does nothing |
| `AccessVersion.AccessVersions.Delete` | internal/hub/access_version.go:92-96 | the counter is forgotten |
| `AccessVersion.AdvanceIsCyclic` | internal/hub/access_version.go:58-68 | k bumps add k modulo 2^64-1 |
| `AccessVersion.AdvanceFixed` | internal/hub/access_version.go:58-68 | k bumps return to the same version exactly when k is a multiple of 2^64-1 |
| `IfMatch.EveryFormParses` | internal/hub/access_version.go:102-123 | the strong, weak and bare forms of every uint64 version parse back to it |
| `IfMatch.PreconditionExactly` | internal/hub/access_version.go:102-116 | for every header: it is a precondition exactly when what is left of it without space, weak mark and quotes is a decimal number of 64 bits, and then asks for that version |
| `IfMatch.ListIsNoPrecondition` | internal/hub/access_version.go:102-116 | a header listing two ETags is none |
| `IfMatch.EchoedETagDetectsChange` | internal/hub/access_version.go:102-123 | a client echoing an ETag is answered 412 exactly when the version has changed |
| `AccessHistory.VersionCountsMutations` | internal/hub/access_version.go:41-88 | in every history in which an identity exists throughout, its version is the first one advanced by the number of successful mutations addressed to it; reads, refusals and other identities' requests leave it alone |
| `AccessHistory.VersionIncreasesUntilWrap` | internal/hub/access_version.go:58-68 | in such a history, until the counter wraps, the version is the first one plus the number of those mutations |
| `AccessHistory.AtMostOneWins` | internal/hub/admin_api.go:324-330 | two mutations of one identity with the same If-Match both succeed only if all 2^64-1 versions were used up between them |
| `AccessHistory.EqualVersionsSameIdentity` | internal/hub/access_version.go:41-88 | equal versions at two moments mean the same token, role, timestamps, revocation, connect and manage grants, unless the counter went all the way round |
| `AccessHistory.StepKeepsIdentity` | internal/hub/admin_api.go:201-1242 | a request that is no successful mutation of the identity changes neither its entry nor its grants |
| `AccessHistory.LifeEnds` | internal/hub/admin_api.go:983-1089 | a successful rename or delete removes the addressed ID, and a rename lands on a free one |
| `AccessHistory.EnsuredAllIsInvisible` | internal/hub/admin_api.go:893-905 | listing every identity changes no observable version |
| `OwnerSafety.StepKeepsWellFormed` | internal/hub/admin_api.go:201-1242 | every request keeps IDs unique and tokens unique and non-empty |
| `OwnerSafety.RunKeepsWellFormed` | internal/hub/admin_api.go:201-1242 | so does every run |
| `OwnerSafety.OwnerSafety` | internal/hub/admin_api.go:989-1006 | from a configuration with an owner, every reachable one has an owner and unique IDs |
| `OwnerSafety.LiveOwnerSafety` | internal/hub/admin_api.go:455-473 | without demotions an unrevoked owner remains after every run, and the admin API still admits some token while owner tokens carry no expiry |
| `OwnerSafety.DemotionExactly` | internal/hub/admin_api.go:990-1003 | an accepted demotion leaves an unrevoked owner exactly when the demoted one was revoked or another unrevoked owner exists |
| `OwnerSafety.LastLiveOwnerCanBeDemoted` | internal/hub/admin_api.go:994-1000 | the exception is reachable |
| `OwnerSafety.RefusalsAreAtomicExactly` | internal/hub/admin_api.go:976-1006 | a request that is not accepted leaves the configuration unchanged, except exactly a PATCH that renames and is then refused as the sole owner's demotion |
| `OwnerSafety.RefusalCanRename` | internal/hub/admin_api.go:983-1003 | that exception is reachable |
| `AccessAcceptance.AddAnswersExactly` | internal/hub/admin_api.go:201-248 | when an add is done, conflicts, fails or is malformed |
| `AccessAcceptance.RotateAnswersExactly` | internal/hub/admin_api.go:308-342 | a rotation is done exactly for a known ID whose version matches, when a token could be minted; every other answer exactly |
| `AccessAcceptance.RevokeAnswersExactly` | internal/hub/admin_api.go:442-493 | a revocation is done exactly for an unrevoked identity whose version matches and that is no owner, or one of two unrevoked owners; every other answer exactly |
| `AccessAcceptance.RevokeIsExact` | internal/hub/admin_api.go:496-500 | a revocation stamps the addressed entry and changes nothing else |
| `AccessAcceptance.PatchAnswersExactly` | internal/hub/admin_api.go:931-1006 | a PATCH is done exactly when it is well put, the ID known, the version matching, the new ID free, and the role not that of the only owner; every other answer exactly |
| `AccessAcceptance.HalfAppliedIsARename` | internal/hub/admin_api.go:983-1003 | the PATCH refused half way leaves the entry under its new ID, with its role, every other entry, the ACLs and the versions as they were |
| `AccessAcceptance.DeleteAnswersExactly` | internal/hub/admin_api.go:1034-1069 | a delete is done exactly for an identity whose version matches and that is no owner, or while two owners are unrevoked; every other answer exactly |
| `AccessAcceptance.RowAnswersExactly` | internal/hub/admin_api.go:1104-1209 | a row request is done exactly for a known ID whose version matches, and to revoke a row the machine must have an ACL; every other answer exactly |
| `AccessAcceptance.ReadsAreReads` | internal/hub/admin_api.go:893-922 | reads are answered with the version and change no configuration and no version |
| `AccessModel.StoreKnows` | internal/hub/auth.go:128-148 | the store maps each configured token to its own entry |
| `AccessModel.UnknownTokenDenied` | internal/hub/auth.go:155-344 | on a hub with auth enabled, a token no identity holds is denied every kind of access |
| `AccessModel.DecisionsDetermined` | internal/hub/auth.go:193-344 | two configurations that agree on an entry and on its grants decide alike about it, at every time, registration aside |
| `AccessModel.RegistrationDetermined` | internal/hub/auth.go:209-236 | two configurations that agree on an entry and on a machine's register slot let it register there alike |
| `AccessDecisions.DecisionsExactly` | internal/hub/auth.go:193-344 | for every token on a hub with identities: it may connect, manage, register, view or administer exactly when an unrevoked, unexpired identity holds it that is an owner or admin, or that the machine's or "*" lists name, or whose slot or open ACL it is, or that is a viewer |
| `AccessDecisions.RevokedOrExpiredDenied` | internal/hub/auth.go:51-66 | a revoked or expired identity is denied everything, whatever its role and grants |
| `AccessDecisions.OpenHub` | internal/hub/auth.go:128-148 | without identities everything is allowed and nobody administers |
| `AccessDecisions.FilterExactly` | internal/hub/auth.go:285-308 | owners, admins and viewers have no service filter; everyone else has that of the first grant on the machine, else of the first on "*", else none |
| `AccessGrants.RetokenFinds` | internal/hub/auth.go:415-424 | after the rewrite the new token finds the old one's grant with its services, the old one finds nothing, others are unaffected |
| `AccessGrants.ScrubFinds` | internal/hub/auth.go:402-410 | after the filter the removed token finds nothing and every other token what it found before |
| `AccessGrants.GrantAllOwn` | internal/hub/admin_api.go:1150-1165 | on an ACL without grants for the token, applying a permission list gives exactly the recognized permissions in it, in whatever order and however often |
| `AccessGrants.GrantAllOthers` | internal/hub/admin_api.go:1150-1165 | applying permissions for one token changes no other token's connect or manage grants |
| `AccessExact.RotationPreservesMeaning` | internal/hub/admin_api.go:332-365 | the new token connects, registers and views where the old one could while valid, with the same service filters; it manages only if the identity is privileged |
| `AccessExact.RotatedOutTokenDenied` | internal/hub/admin_api.go:346-369 | the old token is denied every kind of access everywhere |
| `AccessExact.RotationKeepsOthers` | internal/hub/admin_api.go:352-365 | no decision about another identity changes, registration included |
| `AccessExact.RowIsExact` | internal/hub/admin_api.go:1136-1167 | after a PUT the identity's row holds exactly the recognized requested permissions with the requested services, after a DELETE none; other machines' ACLs are untouched |
| `AccessExact.RowKeepsOthers` | internal/hub/admin_api.go:1136-1223 | a row request changes no connect, filter, manage or view decision about another identity |
| `AccessExact.RowMovesRegistrationExactly` | internal/hub/auth.go:209-236 | when another unprivileged identity may register after a row request: as before on other machines; on that one exactly when "register" was not requested and it could before, the ACL is new, or the slot was the addressed token's |
| `AccessExact.DeleteLeavesNoTrace` | internal/hub/admin_api.go:1070-1089 | after a delete the identity is in no list and its token in no ACL; no ACL disappears |
| `AccessExact.DeleteKeepsOthers` | internal/hub/admin_api.go:1070-1089 | a delete changes no connect, filter, manage or view decision about another identity, and opens registration exactly where the deleted token held the slot |
| `AccessExact.RevocationDenies` | internal/hub/admin_api.go:496-500 | a revoked identity keeps its grants but is denied everything at every time |
| `AccessIsolation.StepIsolates` | internal/hub/admin_api.go:201-1242 | no request changes any decision about an identity it does not address, registration aside |
| `AccessIsolation.RunIsolates` | internal/hub/admin_api.go:201-1242 | no run that never addresses an identity changes its entry or any decision about it, registration aside |
| `AccessIsolation.StepMovesRegistrationExactly` | internal/hub/auth.go:209-236 | whether another unprivileged identity may register on a machine after any request: as before, unless the request sets a row on that machine or deletes the holder of its slot; then exactly when "register" was not granted and it could before, the ACL is new, or the slot was the addressed identity's |
| `AccessIsolation.RunKeepsRegistration` | internal/hub/auth.go:209-236 | over every run that neither addresses an identity nor moves a machine's slot, whether it may register there stays the same |
| `AccessIsolation.AddedIdentityStartsBare` | internal/hub/admin_api.go:246-259 | a new unprivileged identity can connect to and manage nothing, and register exactly where an ACL has no register token |
| `AccessIsolation.PatchIsExact` | internal/hub/admin_api.go:976-1006 | an accepted PATCH changes the ID and role asked for on the addressed entry, and no other entry or ACL |
| `AccessIsolation.DoneReportsNext` | internal/hub/admin_api.go:1012-1019 | a success reports the version the next If-Match must carry, or 0, which it does exactly when a mutation wraps the counter |
| `AccessIsolation.ToldVersionStandsExactly` | internal/hub/access_version.go:102-142 | over every history that follows, sending the version a success or a 412 reported is refused exactly when the identity has been mutated since, counted modulo 2^64-1 |
| `AccessView.ViewAgreesWithDecisions` | internal/hub/admin_api.go:811-891 | for every unprivileged identity with a valid token and every machine, connect and manage are allowed exactly when the row or the inherited list shows them, register when the row shows it or the ACL has no register token, and the service filter is the row's, else the inherited one, and none for a viewer |
| `AccessView.PrivilegedViewAgrees` | internal/hub/admin_api.go:835-842 | an owner or admin is shown every permission on "*" and has it on every machine |
| `AccessView.RowRequestShowsInView` | internal/hub/admin_api.go:1136-1223 | after a row request the view shows exactly the recognized permissions asked for, with their services |
| `AccessView.ViewNames` | internal/hub/admin_api.go:811-834 | a view carries the ID and the role, "user" for none |
| `AccessView.RowsAreMinimal` | internal/hub/admin_api.go:844-888 | only machines with something to show have a row, no permission is listed twice, services stand only beside connect |
| `KeyedSeq.CompactInPlace` | internal/hub/auth.go:402-410 | the compaction loop over a shared backing array leaves the order-preserving filter in front and the rest of the array as it was |
| `KeyedSeq.WithoutMember` | internal/hub/admin_api.go:1245-1253 | the filter keeps exactly the elements with another key |
| `KeyedSeq.FirstWithWithout` | internal/hub/auth.go:402-410 | after the filter a search for the key finds nothing and every other search what it found before |
| `Hub.ReplaceInPlace` | internal/hub/auth.go:415-424 | the array is rewritten to the retokened list, and the result says whether any grant matched |
| `Hub.Search` | internal/hub/auth.go:372-392 | the first element with the key, or none |
| `Hub.Scrub` | internal/hub/admin_api.go:1139-1144 | one ACL without the token |
| `Hub.AccessHub.StoreIsFunctionOfConfig` | internal/hub/auth.go:442-463 | between requests the store, read through its entry pointers, is a function of the configuration alone |
| `Hub.StaleLookups` | internal/hub/admin_api.go:1073-1079 | what a token leads to while a delete has compacted the array but not yet reloaded: its own entry before the deleted one and at the end, the next entry otherwise |
| `Hub.StaleLookupsInRotation` | internal/hub/admin_api.go:346-349 | while a rotation has edited the entry but not yet reloaded, the old token leads to it with its revocation cleared, the new token to nothing, and every other token to its own entry |
| `Hub.AccessHub.Reload` | internal/hub/auth.go:442-463 | rebuilds the store, later entries winning over earlier ones with the same token |
| `Hub.AccessHub.Find` | internal/hub/admin_api.go:109-116 | the position of the first entry with the ID, or -1 |
| `Hub.AccessHub.CheckIfMatch` | internal/hub/admin_api.go:324-330 | 412 exactly when If-Match is present and differs from the version; only a present one touches the counter |
| `Hub.AccessHub.AddToken` | internal/hub/admin_api.go:201-275 | refines the add transition, every refusal in the order tried |
| `Hub.AccessHub.RotateToken` | internal/hub/admin_api.go:287-385 | refines the rotate transition |
| `Hub.AccessHub.CascadeToken` | internal/hub/admin_api.go:351-365 | the loop rewrites every ACL, in whatever order the map yields its keys |
| `Hub.AccessHub.RevokeToken` | internal/hub/admin_api.go:442-512 | refines the revoke transition |
| `Hub.AccessHub.PatchAccess` | internal/hub/admin_api.go:931-1031 | refines the PATCH transition |
| `Hub.AccessHub.PatchEntry` | internal/hub/admin_api.go:976-1031 | refines the part of it after the If-Match check |
| `Hub.AccessHub.DeleteAccess` | internal/hub/admin_api.go:1034-1101 | refines the delete transition |
| `Hub.AccessHub.ScrubEverywhere` | internal/hub/admin_api.go:1081-1089 | the loop scrubs every ACL, in whatever order the map yields its keys |
| `Hub.AccessHub.SetMachineAccess` | internal/hub/admin_api.go:1104-1190 | refines the transition that sets a machine row |
| `Hub.AccessHub.RevokeMachineAccess` | internal/hub/admin_api.go:1193-1242 | refines the transition that revokes a machine row |
| `Hub.AccessHub.BuildAccessEntry` | internal/hub/admin_api.go:811-891 | builds the access view and reports the version |
| `Hub.AccessHub.GetAccess` | internal/hub/admin_api.go:907-922 | refines the read transition and returns the view of the first entry with the ID |
| `Hub.AccessHub.ListAccess` | internal/hub/admin_api.go:893-905 | refines the listing transition and returns one view per identity, in order |
| `PresenceCache.ServedValuesAreFresh` | cmd/telagui/app.go:2648-2697 | in every interleaving a value served from the cache was written less than a TTL ago by a probe that answered it and read the generation after the last invalidation, unless 2^64 invalidations wrapped it |
| `PresenceCache.OneProbeAtATime` | cmd/telagui/app.go:2653-2671 | in every reachable state at most one caller is probing |
| `PresenceCache.ProbesAreSpaced` | cmd/telagui/app.go:2658-2671 | consecutive probes never overlap, and with no invalidation since the first read the generation, the second starts no earlier than the TTL after the first one's cache write |
| `PresenceCache.ServedExactly` | cmd/telagui/app.go:2690-2697 | in every reachable state a caller is served, and with which answer, exactly when the last one cached was not invalidated since and is less than a TTL old |
| `PresenceCache.ProbersReturnTheirAnswer` | cmd/telagui/app.go:2662-2671 | a caller that probed returns what its probe answered, cached or not |
| `PresenceCache.ProbeBegins` | cmd/telagui/app.go:2648-2662 | a caller that misses on a free mutex gets to probe |
| `PresenceCache.ProbeEnds` | cmd/telagui/app.go:2663-2671 | a probing caller returns its answer and frees the mutex; the answer is cached exactly when the generation has not moved |
| `TunnelBridge.TunnelBridge.SetTunnel` | internal/client/client.go:1642-1657 | installs tunnel and agent IP, leaves the ready channel closed, and has closed the one that waiters may hold |
| `TunnelBridge.TunnelBridge.ClearTunnel` | internal/client/client.go:1661-1667 | removes the tunnel and makes a new open channel |
| `TunnelBridge.ReadyMeansInstalled` | internal/client/client.go:1629-1667 | in every run the ready channel is closed exactly when a tunnel is installed |
| `TunnelBridge.StepKeepsWakeupsExactly` | internal/client/client.go:1661-1710 | one step loses a wakeup exactly when it clears an empty bridge while a dialer waits on the current channel |
| `TunnelBridge.BlockedDialersWake` | internal/client/client.go:2062-2065 | in every run that clears only an installed tunnel, a blocked dialer can wake at once while a tunnel is installed and otherwise after the next one is set |
| `TunnelBridge.BlockedDialConnects` | internal/client/client.go:1671-1710 | every disciplined run with a blocked dialer goes on, with the next tunnel set, to that dialer being connected to it |
| `TunnelBridge.FreshDial` | internal/client/client.go:1671-1710 | a new dialer on an installed bridge connects to what is installed, and blocks on the current channel of an empty one |
| `TunnelBridge.FailedDialConnects` | internal/client/client.go:1682-1701 | after a failed dial the next tunnel is the one connected to, set before or after the dialer reads the channel again |
| `TunnelBridge.ResultsStay` | internal/client/client.go:1671-1710 | a waiting or dialing call can be cancelled, and a result stays |
| `TunnelBridge.ClearingEmptyStrands` | internal/client/client.go:1661-1710 | clearing an empty bridge strands every dialer waiting on its channel: in no continuation is the channel closed, and the dialer stays on it or is cancelled |
| `TunnelBridge.DoubleClearStrands` | internal/client/client.go:1661-1667 | a run from the start gets there |
| `TunnelBridge.DialsNeverMix` | internal/client/client.go:1671-1710 | in every run the tunnel and agent IP of a dial come from one SetTunnel |
| `Chunk.Turn` | internal/agent/fileshare.go:797-849 | one turn of a receive loop agrees with the decoder; a continuing turn of a strict decoder has received more, and never more than was declared |
| `Chunk.Receive` | internal/agent/fileshare.go:797-849 | the agent's loop computes the decoder's result and leaves the reader where it says; it ends by the declared size less what was received |
| `Chunk.Download` | internal/client/fileshare.go:501-530 | the client's loops compute the decoder's result and leave the reader where it says |
| `Chunk.RoundTrip` | internal/agent/fileshare.go:710-730 | for every byte string and every split into pieces of 1 to 16384 bytes, all three decoders return exactly the bytes and leave exactly what follows the terminator |
| `Chunk.SingleChunkDecodes` | internal/agent/fileshare.go:826-829 | a one-chunk body is decoded in full when it has 1 to 16384 bytes, and fails as too large above, with only its size line consumed |
| `Chunk.NegativeSizesExactly` | internal/client/mount.go:268-279 | on a negative size, wherever it comes, the mount's decoder goes on as if the line were not there, the others fail as incomplete |
| `Chunk.NeverMoreThanDeclared` | internal/agent/fileshare.go:833-841 | whatever the peer sends, a completed transfer holds no more than the declared size |
| `ChunkStream.CompletesExactly` | internal/agent/fileshare.go:797-849 | for every input and every decoder: it completes with some data and rest exactly when the input is well-formed frames that carry the data within the declared size, then a line announcing zero, then the rest |
| `ChunkStream.CutFails` | internal/client/fileshare.go:501-530 | any transfer a decoder completes on, cut off anywhere before its end, fails |
| `ChunkStream.TruncatedFails` | internal/client/mount.go:256-279 | every strict prefix of every encoding fails in all three decoders |
| `ChunkStream.HeaderMeans` | internal/agent/fileshare.go:805-829 | which header lines end, take, skip or fail, and how, by the size they announce |
| `ChunkProxy.ForwardChunks` | internal/client/control.go:474-496 | the forwarding loop writes and consumes what the forwarding function says |
| `ChunkProxy.ProxyIsTransparent` | internal/client/control.go:474-496 | on every input the bytes written, an unfinished last line and the bytes unread are, in this order, the input; without a terminator nothing is left unread |
| `ChunkProxy.LineMeans` | internal/client/control.go:475-491 | what the loop copies after each line, by the text it holds; a size beyond what follows, or beyond int64, swallows all of it |
| `ChunkProxy.StopsAtTerminator` | internal/client/control.go:481-483 | it stops by itself only after writing a terminator line |
| `ChunkProxy.EncodingForwards` | internal/client/control.go:474-496 | an encoding is forwarded unchanged and the loop stops right after its terminator |
| `ChunkProxy.ProxiedReadExactly` | internal/client/control.go:473-496 | a read through the proxy gives the mount's decoder the file's bytes exactly when the file is not empty |
| `ChunkProxy.ReadNeverWaits` | internal/client/control.go:473-496 | after a read response the proxy stops by itself, empty files included |
| `ChunkProxy.WriteResponseWaitsExactly` | internal/client/control.go:473-496 | a write response is passed on as the one line it is, after which the proxy waits for chunks until the connection ends exactly when the file was stored |
| `ChunkProxy.MountUploadWaitsExactly` | internal/client/mount.go:286-295 | for the mount's uploads the proxy waits exactly when the gates pass, the rename succeeds and the data has 1 to 16384 bytes |
| `FileWrite.ShareDir.HandleWrite` | internal/agent/fileshare.go:737-871 | the file is installed exactly when every gate passes, the transfer completes with the declared size, any checksum matches and the rename succeeds; otherwise the share is unchanged; the quota is kept unless the int64 sum wraps |
| `FileWrite.StoredExactly` | internal/agent/fileshare.go:737-871 | a file is stored exactly when the share is writable, the path is given and resolves, the extension is allowed, the size is positive and within the file limit, the quota allows it, directory and temporary file could be made, the transfer brought exactly that size, any checksum matches and the rename succeeded |
| `FileWrite.RefusedExactly` | internal/agent/fileshare.go:738-790 | each refusal before the transfer names the first requirement that fails, and touches neither share nor stream |
| `FileWrite.TransferAnswersExactly` | internal/agent/fileshare.go:794-871 | past those, each answer exactly, and only a stored file changes the share |
| `FileWrite.UploadStaysInFrameExactly` | internal/agent/fileshare.go:737-871 | an encoding sent with its own size as the declared one is consumed to its end exactly when the gates pass, and then judged on its own bytes |
| `FileWrite.MountUploadExactly` | internal/client/mount.go:286-295 | the mount's one-chunk upload is stored exactly when the gates pass, the rename succeeds and it has 1 to 16384 bytes; a gate, which for empty data is the size check at the latest, leaves the whole body unread, a chunk too large everything after its size line |
| `ShareConnection.ServeConnection` | internal/agent/fileshare.go:509-574 | the request loop over one shared reader computes the served lines, replies and share of its specification |
| `ShareConnection.LinesAreServedInOrder` | internal/agent/fileshare.go:517-574 | requests that are no writes are served line by line, each on the share the one before leaves; a refused one does not end the connection |
| `ShareConnection.SubscriptionIsLast` | internal/agent/fileshare.go:567-569 | nothing after a subscription is read as a request |
| `ShareConnection.PipelineStaysInFrameExactly` | internal/agent/fileshare.go:509-574 | for any sequence of uploads on one connection, exactly the request lines are read as requests if and only if every upload passes the gates on the share its predecessors leave; each is then judged on its own bytes |
| `ShareConnection.RefusedUpload` | internal/agent/fileshare.go:518-527 | after an upload refused by a gate the next line read as a request is one of its chunk headers |
| `ShareConnection.RefusedDataIsServed` | internal/agent/fileshare.go:518-527 | after such an upload the loop skips the first chunk header and goes on with the data as request lines |
| `ShareConnection.AnyLineIsCarried` | internal/agent/fileshare.go:518-527 | a line sent as the data of such an upload is the next request, whatever it asks for |
| `FileWrite.ShareDir.DirTotalSize` | internal/agent/fileshare.go:372-384 | the walk adds up the sizes of all files |
| `FileWrite.AcceptedWriteKeepsQuota` | internal/agent/fileshare.go:763-776 | with one writer, an accepted file is within the file limit and the share total within its quota |
| `VersionOrder.Normalize` | internal/channel/channel.go:400-416 | the parse of a version into weights |
| `VersionOrder.CompareVersions` | internal/channel/channel.go:399-438 | the loop computes the zero-padded comparison |
| `VersionOrder.CompareMeansLexicographic` | internal/channel/channel.go:418-438 | the comparison is 0 exactly when the padded sequences agree everywhere and otherwise the sign at the first difference |
| `VersionOrder.CompareIsTotalPreorder` | internal/channel/channel.go:399-438 | on all strings: reflexive, antisymmetric in sign, transitive, with strictness carried through |
| `VersionOrder.PrefixIgnored` | internal/channel/channel.go:400-401 | a leading v or V, or both, makes no difference |
| `VersionOrder.SeparatorsAlike` | internal/channel/channel.go:402-404 | a hyphen separates fields as a dot does |
| `VersionOrder.SemVerAgreementExactly` | internal/channel/channel.go:395-438 | for X.Y.Z and X.Y.Z-name.N with in-range numbers the order is that of section 11 of Semantic Versioning 2.0.0 exactly when the name has a field other than zero and the first such field is text or a number of 2^63 and above |
| `VersionOrder.ReleaseAbovePrereleaseExactly` | internal/channel/channel.go:408-414 | a release sorts above its own prereleases exactly under that condition |
| `VersionOrder.SameKindAgrees` | internal/channel/channel.go:399-438 | releases among themselves, prereleases among themselves and versions with different cores are always ordered right |
| `VersionOrder.BuiltInNamesAgree` | internal/channel/channel.go:175-181 | "dev" and "beta" meet the condition |
| `VersionOrder.NumberDoesNot` | internal/channel/channel.go:186-196 | a channel named by a number, which is a valid name, does not |
| `ReleaseChannel.InferRoundTrip` | internal/channel/channel.go:94-137 | inferring from vX.Y.Z-name.N gives back every valid name, and "stable" from vX.Y.Z |
| `ReleaseChannel.InferDecorated` | internal/channel/channel.go:94-137 | so it does with or without v or V, with the name in any case, build metadata and space around |
| `ReleaseChannel.NormalizeForgives` | internal/channel/channel.go:200-206 | case and space around a valid name are forgiven |
| `ReleaseChannel.NormalizeExactly` | internal/channel/channel.go:200-206 | normalizing gives a valid name, once and for all, "dev" for what is none |
| `ReleaseChannel.CrossChannelExactly` | internal/channel/channel.go:463-468 | a version crosses channels exactly when the target is not its own, "stable" being a release's |
| `ReleaseChannel.SameChannelOfferExactly` | internal/channel/channel.go:481-492 | on its own channel a version is offered exactly the versions of its kind that come after it in the precedence of section 11 |
| `ReleaseChannel.OtherOfferExactly` | internal/channel/channel.go:481-492 | a version of another channel is offered whenever it differs, and anything to a dev build or an unknown version |
| `ReleaseChannel.PollingConvergesExactly` | internal/channel/channel.go:481-492 | from a given version, polling a fixed HEAD any number of times installs at most once, except exactly when HEAD is "dev" and the version is empty, "dev" or from another channel |
| `ReleaseChannel.HeadSettlesExactly` | internal/channel/channel.go:481-492 | from every version it does exactly when HEAD is not "dev" |
| `ReleaseChannel.NoVersionRecurs` | internal/channel/channel.go:481-492 | in a history of same-channel offers every later version is strictly above every earlier one |
| `ReleaseChannel.GateMatchesOfferExactly` | internal/hub/admin_api.go:1397-1416 | the hub's HEAD gate, which the agent repeats, proceeds when an update would be offered and only then, unless the running version is empty and HEAD does not sort above it |
| `ReleaseChannel.GateRefusesExactly` | internal/hub/admin_api.go:1397-1416 | which of the two refusals a HEAD request meets |
| `ReleaseChannel.GateNeverDowngrades` | internal/agent/agent.go:714-738 | a gated update on the running channel strictly increases the version |
| `ManifestCache.ReturnsAreFetchedAndValid` | internal/channel/channel.go:304-361 | in every interleaving a manifest returned for a URL was fetched from that URL and passed validation |
| `ManifestCache.StaleBeatsError` | internal/channel/channel.go:328-341 | once a fetch of a URL has been cached, no later GetURL of it returns an error |
| `ManifestCache.CacheHitsExactly` | internal/channel/channel.go:313-326 | GetURL answers without the network exactly when the last manifest stored for the URL is younger than the TTL, and with that one |
| `ManifestCache.FetchEndsExactly` | internal/channel/channel.go:328-361 | in every reachable state a valid answer is cached and returned; on any other GetURL returns the last manifest stored for the URL if there is one, and Fetch fails |
| `ManifestCache.EntryPoints` | internal/channel/channel.go:304-361 | Get is GetURL of the channel's manifest, and Fetch goes to the network whatever is cached |
| `ManifestCache.SlashMakesNoDifference` | internal/channel/channel.go:211-221 | a base with or without its last slash names the same manifest, and no base the default's |
| `ManifestCache.CacheKeepsUp` | internal/channel/channel.go:328-361 | in runs where no answer for a URL arrives while another waits to be stored, the cached manifest is the last one answered whenever none is waiting |
| `ManifestCache.OlderAnswerCanWin` | internal/channel/channel.go:342-361 | otherwise an older answer can replace a newer one, for any URL and any two valid manifests |
| `LocalPorts.PortTable.Assign` | cmd/telagui/app.go:1919-1943 | the port is the first free one of the search order, else the service port again |
| `LocalPorts.PortTable.ResolveAll` | cmd/telagui/app.go:1958-2001 | one result per request, in order, each by that search over the ports of the earlier results |
| `LocalPorts.ChosenPortsAreNew` | cmd/telagui/app.go:1974-1991 | a port that is not a fallback differs from every earlier result and was available |
| `LocalPorts.FallbackNeedsAHundred` | cmd/telagui/app.go:1982-1997 | while a request's candidates are available it falls back only after at least 100 others, 101 when its own port is available too |
| `LocalPorts.AHundredRequestsAreDistinct` | cmd/telagui/app.go:1958-2001 | up to 100 requests with available candidates get pairwise different ports |
| `Paging.ListAll` | internal/client/mount.go:61-79 | the client loop against the server's slicing ends whatever happens to the directory meanwhile, and returns the whole listing in order when it does not change |
| `Paging.PageIsWindow` | internal/agent/fileshare.go:635-650 | a page is the stretch of the listing from the offset on, no longer than the limit, and that long unless the listing ends |
| `LogRing.LogRing.Write` | internal/agent/agent.go:450-469 | the ring afterwards holds the last 1000 lines of all bytes written so far, however they were cut |
| `LogRing.LogRing.Drain` | internal/agent/agent.go:454-467 | the splitting loop records every completed line of the buffer and keeps the unfinished one |
| `LogRing.LogRing.Record` | internal/agent/agent.go:460-466 | recording a line into the ring appends it to the last lines held |
| `LogRing.LogRing.Snapshot` | internal/agent/agent.go:473-485 | the last n recorded lines in order, all that are held when n is out of range |
| `LogRing.LinesAppend` | internal/agent/agent.go:454-459 | appending bytes to a stream appends the lines they complete; cuts between writes do not matter |
| `LogRing.LinesLoseNothing` | internal/agent/agent.go:454-459 | lines and remainder put together are the stream |
| `Gateway.Dispatch` | internal/agent/gateway.go:76-84 | the handler's loop returns the first matching route |
| `Gateway.DispatchIsLongestMatch` | internal/agent/gateway.go:46-84 | over any result of the sort, dispatch takes a longest matching prefix, and reports none exactly when none matches |
| `Gateway.DispatchIsDetermined` | internal/agent/gateway.go:46-84 | with distinct paths the choice depends neither on the configuration order nor on the sort |
| `Gateway.DeterminedExactly` | internal/agent/gateway.go:46-84 | for every configuration, all results of the sort dispatch every URL alike exactly when no two different routes share a path |
| `Gateway.SomeSortChooses` | internal/agent/gateway.go:49-51 | every configured route is what its own path dispatches to under some result of the sort |

## Left out

- HTTP routing, CORS, JSON, YAML and writing the configuration to disk. A request
  is taken after decoding; a reply is its kind and its version.
- The `requireOwnerOrAdmin` gate in front of the endpoints: requests are taken as
  authorized. `LiveOwnerSafety` says when someone still is.
- Readers of the store inside a handler. Handlers exclude each other by
  `globalCfgMu`, but the store's readers hold only its own lock. Until the reload
  they can see edited token entries, compacted ACL slices and, in a delete, the
  compacted token list. `StaleLookups` and `StaleLookupsInRotation` state two of
  these; the rest is not modelled, nor are readers in the middle of a compaction loop.
- `generateToken` as such: a minted token is a parameter, assumed non-empty and
  unused. Initial configurations have unique IDs and unique non-empty tokens.
- Pairing, portals, bootstrap from the environment and the console viewer.
- Timestamps and token previews in the access view, and the order of its rows,
  which the source takes from map iteration. A row list is a map here.
- `GET /api/admin/tokens`, which reads only.
- AccessHistory.EqualVersionsSameIdentity: the register slot is not part of what stays
  the same, because another identity's PUT can displace it without a bump.
- AccessHistory.VersionCountsMutations: single identities only; a life ends at a delete
  or a rename, and the renamed identity's continues by `RenameContinuesVersion`.
- What the telad probe asks: an answer is arbitrary, and so is how long it takes.
- The dial itself, context deadlines and the retry rate of `DialContext`: a dial
  succeeds or fails arbitrarily. WireGuard, netstack, relay and UDP upgrade.
- TunnelBridge.TunnelBridge.SetTunnel: channels are numbers with a set of closed ones, so
  memory effects of closing a channel are not modelled.
- Bytes are characters, and the proxy's TrimSpace works on code points instead of
  UTF-8 sequences.
- Read errors of the sender's file, which end an encoding early with a terminator.
- The filesystem: paths are resolved, directories made and temporary files opened
  and renamed as the request's fields say. SHA-256 is an arbitrary function.
- FileWrite.ShareDir.HandleWrite: one writer at a time; concurrent uploads can
  together pass the quota gate.
- The share's other operations (delete, mkdir, rename, move, subscribe): on a
  connection they are an arbitrary effect on the share.
- ShareConnection.ServeConnection: one share; requests that name another one count as
  such an operation. What a line asks for is an arbitrary function of its place
  and text; the frame results assume that no chunk header is JSON.
- Paging.ListAll: a request that fails ends the original's loop with an error, and
  the result is cached for a time; neither is modelled.
- Lower-casing beyond what decides whether a channel name is valid.
- Update downloads, staging and restarts; requests that pin an explicit version,
  which skip the downgrade gate.
- Network answers of the manifest fetcher are arbitrary; only validation is modelled.
- LocalPorts.PortTable.ResolveAll: whether a port can be bound is an arbitrary function
  of the request and the port; ports above 65535 are not excluded, as in the source.
- Gateway targets whose URL does not parse, and the reverse proxy behind a route.
- LogRing.LogRing.Write: concurrent writers on one log writer, which the source leaves to
  the logger's own lock.
