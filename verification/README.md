# A verified model of a Discord client library's stateful core

This project models the small stateful algorithms of a Discord client library written in Go and
proves what they guarantee over whole runs. `dafny verify dfyconfig.toml` checks all of it.

- **Media encryption** (`dave.go`, `dave_crypto.go`). A DAVE session follows the group's epochs
  through a transition state machine, encrypts audio frames under a key ratchet with 32-bit nonces,
  and decrypts those of others behind a 64-bit replay window. `Uleb128`, `SecureFrame`, `Cipher`,
  `HashRatchet` and `ReplayWindow` hold the parts; `DaveModel` specifies every handler as a function
  on session values, `DaveSession` is the session as the program keeps it, each method proved equal
  to its specification. `DaveRuns` and `DaveCalls` prove properties of all sequences of calls,
  `DaveFrames` says which bytes are taken for a speaker's frame, and `DaveEndToEnd` that what is
  sent is what is heard. MLS, label expansion and AES are uninterpreted functions; GCM
  is the XOR of section 7.1 of NIST SP 800-38D with an uninterpreted tag.
- **Voice packets** (`voice.go`): the sender's loop, the decoder and the RTP layout of sections 5.1
  and 5.3.1 of RFC 3550 (`VoicePackets`), and audio through both layers (`VoiceEndToEnd`).
- **Shard opening** (`sharding.go`): the identify quota and five-second gates
  (`IdentifyCoordinator`), and opening and closing all shards as a machine of atomic lock sections
  with any number of callers (`ShardManager`, and `ShardOutcomes` for how they come out).
- **Sending limits**: the gateway write queue (`gateway_write.go`, `GatewayWriter`), the command
  cooldown (`bot/checks.go`, `Cooldown`), and the any-window bounds both rest on (`SlidingWindow`).
- **REST** (`ratelimit.go`, `restapi.go`): the two-level bucket cache (`RateLimiter`), the rolling
  log of invalid responses (`InvalidRequests`), the retry loop (`RestRetry`) and the permission
  computation (`Permissions`).
- **State cache** (`state.go`): guilds and members under in-place overwrites (`StateCache`), and what
  is found in it after each call (`StateLookups`).
- **Formats**: the byte formats on concrete numbers (`Formats`), which no round trip pins down.

Times are integers in nanoseconds. `Clocks` holds a clock that never goes backwards and the contexts
that may end a wait; elsewhere times are parameters. The methods of a class are proved equal to a function from the old state to
the new one, or promise their effect outright; the results about runs are lemmas about these
functions.

Four properties one might expect are false of the code. Each has a failing input and the condition
under which it holds:

- The count of invalid responses is not always exact. The clock is read before the lock is taken
  (`ratelimit.go:551-552` and `565-566`), so calls may come out of the order of their times. An
  entry recorded late stays counted too long (`InvalidRequests.OutOfOrderIsOvercounted`), and a call
  that is overtaken misses one another call has pruned (`InvalidRequests.OvertakenIsUndercounted`),
  which is the direction that lets the circuit breaker pass. Every report of a run is exact if and
  only if the run is timely: at each call, what its window has passed was recorded before what it
  has not, and nothing an earlier call's window had passed is inside its own
  (`InvalidRequests.CountsAreExactIff`). Ordered runs are timely.
- The cooldown's sweep is not always invisible. Its clock, too, is read before the lock
  (`bot/checks.go:164-165`), and a check overtaken by a sweep can be accepted where it was to be
  rejected (`Cooldown.OvertakenCheckIsAccepted`), so that one period holds more uses than the bound.
  Sweeping changes no answer, for any limit and any keys, if and only if no check comes early for
  what an earlier sweep found a period past (`Cooldown.SweepIsInvisibleIff`). Ordered runs satisfy it.
- A refused frame does not always leave the receiver as it was: a frame of the next generation moves
  it there before the tag is compared, and then the frames of the current generation are refused
  (`DaveEndToEnd.RefusedFrameMovesReceiver`). The receiver is unchanged if and only if the frame is
  not a fresh one of a next generation with a new key (`DaveEndToEnd.RefusalKeepsReceiver`).
- A bucket is not always filed once. If the server names another hash for it, it stays filed under
  the earlier one, since only its route's key is dropped (`ratelimit.go:526-530`):
  `RateLimiter.RenamedIsFiledTwice`. Without expiry and eviction it is filed once if and only if it
  was filed at no third key before (`RateLimiter.FiledOnceIff`).

Two results mark the edges of others and are not failures of the code. `Cipher.CountersPart` shows
that the length bound of `Cipher.CtrInvertsGcm` is tight: at the next block GCM's 32-bit counter and
CTR's 128-bit one part, but GCM encrypts no payload that long. `DaveRuns.SecondFrameOfGeneration`
says what would happen if label expansion could fail, which it does not at the lengths the ratchet
asks for (`mls/mls.go:207-219`): the generation is stored before the key is derived
(`dave.go:342-344`), so a second frame would leave under the previous key.

## Model

| member | source | states |
|---|---|---|
| Uleb128.EncodeULEB128 | dave_crypto.go:51-65 | the loop writes the seven-bit groups of the value, least significant first, and at least one byte |
| Uleb128.DecodeULEB128 | dave_crypto.go:67-92 | the loop's value, length and error are those of the recursive decoder, for every byte string |
| Uleb128.RoundTrip | dave_crypto.go:51-92 | for every 32-bit value and every suffix, decoding the encoding gives the value and the encoding's length |
| Uleb128.Canonical | dave_crypto.go:67-92 | a successful decode consumed exactly the encoding of its 32-bit result |
| Uleb128.DecodesExactlyEncodings | dave_crypto.go:67-92 | a byte string is accepted if and only if it begins with an encoding, and that encoding is unique |
| Uleb128.UlebOfU32 | dave_crypto.go:51-65 | every 32-bit value takes one to five bytes |
| Cipher.CountersAgree | dave_crypto.go:132-150 | CTR started at 2 walks through GCM's data counters as long as the low word does not overflow |
| Cipher.CountersPart | dave_crypto.go:132-150 | at the first block past GCM's maximum the two counters differ, so the bound is tight |
| Cipher.CtrInvertsGcm | dave_crypto.go:132-150 | CTR decryption from counter 2 gives back every plaintext GCM encrypted under the same nonce, up to GCM's maximum |
| SecureFrame.BuildNonce | dave_crypto.go:45-49 | the nonce buffer is eight zero bytes and the counter, little-endian |
| SecureFrame.EncryptSecureFrame | dave_crypto.go:24-43 | the frame built is the layout of ciphertext, truncated tag, nonce encoding, supplemental size and marker |
| SecureFrame.DecryptSecureFrame | dave_crypto.go:132-150 | the plaintext is returned exactly if re-sealing it gives the truncated tag |
| SecureFrame.ParseUndoesLayout | dave_crypto.go:24-49 | parsing a frame's layout gives its ciphertext, tag and nonce, for all of them |
| SecureFrame.LayoutUndoesParse | dave_crypto.go:94-130 | only byte strings of exactly that layout are parsed |
| SecureFrame.OpensExactlySealed | dave_crypto.go:132-150 | parts open to a plaintext if and only if they are what sealing it under their nonce gives |
| HashRatchet.HashRatchetGetKey | dave_crypto.go:160-174 | the loop derives the key after one secret expansion per earlier generation, or fails as soon as one does |
| HashRatchet.NoSecretLater | dave_crypto.go:160-174 | after a failed expansion no later generation has a secret |
| ReplayWindow.FreshExactly | dave.go:396-403 | a nonce passes the replay check if and only if it was not accepted before and is within 64 of the highest |
| ReplayWindow.AcceptKeepsExact | dave.go:507-525 | accepting keeps place d marked if and only if the nonce d below the highest was accepted, and the highest the maximum |
| ReplayWindow.WindowIsExactOverRuns | dave.go:396-435 | over every sequence of nonces and outcomes the window is exactly the accepted set and no nonce is accepted twice |
| ReplayWindow.ShiftedBits | dave.go:507-525 | shifting the 64-bit word moves each bit up and loses those that leave it |
| DaveSession.DaveReceiver.AcceptNonce | dave.go:507-525 | the in-place window update is the specified one |
| DaveSession.DAVESession.constructor | dave.go:59-68 | a new session is inactive with nothing pending |
| DaveSession.DAVESession.Configure | dave.go:70-93 | resets the group for a new channel or version and stops media, and reports a failed group |
| DaveSession.DAVESession.ResetForReWelcome | dave.go:109-125 | drops group, media and pending state and makes a new key package |
| DaveSession.DAVESession.HandleWelcome | dave.go:159-177 | on success takes the epoch, marks a key as pending and drops every receiver |
| DaveSession.DAVESession.HandleCommit | dave.go:179-196 | on success takes the epoch, marks a key as pending and drops every receiver |
| DaveSession.DAVESession.HandlePrepareTransition | dave.go:198-219 | records a transition unless it repeats the last one, is unsupported or has no key |
| DaveSession.DAVESession.HandleExecuteTransition | dave.go:221-247 | executes the pending transition only: derives the sender key and activates, or downgrades |
| DaveSession.DAVESession.HandlePrepareEpoch | dave.go:249-280 | restarts the group for epoch 1 and ignores later epochs |
| DaveSession.DAVESession.DeriveSenderKey | dave.go:288-321 | success keys the sender for generation 0 and nonce 0; without a base secret nothing changes, and a later failure has replaced base secret, generation and nonce |
| DaveSession.DAVESession.EncryptFrame | dave.go:323-357 | takes the next nonce, moves the ratchet before the key is derived, and deactivates at nonce 2^32 - 1 |
| DaveSession.DAVESession.DecryptFrame | dave.go:368-437 | an inactive session returns the data as it is; an active one parses, finds or creates the receiver, checks the nonce, advances one generation at most, opens, and accepts |
| DaveSession.DAVESession.ReceiveFrom | dave.go:395-437 | the receiver's part of it, in place |
| DaveSession.DAVESession.CreateReceiver | dave.go:439-484 | a receiver is keyed for generation 0 from the speaker's exported secret |
| DaveSession.DAVESession.ClearMediaState | dave.go:490-499 | media keys and receivers go, and the session is inactive |
| DaveSession.DAVESession.Reset | dave.go:539-548 | everything but the group configuration goes |
| DaveModel.EnrolLeavesOthers | dave.go:383-393 | looking up a receiver creates at most the asked one, leaves every other and the rest of the session, and changes nothing if it fails |
| DaveFrames.EveryReceiverIsKeyed | dave.go:368-484 | in every state of every run both ciphers of each receiver have the key of its generation |
| DaveFrames.DecryptsExactly | dave.go:368-437 | any bytes given to an active session come out as audio if and only if they are that audio sealed under the speaker's key of the nonce's generation, with a nonce that is news |
| DaveFrames.OnlyFramesAreTried | dave.go:372-381 | an inactive session returns the data unchanged; an active one refuses exactly what is not laid out as a frame, and stays as it was |
| DaveFrames.UnencryptedIsNamed | dave_crypto.go:94-103 | audio without the marker is refused as unencrypted, if and only if the session is active and the data long enough for a frame |
| DaveFrames.RefusedBecause | dave.go:383-425 | which of unknown speaker, no receiver, replay, generation and key a frame is refused for |
| DaveFrames.DecryptTouchesOneReceiver | dave.go:368-437 | decrypting changes no other receiver and no other part of the session |
| DaveFrames.AcceptedMovesReceiver | dave.go:401-437 | an accepted frame leaves the receiver keyed at the frame's generation with the nonce entered |
| DaveCalls.SucceedsExactly | dave.go:70-357 | for each call, the condition on the state under which it succeeds |
| DaveCalls.RefusesToSendBecause | dave.go:327-349 | which of the four reasons a frame is not sent for |
| DaveCalls.SilencedIsSilent | dave.go:221-247 | a restart of the group, a downgrade and an exhausted nonce leave no cipher, no secret, no receivers and an inactive session |
| DaveCalls.ActivityOf | dave.go:159-357 | a session is active after a call if and only if the call was an upgrade, or it was active and the call did not take encryption down; likewise the pending key |
| DaveCalls.ActiveExactly | dave.go:159-548 | over every run a session is active if and only if some executed transition turned encryption on and nothing has taken it down since |
| DaveCalls.PreparedIsPending | dave.go:198-247 | a prepared transition stays pending until a call executes, replaces or clears it |
| DaveCalls.BrokenGroupStaysInactive | dave.go:59-68 | a session that got no group never becomes active, over every run |
| DaveCalls.CallsKeepReceivers | dave.go:159-196 | receivers go only with media encryption or a new epoch, which drops them all and takes the new group |
| DaveCalls.CallsKeepTable | dave.go:359-366 | only SetSSRC and a full reset change the table of speakers |
| DaveCalls.ResetForgets | dave.go:539-548 | a full reset forgets the speakers and the last transition |
| DaveCalls.VersionAndEpochOf | dave.go:70-280 | which calls set the protocol version and the epoch, and to what |
| DaveRuns.EveryStateIsSound | dave.go:159-280 | in every state of every run an active session has a cipher and a base secret, and the pending transition is never the last executed one |
| DaveRuns.ActivationsNeedEpochs | dave.go:221-247 | activations never outnumber processed welcomes and commits, over every run |
| DaveRuns.ExecutedWasPrepared | dave.go:198-247 | every executed transition was prepared with that version and neither replaced nor cleared since |
| DaveRuns.NoTransitionRepeats | dave.go:198-247 | two successive executed transitions without a full reset between them have different ids |
| DaveRuns.ExhaustionDeactivates | dave.go:333-336 | at nonce 2^32 - 1 nothing is encrypted and the session is dormant |
| DaveRuns.DormantUntilNextEpoch | dave.go:221-247 | a dormant session stays inactive through every sequence of calls without a new welcome or commit |
| DaveRuns.NoncesAreConsecutive | dave.go:323-357 | over every run from a derivation the frames use nonces 1, 2, 3, ... without wrap, each under the key of its generation |
| DaveRuns.SecondFrameOfGeneration | dave.go:338-349 | on entering a generation both frames leave under its key if and only if it can be derived; could it not, the second would use the old key |
| DaveEndToEnd.HearsNext | dave.go:395-437 | a later frame of this or the next generation is opened to its plaintext and moves the receiver on |
| DaveEndToEnd.StreamIsHeard | dave.go:323-437 | any strictly increasing pick of a stream's frames that starts in generation 0 or 1 and skips no generation is decrypted frame by frame |
| DaveEndToEnd.SentIsHeard | dave.go:221-437 | the same from an executed transition on, for a listener of the group that knows the speaker |
| DaveEndToEnd.NewEpochFollows | dave.go:159-196 | whatever receivers a session had, after a welcome or commit it follows every known speaker of the new group from the start |
| DaveEndToEnd.SentIsHeardInNewEpoch | dave.go:159-437 | the same for a listener in any state that has taken the epoch and then made any calls but been given no frame of the speaker |
| DaveEndToEnd.RefusalKeepsReceiver | dave.go:396-437 | a refused frame leaves the receiver unchanged if and only if it is not a fresh one of the next generation with a new key |
| DaveEndToEnd.RefusedFrameMovesReceiver | dave.go:396-437 | for every receiver below generation 255 whose next key can be derived there is a frame with a wrong tag that is refused and moves it on, after which every frame of its old generation is refused |
| DaveEndToEnd.ReceiverWindowIsExact | dave.go:395-437 | over every sequence of frames a receiver is given, its window is exactly the set of the nonces it has accepted, none of them twice |
| VoicePackets.DecodeVoicePacket | voice.go:1674-1747 | the decoder, with its source loop, gives the specified packet or error for every byte string |
| VoicePackets.OpusSender | voice.go:1494-1578 | the loop writes the packets of its written turns, rewriting one header and one nonce buffer |
| VoicePackets.BuildPacket | voice.go:1534-1555 | the rewritten buffers seal into the packet with these counters, and their constant parts stay |
| VoicePackets.DecodeUndoesEncode | voice.go:1674-1747 | every well-formed packet, with sources and extension, is decoded to itself |
| VoicePackets.DecodesExactlyEncodings | voice.go:1674-1747 | a byte string is decoded to a packet if and only if it is that packet's encoding: extension data and Opus are exactly the opened text |
| VoicePackets.RefusedBecause | voice.go:1674-1715 | which part of a packet is missing when it is refused |
| VoicePackets.CountersCount | voice.go:1509-1578 | sequence and timestamp count packets written, the nonce counts turns, so a failed encryption skips a nonce only |
| VoicePackets.SentIsDecoded | voice.go:1494-1747 | the k-th packet written is decoded to its SSRC and payload, sequence k mod 2^16 and timestamp k * size mod 2^32 |
| VoicePackets.NoncesRepeatIff | voice.go:1509-1555 | two packets share nonce bytes if and only if their turns are a multiple of 2^32 apart |
| VoicePackets.NoncesAreUnique | voice.go:1509-1555 | no transport nonce repeats within 2^32 turns |
| VoiceEndToEnd.VoiceIsHeard | voice.go:1494-1670 | the audio of any packets picked up in order comes out of a group member as it went in, through transport and media encryption |
| IdentifyCoordinator.IdentifyCoordinator.AcquireLocked | sharding.go:167-197 | one locked pass: quota reset, gate, grant or delay, as specified |
| IdentifyCoordinator.IdentifyCoordinator.Acquire | sharding.go:154-199 | a grant takes one unit of quota and shuts its bucket's gate for five seconds, no earlier than the gate allows; there is no other error than a bad shard, an ended context and an exhausted quota, and it changes no gate |
| IdentifyCoordinator.IdentifyCoordinator.RefreshQuota | sharding.go:203-220 | a valid limit replaces the quota and an invalid one changes nothing |
| IdentifyCoordinator.IdentifyCoordinator.ResetQuotaLocked | sharding.go:255-261 | a period over restarts the quota |
| IdentifyCoordinator.IdentifyCoordinator.Status | sharding.go:224-241 | restarts a quota period that is over and reports the quota, with no negative reset delay |
| IdentifyCoordinator.EveryRunKeepsQuota | sharding.go:154-261 | over every run of passes and status requests each period grants at most the total and periods are a reset window apart |
| IdentifyCoordinator.EveryRunKeepsGates | sharding.go:154-261 | over every run whose refreshes keep the concurrency, grants in one bucket are five seconds apart |
| IdentifyCoordinator.RemainingInRange | sharding.go:154-261 | the remaining quota stays between 0 and the total, over every run, refreshed or not |
| IdentifyCoordinator.NoWindowOverTwiceTotal | sharding.go:154-261 | without a refresh no half-open interval of the reset window's length holds more than twice the total of grants |
| IdentifyCoordinator.NoGateOverConcurrency | sharding.go:183-220 | no half-open five seconds hold more grants than the concurrency, over every run whose refreshes keep it |
| IdentifyCoordinator.DelayIsExact | sharding.go:183-197 | the announced delay is exactly what is left of the gate |
| IdentifyCoordinator.GrantsExactly | sharding.go:166-197 | a pass is granted if and only if there is quota and the gate is open, and takes one unit and shuts that gate only |
| IdentifyCoordinator.QuotaReturnsExactly | sharding.go:167-181 | the wait announced with an exhausted quota is exactly what is left of the period |
| ShardManager.Manager.EnterOpen | sharding.go:486-506 | Open's first lock section |
| ShardManager.Manager.SettleOpen | sharding.go:532-547 | Open's second lock section: opens the manager if no session failed and nobody is closing, and otherwise leaves it for the cleanup |
| ShardManager.Manager.FinishOpen | sharding.go:549-567 | Open's last lock section |
| ShardManager.Manager.EnterClose | sharding.go:571-596 | Close's first lock section |
| ShardManager.Manager.FinishClose | sharding.go:598-617 | Close's last lock section |
| ShardManager.EveryInterleavingKeepsInv | sharding.go:486-617 | the protocol's invariant holds after every interleaving of any number of callers |
| ShardManager.RunsFollowThePattern | sharding.go:486-617 | every run repeats: leave Closed, all opening done, cleanup begins, cleanup ends, return to Closed |
| ShardManager.OnePassPerCycle | sharding.go:486-617 | each Open that leaves Closed is matched by exactly one cleanup pass, begun after all opening is done |
| ShardManager.ChannelsCloseOnce | sharding.go:486-617 | no channel is closed twice, and every channel has been closed once the manager is Closed |
| ShardManager.CloseFindsWhatItNeeds | sharding.go:571-596 | Close never meets a missing cancel function or channel |
| ShardManager.BlockedCallersHaveAPartner | sharding.go:486-617 | while a caller is blocked some other caller in the protocol can move |
| ShardOutcomes.FailedRoundIsNeverOpen | sharding.go:532-567 | after an opening in which a session failed there is a closeSessions pass, and the manager is not open before it has left Closed again |
| ShardOutcomes.SettlesExactly | sharding.go:532-547 | an Open succeeds if and only if every session opened and nobody is closing |
| ShardOutcomes.WithoutCloseOpeningDecides | sharding.go:486-567 | in runs without a Close the manager ends up open, without a pass, if every session opened, and is not open if one failed |
| ShardOutcomes.OpenStartsExactly | sharding.go:486-506 | an Open goes ahead if and only if the manager is Closed |
| ShardOutcomes.CloseReturnsFromClosed | sharding.go:571-617 | a Close that has returned has seen the manager Closed since its call, in every interleaving |
| GatewayWriter.GatewayWriteQueue.Prune | gateway_write.go:137-150 | exactly the sends that have left the window are dropped |
| GatewayWriter.GatewayWriteQueue.WaitForSlot | gateway_write.go:137-160 | it returns with room in the window, and whatever it waited was positive and at most the window |
| GatewayWriter.GatewayWriteQueue.Serve | gateway_write.go:105-134 | a request is answered once, logged exactly if it was written, and written unless a context ends or the connection fails |
| GatewayWriter.GatewayWriteQueue.FailPending | gateway_write.go:169-178 | every request left is answered with the failure |
| GatewayWriter.GatewayWriteQueue.Run | gateway_write.go:99-135 | all requests are answered once in order, the written ones are on the wire in order, all of them if no context ends and no write fails, and the whole send log is spaced by the limit |
| GatewayWriter.NoWindowOverLimit | gateway_write.go:99-160 | no half-open 60 seconds hold more than 120 recorded sends |
| SlidingWindow.SpacedIffBounded | gateway_write.go:137-160 | a sorted log keeps every window of a width within a limit if and only if it is spaced by that width over that many places |
| Cooldown.Cooldown.Check | bot/checks.go:162-186 | sweep loop, window and count are the specified step |
| Cooldown.SweepIsInvisible | bot/checks.go:162-186 | over every steady run, which every ordered one is, the answers are those of a version that never sweeps |
| Cooldown.SweepIsInvisibleIff | bot/checks.go:162-186 | calls at given times are answered as without sweeping, for every limit and all keys, if and only if the times are steady |
| Cooldown.OrderedIsSteady | bot/checks.go:162-186 | times in order are steady |
| Cooldown.OvertakenCheckIsAccepted | bot/checks.go:164-173 | a check overtaken by a sweep is accepted, against the answer without sweeping and against the bound |
| Cooldown.NoPeriodOverTwiceLimit | bot/checks.go:162-186 | in a steady run with a key's checks in order no half-open period accepts more than 2 * limit - 1 uses of the key |
| Cooldown.UnorderedKeyExceeds | bot/checks.go:174-186 | with a key's checks out of order even a steady run can exceed the bound |
| Cooldown.RejectionIsEarned | bot/checks.go:174-184 | in such a run a check is rejected only if as many uses as the limit were accepted within the period that ends with it |
| Cooldown.RetryAfterIsExact | bot/checks.go:178-184 | after a rejection the next check past all earlier ones of the key is accepted if and only if the announced delay has passed, whatever other keys are checked between, in order |
| RateLimiter.RenderedIsInjective | ratelimit.go:654-660 | different keys of digests are rendered differently, and never as the empty string |
| RateLimiter.RateLimiter.CleanupBuckets | ratelimit.go:184-210 | nothing used within the TTL is dropped; once a minute or half the TTL has passed nothing stale stays, and before that nothing goes |
| RateLimiter.RateLimiter.RemoveDanglingBucketHashes | ratelimit.go:234-241 | exactly the mappings to missing buckets go |
| RateLimiter.RateLimiter.EvictBuckets | ratelimit.go:212-231 | only as many buckets go as needed, and none used later than one kept |
| RateLimiter.RateLimiter.MakeBucketRoom | ratelimit.go:212-232 | the same with the mappings to evicted buckets |
| RateLimiter.RateLimiter.EvictMappings | ratelimit.go:243-259 | only as many mappings go as needed, and none used later than one kept |
| RateLimiter.RateLimiter.SetBucketHash | ratelimit.go:243-263 | the mapping is recorded, and others are evicted, least recently used first, only if it is new and does not fit |
| RateLimiter.RateLimiter.GetRouteBucket | ratelimit.go:142-182 | a lookup follows every fresh mapping, returns an unmapped route's own fresh bucket again and makes one only if there is none; every other fresh bucket and mapping stays, except the least recently used if the cache is full |
| RateLimiter.RateLimiter.RegisterBucketHash | ratelimit.go:506-533 | the route leads to the bucket filed under the hash; a bucket filed only at its route or only there is filed at most there afterwards; every other fresh bucket and mapping stays, except the least recently used if there is no room |
| RateLimiter.FiledOnceIff | ratelimit.go:506-533 | without expiry and eviction a bucket is filed once after a registration if and only if it was filed at no third key |
| RateLimiter.RenamedIsFiledTwice | ratelimit.go:526-530 | a bucket registered under one new hash and then another is filed under both |
| InvalidRequests.RateLimiter.PruneInvalidRequests | ratelimit.go:585-599 | the loop drops the leading entries up to the cutoff and lowers the flag below the threshold |
| InvalidRequests.RateLimiter.InvalidRequestStatusLocked | ratelimit.go:601-635 | the status reported and the flag raised |
| InvalidRequests.RateLimiter.RecordResponse | ratelimit.go:550-561 | prunes, records 401, 403 and 429, and reports |
| InvalidRequests.RateLimiter.InvalidRequestStatus | ratelimit.go:564-570 | prunes and reports without raising the flag |
| InvalidRequests.PruneIsExactIff | ratelimit.go:585-599 | pruning from the front drops all the old entries if and only if no old entry stands behind a recent one |
| InvalidRequests.CountsAreExactIff | ratelimit.go:550-624 | over every run, in any order of times, all reported counts are the numbers of invalid responses of the whole history in the window if and only if the run is timely |
| InvalidRequests.OrderedIsTimely | ratelimit.go:550-624 | calls in the order of their times are timely |
| InvalidRequests.OutOfOrderIsOvercounted | ratelimit.go:550-599 | two records out of order make a later count too high |
| InvalidRequests.OvertakenIsUndercounted | ratelimit.go:564-599 | a call overtaken by another one that prunes reports a count that is too low |
| InvalidRequests.BlockedExactly | ratelimit.go:585-642 | in a timely run a report blocks if and only if the 401, 403 and 429 responses of the window have reached the limit, and warns if and only if they have reached the threshold |
| InvalidRequests.WarnsOncePerExcursion | ratelimit.go:550-624 | over every run a call triggers the warning if and only if it records a response, the count has reached the threshold, and every earlier trigger was followed by a pruned count below it |
| RestRetry.RequestWithLockedBucket | restapi.go:370-540 | the loop's actions and result are the specified ones for every sequence of outcomes |
| RestRetry.RetriesExactlyWhen | restapi.go:387-538 | another attempt is made if and only if the reply may be repeated, retries are left and the wait is acceptable, and a body is returned if and only if the reply is a success |
| RestRetry.WaitForRetry | restapi.go:600-625 | negative waits and waits beyond the total are refused before they begin |
| RestRetry.RateLimitDelayBounds | restapi.go:643-659 | the jittered wait is at least the announced one, at most a tenth longer and within the maximum |
| RestRetry.RestDelayBounds | restapi.go:627-641 | backoff lies between 250 ms and 2.5 s and grows with the retry despite the jitter |
| RestRetry.AttemptsAndWaitsAreBounded | restapi.go:370-540 | at most max(0, MaxRestRetries - sequence) + 1 attempts and at most MaxRetryWait waited in all |
| RestRetry.LockIsReleased | restapi.go:370-540 | on every path each bucket locked is the one released next, once; none is held on return or while waiting, and nothing is sent without one |
| RestRetry.UnsafeResentOnlyAfter429 | restapi.go:404-531 | unless configured otherwise, a method other than GET, HEAD, PUT, DELETE, OPTIONS and TRACE is sent again only after a 429 |
| RestRetry.ResentOnlyAfter | restapi.go:404-531 | any request is sent again only after a network error, a 500, 502, 504 or 524, or a 429 |
| RestRetry.SafeIsResentExactly | restapi.go:396-531 | a repeatable method is sent again after them if and only if retries are left and the backoff fits |
| RestRetry.RateLimitedIsResentExactly | restapi.go:459-510 | any method is sent again after a 429 if and only if that is wanted, announced, within both maxima and retries are left |
| RestRetry.BackoffDoubles | restapi.go:627-641 | the backoff doubles from a quarter second to two seconds, with less than a quarter on top |
| RestRetry.EndsBecause | restapi.go:387-538 | for each error, the replies it is returned for |
| RestRetry.SendsUnlessRefused | restapi.go:370-385 | nothing is sent without a limiter or past the invalid-request limit, and otherwise the first attempt is |
| RestRetry.BodyIsLastReply | restapi.go:451-457 | a body is returned if and only if the last reply is a success, and a success is never retried |
| RestRetry.RateLimitIsWaitedOut | restapi.go:459-510 | a 429 is retried only after at least the announced time |
| Permissions.MemberPermissions | restapi.go:1193-1256 | the method computes the specified mask |
| Permissions.RolePermissions | restapi.go:1199-1215 | the nested loops take the union of the first role of the guild's id and the member's roles |
| Permissions.RoleOverwrites | restapi.go:1230-1243 | the nested loops gather all denies and allows of the member's roles and apply them at once |
| Permissions.ComputedByRule | restapi.go:1193-1256 | with unique ids a permission is in the mask if and only if the most specific deciding level allows it, with the owner and administrator rules |
| Permissions.OrderDoesNotMatter | restapi.go:1193-1256 | the mask does not depend on the order of roles and overwrites |
| Permissions.DuplicatesMakeOrderMatter | restapi.go:1245-1251 | two overwrites of one member do make it depend on the order |
| StateCache.Cache.CreateMemberMap | state.go:86-92 | the loop builds the list's index |
| StateCache.Cache.AddGuild | state.go:112-190 | index rebuilt for a new list, absent parts taken from the cached guild, which is overwritten in place; a new guild is appended |
| StateCache.Cache.RemoveGuild | state.go:193-219 | the guild leaves both maps and the first of its id leaves the list |
| StateCache.Cache.AddMember | state.go:464-501 | a new member is appended and indexed; a known one is overwritten where it is |
| StateCache.Cache.RemoveMember | state.go:504-536 | index and list lose the user |
| StateCache.Cache.Ready | state.go:1090-1130 | the ready guilds replace the list and enter the maps |
| StateCache.OverwriteKeepsIndexed | state.go:479-486 | overwriting an object with a record of the same user keeps every list and index in agreement, shared or not |
| StateCache.EveryRunAgrees | state.go:86-1130 | in every state of every run both maps have the same guilds, and each index holds exactly the objects of its guild's list, by user id |
| StateCache.AddedIsFound | state.go:464-501 | an added member is found with its data, in index and list, and other members of the guild stay |
| StateCache.RemovedIsGone | state.go:504-536 | a removed member is in neither index nor list, and other members of the guild stay |
| StateLookups.AddedGuildIsFound | state.go:112-190 | an added guild is found with its member count and exactly its listed members; what it lacks is what was cached |
| StateLookups.AddedGuildLeavesOthers | state.go:112-190 | other guilds are found as before, and a guild is appended to the list if and only if it was not cached |
| StateLookups.RemovedGuildIsGone | state.go:193-219 | a removed guild is found no more and listed once less; others are found and listed as before |
| StateLookups.AddedMemberLeavesOthers | state.go:464-486 | adding a member succeeds if and only if its guild is cached, and changes no other guild's members and no other user's record |
| StateLookups.AddedMemberIsAppended | state.go:464-486 | a new member is appended to its guild's list and a known one leaves the list as it is |
| StateLookups.RemovedMemberLeavesRest | state.go:504-536 | removing succeeds if and only if the member is cached, takes one entry from the list and leaves everything else |
| StateLookups.ReadyIsFound | state.go:1090-1130 | after a ready event its guilds are the list and each is found with the members of its last entry; other guilds are still found |
| StateLookups.DisabledReadyLeaves | state.go:1100-1112 | without state nothing is listed and everything is found as before |
| Formats.FrameBytes | dave_crypto.go:24-43 | the bytes of a frame with nonce 300 |
| Formats.TrailingNonceByte | dave_crypto_test.go:47-55 | a byte after the nonce is refused |
| Formats.UlebBytes | dave_crypto_test.go:29-45 | encodings of 0 and 300 and three malformed ones |
| Formats.UlebTooBig | dave_crypto_test.go:29-45 | the overflowing and the too long encoding |
| Formats.NonceBytes | dave_crypto.go:45-49 | the twelve nonce bytes of a counter |
| Formats.FirstKeys | dave_crypto.go:160-174 | labels, contexts and lengths of the first two generations' keys |
| Formats.ExportedFor258 | dave.go:294-303 | label, context and length of an exported secret, and the bytes of a group id |
| Formats.VoiceHeaderBytes | voice.go:1494-1555 | the twelve header bytes of a voice packet |
| Formats.ParsesDecimals | dave.go:77-80 | decimal numbers are read back up to 64 bits |

## Left out

- Fields of `DAVESession` are grouped into records (sender, transition, MLS) that its methods reassign; the model has the same fields and updates, but no update of a single field in place.
- MLS group messages, label expansion, AES and GHASH are uninterpreted: whether a call on the group succeeds is an input, and nothing is claimed about secrecy or forgery.
- DaveSession.DAVESession.HandlePrepareEpoch: the key package it returns is reduced to whether one was made.
- Shifts and disjoint ORs on words are written as products, sums and binary digits; permission masks are sets of bit positions.
- Slices are values: backing arrays shared between slices (compaction in `waitForSlot`, removal in `MemberRemove`) are not modelled.
- IdentifyCoordinator.NoWindowOverTwiceTotal: states runs without a refresh, which may restore the quota at any time.
- IdentifyCoordinator.NoGateOverConcurrency: states runs whose refreshes keep the concurrency; another one drops all gates.
- IdentifyCoordinator.EveryRunKeepsQuota: states runs without a refresh, for the same reason as the bound it serves.
- IdentifyCoordinator.IdentifyCoordinator.Acquire: states one caller alone on the clock; runs of many callers are lemmas about the locked pass.
- ShardManager: contexts, the sessions' own opening and the errors collected by `closeSessions` are reduced to whether opening failed; fairness of the scheduler is not modelled.
- GatewayWriter.GatewayWriteQueue.Serve: the contexts of the request and of the queue are one.
- GatewayWriter.GatewayWriteQueue.Run: the requests are submitted before it starts; their arrival during the run is not modelled.
- Cooldown.SweepIsInvisible: states runs without `Reset` and `ResetAll`, which the class has.
- Cooldown.NoPeriodOverTwiceLimit: states that steady times and order within the key are enough, and `Cooldown.OvertakenCheckIsAccepted` and `Cooldown.UnorderedKeyExceeds` that neither can be left away; not that a run which lacks them must exceed the bound. Runs with resets are not stated.
- Cooldown.RetryAfterIsExact: states checks of other keys in the order of their times, none after the check in question.
- RateLimiter: buckets of caller-supplied keys (`GetBucket`) are not modelled; such a key may begin like a discovered one. The parsing in `Bucket.Release`, the wait computation and the global limit are left out.
- RateLimiter.RenderedIsInjective: states keys whose major part is a 64-character digest, which route keys have; the maps are keyed by the parts of such keys.
- InvalidRequests.RateLimiter.InvalidRequestStatusLocked: `ResetAfter` is left out, since it reads the clock a second time; so it is in `RecordResponse` and `InvalidRequestStatus`.
- RateLimiter.FiledOnceIff: states a cache without expiry and eviction; with them a filing may also go by itself, as the frame of `RegisterBucketHash` says.
- RestRetry: request cloning, body limits and error wrapping are reduced to outcomes; two requests that share a limiter are not interleaved.
- StateCache: objects live in an explicit heap from references to records, so that sharing and overwriting are visible; of a guild only id, members and count are kept. Roles, emojis, channels, threads and presences have no agreement between list and map on every path.
- StateCache.Cache.AddGuild: of the fields merged from the cached guild only members and member count are kept.
- StateCache.Cache.Ready: the channel index is left out.
- StateLookups.AddedMemberLeavesOthers: of the added user's record in another guild it states only that it is there or not; the same object may be listed in both.
- StateCache.EveryRunAgrees: states runs in which no guild lists a user twice; with repeated users the index keeps the last entry only.
- VoicePackets: pacing, speaking updates, the UDP buffer size and reconnecting are left out; a transport cipher is any pair of seal and open that accepts exactly what was sealed.
- REST endpoint wrappers, JSON types, event dispatch, locales and the `mls` package are left out.
