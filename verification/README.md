# Rootmail, verified

Rootmail is an email platform: it sends on behalf of customers and of their clients, threads the replies, runs
drip sequences and campaigns, and watches over domains and reputations. This project models the parts of it
where a mistake is silent and expensive, and proves what those parts promise.

- **Auth mail** (`AuthProtocol`, `AuthSafety`, `AuthTheorems`, `AuthVault`). A one-time credential is mailed once
  or not at all. One message row, one vault entry, the provider, the audit trail and a clock are shared by any
  number of jobs and reconciliation sweeps and by the route that disconnects a sending provider; every `await` is an
  interleaving and crash point. The provider call is taken to end within five seconds, as the source bounds it.
- **Codecs.** Base32 over a wrapping 32-bit accumulator (`Base32`), the table-driven CRC and the PNG writer
  (`Crc32`, `Png`), the drawing surface (`Surface`), canonical JSON for signatures (`CanonicalJson`, `JsonText`,
  `ProofSigning`), message-id headers (`MessageIds`) and IPv6 literals with the SMTP address guard (`Ipv6Text`,
  `SmtpGuard`). Each fast form is proved against an independent definition and read back.
- **Control loops on one tenant row** (`TenantControl`, `TenantRuns`, `TenantOverlaps`, `DkimSelector`,
  `Reputation`). DKIM rotation, DNS drift, reputation enforcement and the routes that write the same row, each as the
  updates it makes, as properties of every run, and with reads and writes that interleave.
- **Queues and interpreters.** Drip sequences cut at 50 iterations a tick (`Sequences`), the send meter and the
  deferral loop (`Throttle`), the waitlist over its append-only log (`Waitlist`), conversations (`Subjects`,
  `Conversations`, `ConversationRuns`) and campaign fan-out (`Campaigns`). `SequenceOverlaps`, `WaitlistOverlaps` and
  `ConversationOverlaps` let reads and writes interleave.
- **Segments** (`Segments`): the rule compiler under SQL's three truth values, against a two-valued reading.
- **Credential envelopes** (`Envelope`): re-wrapping under a new key, over ideal encryption.

`Prelude`, `Texts` and `Histories` hold what the others share. Texts are sequences of UTF-16 code units.

Database tables are sequences or maps owned by a class, transactions and single commands are atomic, and time is
an integer number of milliseconds (a real number in `Sequences`).

## Where the code and its promises part

Each of these is a theorem here, with the exact condition where there is one.

- A terminal status of an auth message can change once: the owner's late write replaces the reconciler's failure.
  `AuthTheorems.TerminalChangesIff` has the exact step, `AuthTheorems.TerminalNeverChangesIff` the exact time before
  which it cannot happen, and `AuthTheorems.StatusHistory` how far a history can go.
- `canonicalize` assigns keys onto a plain object, so a member named `__proto__` is not part of the text.
- `buildReferences` says it keeps the root and the most recent ids. The parser it starts from keeps the first 20 ids
  of the first 4000 units, so a longer chain loses its newest entries (`MessageIds.NewestKeptIff`).
- `nextDkimSelector` promises that a selector is never reused. It is, exactly when the first selector already
  carries the stamp of a month still to come (`DkimSelector.ReuseIff`).
- A rotation started by hand does not wait for an older selector to retire, and its promotion cuts those seven days
  short (`TenantRuns.PreviousKeptIff`, `TenantRuns.HastyRotationsLoseSelector`).
- Sweeps and routes act on the row as they read it, and write without looking again. A single DNS sweep or a single
  press of the verify button that read the row before a reputation pause can write over that pause
  (`TenantOverlaps.PauseLastsIff` has the exact condition). The two sweeps share a queue of concurrency one, so for
  them this takes a second worker process; the verify button needs none.
- The verify button marks a tenant failed without recording a failure, and then no good check brings its sending back
  until a sweep has failed too or the button is pressed again (`TenantRuns.StrandedIff`).
- A send never clears a waiting reply quietly, says its comment. It does when it read the thread before the reply
  arrived and writes afterwards; arriving replies take no lock (`ConversationOverlaps.WaitsIff`).
- Two overlapping signups of one new address make two contacts when they belong to no client, because the unique index
  does not compare rows without one (`WaitlistOverlaps.OneContactIff`).
- A sequence tick writes its row at the end and without looking again: it revives an enrollment that was exited
  meanwhile (`SequenceOverlaps.ExitLastsIff`), and if it throws after a send, the next tick repeats that send
  (`SequenceOverlaps.SendsOnceIff`).
- `displaySubject` keeps the base of a subject only up to ten stacked prefixes; beyond that a second send splits
  the conversation.
- The value of `contains` goes into an ILIKE pattern as it is, so `%`, `_` and backslash in it act as wildcards.
- Field names are looked up on a plain object, so `toString`, `constructor` and `isPrototypeOf` pass validation
  and compare a constant.
- The send meter can grant more than its limit, whatever the limit, once an increment may land a minute or more after
  the end of its window (`Throttle.LimitHoldsIff`).
- A campaign cancelled after its last check is reported as sent, and one cancelled between the job's first read and
  its first write is mailed to everybody. A cancel call that read the row before the job's end and writes after it
  marks a campaign cancelled that went out in full (`Campaigns.CancelTakesEffectIff`).
- The key rotation script reads all credentials first and writes them back one by one without looking again; one that
  is saved in between is replaced by the old one (`Envelope.CredentialLostIff`).

## Model

| member | source | states |
|---|---|---|
| `AuthSafety.ClaimKeeps` | apps/worker/src/auth-send.ts:29-34 | the compare-and-set claim keeps the invariant: one owner, content with the vault or with the owner, legal history |
| `AuthSafety.TakingKeeps` | apps/worker/src/auth-send.ts:41-43 | GETDEL and the second lifetime check keep the invariant, whatever the store answers |
| `AuthSafety.FailCasKeeps` | apps/worker/src/auth-send.ts:50-60 | the exception handler fails only a row it may fail, also when the write itself throws late |
| `AuthSafety.ReconcileKeeps` | apps/worker/src/auth-reconcile.ts:17-25 | the reconciler's transaction keeps the invariant with any jobs still in flight |
| `AuthSafety.NextKeepsInv` | apps/worker/src/auth-send.ts:12-64 | every step of every party, crash and time-out keeps the invariant |
| `AuthSafety.RunKeepsInv` | apps/worker/src/auth-send.ts:12-64 | the invariant holds after every run of any number of jobs, sweeps and crashes |
| `AuthTheorems.AtMostOneSubmission` | apps/worker/src/auth-send.ts:41-45 | in every reachable state the provider has received at most one request, carrying the content once taken from the vault before the deadline margin |
| `AuthTheorems.SubmissionNeedsClaimAndContent` | apps/worker/src/auth-send.ts:29-44 | a request leaves only from the job whose claim won and whose GETDEL returned the content |
| `AuthTheorems.StatusHistory` | apps/worker/src/auth-send.ts:30-60 | the status history is always a prefix of admit, claim, outcome, correction or of admit, failure; no return to queued, sent absorbs, at most one failed audit entry |
| `AuthTheorems.OutcomeEvidence` | apps/worker/src/auth-send.ts:35-49 | sent means one request was received, suppressed means none was, failed without a claim means none was |
| `AuthTheorems.ReconcilerNeverMeetsACall` | apps/worker/src/auth-reconcile.ts:8-25 | when the reconciler writes, no provider call is in flight and any request is older than the grace period |
| `AuthTheorems.SomeRunSends` | apps/worker/src/auth-send.ts:29-49 | the protocol can deliver: an undisturbed run ends in sent with one request and the right audit trail |
| `AuthTheorems.TerminalChangesIff` | apps/worker/src/auth-send.ts:35-48 | in every reachable state a step changes a terminal status exactly when a job writes its outcome over a failure |
| `AuthTheorems.TerminalNeverChangesIff` | apps/worker/src/auth-reconcile.ts:10-20 | and some run has such a step at a given time exactly from a minute after the expiry on, when the reconciler may fail the row |
| `AuthTheorems.TerminalStatusCanChange` | apps/worker/src/auth-send.ts:46-48 | for every expiry and every later time the run in which the owner's late write replaces the reconciler's failure |
| `AuthSafety.DisconnectKeeps` | apps/api/src/routes/sending-providers.ts:343-349 | disconnecting a provider fails a queued message without an audit entry, and keeps the invariant |
| `AuthVault.Vault.Put` | packages/core/src/auth-content.ts:91-98 | a put stores only with a valid lifetime and only where no live entry is; otherwise it reports why and changes nothing |
| `AuthVault.Vault.Take` | packages/core/src/auth-content.ts:100-108 | a take that gets past the checks always removes the entry, and hands it out only for the exact scope |
| `AuthVault.Vault.Discard` | packages/core/src/auth-content.ts:110-113 | a discard removes the one entry |
| `AuthVault.TakenAsPut` | packages/core/src/auth-content.ts:44-75 | what was put comes back for exactly the scope it was put for, deadline and client included |
| `AuthVault.HandedOutAtMostOncePerPut` | packages/core/src/auth-content.ts:91-113 | in every run of puts, takes and discards content is handed out at most once per put |
| `Base32.Base32Encode` | packages/core/src/mfa.ts:13-27 | the 32-bit loop computes the unpadded encoding of section 6 of RFC 4648 |
| `Base32.ShiftInAppends` | packages/core/src/mfa.ts:18 | the wrap-around of the accumulator never reaches its pending low bits |
| `Base32.TakeSymbol` | packages/core/src/mfa.ts:21 | the character taken is the next five bits of input |
| `Base32.QuintetsAppend` | packages/core/src/mfa.ts:20-23 | the encoding of a bit string is read off in whole groups of five |
| `Base32.Base32Decode` | packages/core/src/mfa.ts:29-45 | the decoder loop computes the octets of the five-bit symbols, skipping what is not in the alphabet |
| `Base32.RoundTrip` | packages/core/src/mfa.ts:13-45 | decoding an encoding gives the octets back, for every octet string |
| `Crc32.BuildTable` | packages/core/src/png.ts:32-40 | the table holds the eight-step remainder of every octet |
| `Crc32.StepsAreLinear` | packages/core/src/png.ts:36 | shift steps distribute over exclusive or |
| `Crc32.FeedingIsAdding` | packages/core/src/png.ts:44 | feeding bits in front of a register equals adding them first and shifting after |
| `Crc32.TableStep` | packages/core/src/png.ts:44 | one table look-up equals eight bit-serial steps |
| `Crc32.ComputeCrc32` | packages/core/src/png.ts:42-46 | the table-driven checksum is the bit-serial CRC of section 3.4 of RFC 2083, for every octet string |
| `Png.Chunk` | packages/core/src/png.ts:48-55 | a chunk is length, type, data and checksum; a length beyond 32 bits throws |
| `Png.FillScanlines` | packages/core/src/png.ts:163-173 | every row is copied behind a zero filter octet, in place |
| `Png.EncodePng` | packages/core/src/png.ts:151-181 | the whole file, read from the first octet of the view on, and exactly when encoding throws |
| `Png.ChunkReadsBack` | packages/core/src/png.ts:48-55 | a reader of section 3.2 of RFC 2083 gets type, data and the following octets back from a chunk |
| `Png.ScanlinesReadBack` | packages/core/src/png.ts:165-173 | removing the filter octets gives the rows back |
| `Png.ReadsBack` | packages/core/src/png.ts:151-181 | reading an encoded file gives width, height and the original pixels back, with deflate inverted |
| `Surface.Raster.Clear` | packages/core/src/png.ts:72-78 | every pixel takes the colour |
| `Surface.Raster.PaintRow` | packages/core/src/png.ts:86-91 | exactly one run of one row is painted, over the flat index |
| `Surface.Raster.Rect` | packages/core/src/png.ts:80-93 | exactly the rounded and clipped rectangle is painted and every other pixel kept, for any coordinates |
| `Surface.Raster.Downsample` | packages/core/src/png.ts:115-141 | every pixel of the result is the rounded mean of its block; a factor up to one returns the surface itself |
| `Surface.RowsApart` | packages/core/src/png.ts:86 | the flat index tells rows and columns apart |
| `Surface.BlockMeanBetween` | packages/core/src/png.ts:123-137 | a block mean lies between the smallest and largest sample |
| `Surface.MeanNearest` | packages/core/src/png.ts:135 | the rounded mean is the nearest integer, halves up |
| `Surface.MeanIsByte` | packages/core/src/png.ts:135-137 | every mean fits an octet, so storing it loses nothing |
| `Surface.UniformKept` | packages/core/src/png.ts:115-141 | a block of one colour reduces to that colour |
| `CanonicalJson.SortKeysCorrect` | packages/core/src/proof.ts:170-182 | sorting yields the canonical arrangement at every depth and keeps the meaning except for __proto__ members |
| `CanonicalJson.RebuildOrdered` | packages/core/src/proof.ts:174-180 | an object rebuilt from sorted keys enumerates index keys by value first, then the rest by code unit |
| `CanonicalJson.DecimalInjective` | packages/core/src/proof.ts:174-180 | index keys are told apart by their value |
| `CanonicalJson.CanonicalUnique` | packages/core/src/proof.ts:170-182 | two canonical values that mean the same are the same value |
| `JsonText.BodyReadsBack` | packages/core/src/proof.ts:183 | escaping a string is undone by reading it, unpaired surrogates included |
| `JsonText.ValueReadsBack` | packages/core/src/proof.ts:183 | a printed value is read back exactly, in front of any delimiter |
| `JsonText.PrintReadsBack` | packages/core/src/proof.ts:183 | printing is unambiguous |
| `ProofSigning.SameTextIffSameMeaning` | packages/core/src/proof.ts:169-184 | same canonical text exactly when equal up to key order once __proto__ members are left out |
| `ProofSigning.SameTextIffEqualUpToKeyOrder` | packages/core/src/proof.ts:168-184 | without such members: same text exactly when equal up to key order, at any nesting |
| `ProofSigning.CanonicalizeAgain` | packages/core/src/proof.ts:168-184 | reading the text and canonicalizing again changes nothing |
| `ProofSigning.ProtoIsNotSigned` | packages/core/src/proof.ts:176-179 | two bundles that differ in a __proto__ member share one text |
| `ProofSigning.VerifyProof` | packages/core/src/proof.ts:201-219 | the key loop accepts exactly signatures by a trusted key over the canonical text |
| `ProofSigning.SignatureCoversMeaning` | packages/core/src/proof.ts:193-219 | a signed bundle vouches for exactly the bundles with its meaning |
| `MessageIds.ParseMessageIds` | packages/core/src/message-id.ts:39-51 | the scanning loop yields the first 20 different bracketed ids of the first 4000 units |
| `MessageIds.ParsedShape` | packages/core/src/message-id.ts:39-51 | at most 20 well-formed ids, none twice |
| `MessageIds.NewestKeptIff` | packages/core/src/message-id.ts:74-86 | a reply keeps the newest id of a well-formed chain exactly when the chain has at most 20 ids and 4000 units |
| `MessageIds.NewestInHeaderKeptIff` | packages/core/src/message-id.ts:39-86 | for any header: the last of its different ids is kept exactly when it is the parent or one of at most 20 |
| `MessageIds.ChainOf21LosesNewest` | packages/core/src/message-id.ts:48 | a chain of 21 ids whose newest is lost while the root is kept |
| `MessageIds.JoinedReadsBack` | packages/core/src/message-id.ts:39-86 | parsing a joined list gives back a front of it, and all of it exactly when it fits 4000 units |
| `MessageIds.BuildReferences` | packages/core/src/message-id.ts:79-86 | the written value joins the kept ids |
| `MessageIds.KeptShape` | packages/core/src/message-id.ts:80-84 | at most 20 different ids, the root first and the parent last |
| `MessageIds.KeptDropsAtMostOne` | packages/core/src/message-id.ts:82-84 | only a full chain without the parent loses an id, and it is the second |
| `MessageIds.ReferencesReadBack` | packages/core/src/message-id.ts:79-86 | what a reply refers to, and when that header reads back in full |
| `MessageIds.CandidatesShape` | packages/core/src/message-id.ts:61-70 | every id of either header once, In-Reply-To first |
| `MessageIds.ReplyThreadsToParent` | packages/core/src/message-id.ts:61-86 | a reply carrying our headers threads to the parent first, then along the kept chain from its newest id to its oldest |
| `Ipv6Text.QuadReadsBack` | packages/core/src/smtp-guard.ts:75-79 | a dotted quad is read as its four numbers |
| `Ipv6Text.ExpandBody` | packages/core/src/smtp-guard.ts:74-79 | a trailing quad expands to the two groups it stands for, after any head and any elision |
| `Ipv6Text.HextetsOfLegal` | packages/core/src/smtp-guard.ts:72-88 | every legal text form of section 2.2 of RFC 4291, in any case and with a zone, reads as the same eight numbers |
| `SmtpGuard.SpellingIrrelevant` | packages/core/src/smtp-guard.ts:105-116 | all spellings of an address get the answer of the address |
| `SmtpGuard.WrappingIrrelevant` | packages/core/src/smtp-guard.ts:93-102 | the mapped, compatible, NAT64 and 6to4 forms get the answer of the IPv4 address |
| `SmtpGuard.BlockedV4Ranges` | packages/core/src/smtp-guard.ts:38-57 | the refused IPv4 addresses, range by range, both ways |
| `SmtpGuard.BlockedV6Ranges` | packages/core/src/smtp-guard.ts:58-69 | the refused IPv6 addresses, range by range, both ways |
| `DkimSelector.NextOfStamped` | packages/core/src/dkim-rotation.ts:84-93 | after a stamped selector comes the same base with the new stamp, or the letter in the same month |
| `DkimSelector.SelectorsGrow` | packages/core/src/dkim-rotation.ts:84-93 | along a run selectors grow in length or, at equal length, in date |
| `DkimSelector.PlainStartDistinct` | packages/core/src/dkim-rotation.ts:83-93 | from a selector not ending in six digits no selector is ever reused |
| `DkimSelector.SelectorsDistinct` | packages/core/src/dkim-rotation.ts:83-93 | in general none is reused unless the first carries the stamp of a later rotation of the run |
| `DkimSelector.FutureStampIsReused` | packages/core/src/dkim-rotation.ts:83-93 | such a first selector is reused, in its own month |
| `DkimSelector.ReuseIff` | packages/core/src/dkim-rotation.ts:83-93 | exactly when some run from a given month uses a selector twice |
| `TenantControl.PendingKeyIrrelevant` | packages/core/src/dns.ts:57-112 | a pending key never makes a domain read as failing or as healthy |
| `TenantControl.AllResolveMeans` | packages/core/src/dns.ts:199-201 | verification asks for ownership and the signing records and nothing else |
| `TenantControl.PendingResolvesMeans` | apps/worker/src/dkim-rotation.ts:28 | the pending record counts only when the pending key itself resolves |
| `TenantControl.TenantRow.ApplyDkimRotation` | apps/worker/src/dkim-rotation.ts:26-151 | the row after one rotation decision, field by field |
| `TenantControl.TenantRow.CheckTenantDns` | apps/worker/src/dns-drift.ts:86-254 | the row after one check, and exactly when it counts as moved |
| `TenantControl.TenantRow.EvaluateTenant` | apps/worker/src/reputation.ts:161-236 | the row after one judgement; only a pause touches the sending status |
| `TenantControl.TenantRow.Resume` | apps/api/src/routes/subtenants.ts:446-514 | a resume works on paused tenants only, for the third time in thirty days not at all, and gives sending back |
| `TenantControl.TenantRow.Rotate` | apps/api/src/routes/subtenants.ts:316-345 | a rotation by hand needs a verified domain and no waiting key; it only adds the new key |
| `TenantControl.TenantRow.CancelRotation` | apps/api/src/routes/subtenants.ts:374-390 | a cancelled rotation drops the waiting key and nothing else |
| `TenantControl.TenantRow.Verify` | apps/api/src/routes/subtenants.ts:241-304 | what the verify button writes: it never records a failure, and it acts on the row as it was read |
| `TenantRuns.PendingWithPreviousIff` | packages/core/src/dkim-rotation.ts:55-81 | along a run a key waits beside a previous selector exactly when a rotation was started by hand before that selector retired |
| `TenantRuns.KeyChangesOnlyOnceResolved` | apps/worker/src/dkim-rotation.ts:112-131 | the signing key changes only in a check that saw the new key's own record, however old the row it acts on |
| `TenantRuns.PreviousKept` | packages/core/src/dkim-rotation.ts:95-98 | with automatic starts a replaced selector stays published through every event of seven days |
| `TenantRuns.PreviousKeptIff` | packages/core/src/dkim-rotation.ts:95-98 | in general it does exactly when no further key is promoted in that time |
| `TenantRuns.PreviousDroppedIff` | apps/worker/src/dkim-rotation.ts:53-131 | within its seven days exactly a due check that sees the waiting key takes a previous selector away |
| `TenantRuns.KeyChangesFarApart` | packages/core/src/dkim-rotation.ts:75-80 | left to itself the platform changes a key at most once every 180 days |
| `TenantOverlaps.PreviousLastsIff` | apps/worker/src/dkim-rotation.ts:53-131 | over any interleaving a previous selector stays published exactly when no check retires or replaces it, by what that check had read |
| `TenantRuns.HastyRotationsLoseSelector` | apps/api/src/routes/subtenants.ts:316-345 | a reachable run: two rotations by hand two hours apart take the first selector away days early |
| `TenantOverlaps.PausedMeansDisabledIff` | apps/worker/src/reputation.ts:208-219 | however reads and writes interleave, paused means disabled all along exactly when no visit tears them apart |
| `TenantOverlaps.PauseLastsIff` | apps/worker/src/dns-drift.ts:264-290 | a pause lasts over any interleaving exactly when no visit in between ends it, by what that visit had read |
| `TenantOverlaps.CheckOverPause` | apps/worker/src/dns-drift.ts:113-221 | a check writes over a pause exactly when the row it read called for restoring or for suspending |
| `TenantOverlaps.PauseIsSticky` | apps/worker/src/dns-drift.ts:264-276 | only a resume ends a pause, as long as whoever writes during it has read during it |
| `TenantRuns.StrandedIff` | apps/api/src/routes/subtenants.ts:290-304 | a run leaves a tenant suspended without a failure on record exactly when the verify button failed first and nothing has rescued it since |
| `TenantRuns.GoodCheckRestoresIff` | apps/worker/src/dns-drift.ts:137-147 | the next good check gives a suspended tenant its sending back exactly when it is not stranded like that |
| `TenantRuns.FailingSinceIsTrue` | apps/worker/src/dns-drift.ts:179-183 | failingSince dates a failed sweep after which no sweep passed |
| `TenantRuns.SuspensionEarned` | packages/core/src/dns.ts:518-524 | apart from the verify button, sending is suspended only by a failed sweep, six hours after the first of an unbroken series |
| `TenantOverlaps.SuspensionEarnedIff` | packages/core/src/dns.ts:518-524 | over any interleaving: exactly which visits suspend, by what they had read and by the failed check on record then |
| `TenantOverlaps.StrandedIff` | apps/worker/src/dns-drift.ts:113-221 | over any interleaving: suspended without a failure on record, by the last writes of both fields |
| `TenantRuns.HandCheckKeepsGrace` | apps/api/src/routes/subtenants.ts:293-304 | a check by hand that passes does not restart those six hours |
| `TenantOverlaps.LateVerifyRevives` | apps/api/src/routes/subtenants.ts:290-304 | the verify button pressed just before a pause switches sending back on |
| `TenantOverlaps.LateCheckFailsPaused` | apps/worker/src/dns-drift.ts:216-221 | one DNS sweep that read the row before the pause writes failed over it |
| `TenantOverlaps.LateWarningHidesPause` | apps/worker/src/reputation.ts:196-219 | two judgements of one row can leave a tenant disabled with nobody to resume |
| `Reputation.EvaluateMonotone` | packages/core/src/reputation.ts:89-167 | with enough verdicts, worse numbers never lead to a milder level |
| `Reputation.JudgeVerdicts` | packages/core/src/deliverability.ts:120-158 | what bounces and complaints cost, and which factors they report |
| `Reputation.ComputeDeliverability` | packages/core/src/deliverability.ts:58-222 | the score and the factors, in order |
| `Reputation.HealthyIffPerfect` | packages/core/src/deliverability.ts:184-199 | no problem is reported exactly when the score is 100 |
| `Reputation.ScoreAgreesWithEnforcement` | packages/core/src/deliverability.ts:11-15 | with at least 20 verdicts, paused means at most 60, throttled at most 75, warned at most 88, and ok at least 55 |
| `Reputation.ScoreFallsWithRates` | packages/core/src/deliverability.ts:126-158 | higher rates never raise the score |
| `Sequences.EnrollmentRow.Advance` | apps/worker/src/sequences.ts:118-220 | one tick of at most 50 iterations is that many steps of the uncut run |
| `Sequences.EnrollmentRow.AdvanceUpTo` | apps/worker/src/sequences.ts:126-207 | the same for any cut |
| `Sequences.TicksAreUncut` | apps/worker/src/sequences.ts:118-220 | any life of ticks is one uncut run under the answers it used: same sends, same order, same state |
| `Sequences.CutTickStaysDue` | apps/worker/src/sequences.ts:126-220 | a tick that was cut is due again at once and still active |
| `Sequences.DeferralsKeepPlace` | apps/worker/src/sequences.ts:149-165 | however many ticks find no capacity, the send stays up and nothing is sent, skipped or forgotten |
| `Sequences.SmoothRunSendsAll` | apps/worker/src/sequences.ts:126-207 | with nothing in the way an enrollment sends exactly the remaining send steps, in order, and completes |
| `Sequences.EachSendOnce` | apps/worker/src/sequences.ts:126-207 | with forward jumps only, an enrollment runs each send step at most once in its life |
| `Sequences.WorkBounded` | apps/worker/src/sequences.ts:126-207 | and the steps that are left bound the work of a tick |
| `Sequences.ShortSequencesNeverCut` | apps/worker/src/sequences.ts:126-207 | a forward sequence of fewer than 50 steps never meets the cut |
| `SequenceOverlaps.ExitLastsIff` | packages/db/src/sequence-triggers.ts:67-94 | an exited enrollment stays exited exactly until a tick ends that had read it as active |
| `SequenceOverlaps.SendsOnceIff` | apps/worker/src/sequences.ts:209-262 | with forward jumps and ticks one after the other each send step runs at most once exactly as long as no tick throws after it has sent something |
| `SequenceOverlaps.ThrowSendsAgain` | apps/worker/src/sequences.ts:256-260 | after such a throw the next tick sends the same step again |
| `Subjects.PeelPrefixes` | packages/db/src/conversations.ts:148-156 | the loop peels at most so many prefixes off the trimmed subject |
| `Subjects.DisplayKeepsBase` | packages/db/src/conversations.ts:148-167 | a displayed subject has the base of its original exactly when at most ten prefixes are stacked |
| `Subjects.ReplyKeepsBase` | packages/db/src/conversations.ts:146-157 | one more prefix does not change the base while it can still be peeled off |
| `Subjects.ElevenRepliesLoseBase` | packages/db/src/conversations.ts:158-167 | eleven stacked replies lose it |
| `Conversations.ConversationTables.FindExisting` | packages/db/src/conversations.ts:206-211 | of several matching threads the one with the latest message |
| `Conversations.ConversationTables.OpenConversationForSend` | packages/db/src/conversations.ts:190-253 | both tables after recording an outbound message, by the tables as they were read |
| `Conversations.ConversationTables.InsertInbound` | packages/db/src/conversations.ts:288-299 | the first of the two statements of an arriving reply |
| `Conversations.ConversationTables.RaiseFlag` | packages/db/src/conversations.ts:300-303 | the second: the flag goes up |
| `Conversations.ConversationTables.AppendInbound` | packages/db/src/conversations.ts:276-304 | both tables after an arriving reply, with nothing between its two statements |
| `Conversations.ConversationTables.AppendOutbound` | packages/db/src/conversations.ts:306-346 | both tables after our reply; whether it is recorded was read before, newer mail is looked for in the write itself |
| `Conversations.DistinctConversationMessages` | packages/db/src/conversations.ts:350-358 | the filter loop computes the repaired list |
| `Conversations.DistinctShape` | packages/db/src/conversations.ts:348-358 | the repaired list repeats no outbound message, loses none and keeps every other entry |
| `ConversationOverlaps.OneThreadPerSubject` | packages/db/src/conversations.ts:181-232 | under the advisory locks at most one thread per workspace, client, address and base subject, however writes interleave |
| `ConversationRuns.SafeToSendTwice` | packages/db/src/conversations.ts:146-167 | a subject can be sent twice without splitting its conversation exactly when at most ten prefixes are stacked |
| `ConversationRuns.RecordedAgain` | packages/db/src/conversations.ts:192-201 | recording a recorded message again changes nothing |
| `ConversationOverlaps.OneEntryPerMessage` | packages/db/src/conversations.ts:192-201 | under the advisory locks no thread ever holds two outbound entries for one message, however writes interleave |
| `ConversationOverlaps.WaitsIff` | packages/db/src/conversations.ts:228-340 | a waiting reply waits on through any interleaving exactly when no write in between clears it: a send that had read the thread without the flag, or an answer in that thread |
| `ConversationOverlaps.WaitsUntilAnswered` | packages/db/src/conversations.ts:228-330 | so it waits until someone answers in that very thread, as long as every send that writes meanwhile has read it while it waited |
| `ConversationOverlaps.LateSendClears` | packages/db/src/conversations.ts:206-238 | a send that read the thread before the reply arrived clears the flag, with nobody having answered |
| `Segments.ConditionAccepted` | packages/db/src/segments.ts:84-139 | which conditions validate, by operator and field |
| `Segments.ConditionSelects` | packages/db/src/segments.ts:102-139 | under three-valued logic each compiled condition selects what its plain reading says |
| `Segments.WhereMeansRule` | packages/db/src/segments.ts:142-182 | a clause comes out and selects a contact exactly when the rule is valid, describes it, and it is an active contact of that workspace and client; nothing widens into everybody |
| `Segments.EqualAndNotEqualSplit` | packages/db/src/segments.ts:116-122 | for a value that is not null, equal and not-equal split all contacts, nulls included |
| `Segments.ContainsIsSearch` | packages/db/src/segments.ts:123-125 | contains searches for the value exactly when it holds no percent sign, underscore or backslash |
| `Segments.FieldsAccepted` | packages/db/src/segments.ts:84-100 | which field names compile: the listed ones, well-formed traits, and three inherited names |
| `Segments.SizeIsMemberCount` | packages/db/src/segments.ts:195-233 | the size shown is the number of people reached |
| `Segments.SegmentReaches` | packages/db/src/segments.ts:195-210 | a segment reaches exactly the active contacts its rule describes |
| `Waitlist.Growth.AdmitSubscriber` | packages/db/src/growth.ts:105-209 | all tables after one signup, and exactly when it is turned away |
| `Waitlist.SignupSticks` | packages/db/src/growth.ts:99-125 | whoever is let in is an active member, and signing up again changes nothing |
| `Waitlist.SignupAddsAtMostOne` | packages/db/src/growth.ts:109-188 | no signup in one step makes a second contact for an address or adds more than one membership, and none without room |
| `WaitlistOverlaps.UndisturbedSignup` | packages/db/src/growth.ts:105-188 | with no other signup in between, it is the signup in one step |
| `WaitlistOverlaps.SecondContactIff` | packages/db/src/growth.ts:109-176 | a signup that read the tables earlier makes a second contact exactly when it is workspace-level, found nobody and writes where there is somebody |
| `WaitlistOverlaps.OneContactIff` | packages/db/src/growth.ts:105-168 | however signups interleave, every address has one contact all along exactly when none of them does that |
| `WaitlistOverlaps.TwoSignupsDoubleIff` | packages/db/src/schema.ts:794 | two signups of one new address that both read first make two contacts exactly when they belong to no client |
| `Waitlist.Growth.PendingWaitlist` | packages/db/src/growth.ts:224-273 | the paging loop computes the page of the queue |
| `Waitlist.PageIsFront` | packages/db/src/growth.ts:251-271 | a page is the front of the oldest-first queue, despite the cut of three rows per key |
| `Waitlist.QueueAdvances` | packages/db/src/growth.ts:240-247 | admitting the front of the queue leaves exactly the rest of it |
| `Waitlist.Growth.LetIn` | packages/db/src/growth.ts:286-329 | one waiting person; refused only without room |
| `Waitlist.Growth.AdmitPage` | packages/db/src/growth.ts:286-330 | a whole page is dealt with, each existing audience gains the person, and members grow by at most the count |
| `Waitlist.Growth.AdmitWaitlisted` | packages/db/src/growth.ts:281-331 | at most capacity people join, nobody is put back on the list, and the queue afterwards is the old one without its front |
| `Throttle.AtMostLimitPerWindow` | packages/core/src/throttle.ts:35-59 | under any interleaving and crashes no window grants more than the limit between clears, if increments land within 60 s of its end |
| `Throttle.LimitHoldsIff` | packages/core/src/throttle.ts:43-45 | and for every limit exactly then: with any later increments allowed some run goes over |
| `Throttle.GateLimitHoldsIff` | apps/worker/src/pipeline.ts:210 | the same for the sixty sends an hour of the gate |
| `Throttle.DeferralsBounded` | apps/worker/src/pipeline.ts:210-229 | a message is put back at most 26 times before it passes or fails |
| `Throttle.RequeueIsUseful` | apps/worker/src/pipeline.ts:214-233 | a deferred auth message still has time to be sent when it comes back |
| `Campaigns.CampaignRow.ProcessCampaignSend` | apps/worker/src/campaigns.ts:11-170 | the status and the report a job leaves, whenever accepted cancel calls write meanwhile or afterwards |
| `Campaigns.ReportConserves` | apps/worker/src/campaigns.ts:161-167 | sent, suppressed, failed and not sent add up to the recipients |
| `Campaigns.CancelTakesEffectIff` | apps/worker/src/campaigns.ts:12-170 | a cancel call stops the job exactly when it writes before the job's first read, or after its first write with a check still to come; otherwise everybody is mailed, and the row reads cancelled only if the call writes after the job's end |
| `Campaigns.AtMost25AfterCancel` | apps/worker/src/campaigns.ts:97-112 | at most 25 members are mailed after a cancellation that lands once the job has started |
| `Campaigns.ErasedCallCanBeRepeated` | apps/worker/src/campaigns.ts:24 | a cancellation that the job's first write erased can be called again, with the effect of a single call |
| `Envelope.OpensAgain` | packages/core/src/envelope.ts:62-99 | a sealed credential opens exactly where its key is available |
| `Envelope.RewrapKeepsPlaintext` | packages/core/src/envelope.ts:101-122 | re-wrapping keeps the credential, and then the current key alone opens it; plaintext is refused |
| `Envelope.ProviderTable.RewrapAll` | packages/db/src/rewrap-provider-credentials.ts:20-31 | every covered row is re-wrapped as it was read at the start, whatever is saved to it meanwhile, or the run stops at the first that cannot be and leaves the rest |
| `Envelope.CredentialLostIff` | packages/db/src/rewrap-provider-credentials.ts:21-28 | a row opens to the credential last saved to it, exactly unless a different one was saved between the read and the write of an outdated row |
| `Envelope.NoCredentialLost` | packages/db/src/rewrap-provider-credentials.ts:12-31 | if nothing is saved during a run, finished or stopped, every credential of the table still opens to the same text |
| `Envelope.OldKeyCanGo` | packages/db/src/rewrap-provider-credentials.ts:7-12 | in the table a finished run leaves every credential opens with the current key alone, up to what was saved meanwhile |
| `Envelope.SecondRunIdle` | packages/db/src/rewrap-provider-credentials.ts:15-31 | if nothing is saved during either run, a second run over that table changes nothing: it re-wraps none, or stops at the same row |

## Left out

- HTTP routes apart from admission of auth mail, the cancelling of a campaign and those that write a tenant's row,
  middleware, SDKs, the CLI and the dashboard: they hold no state worth an invariant.
- Real cryptography, deflate, DNS look-ups, template rendering and the calls to SES, SMTP, Redis and the queue:
  abstract functions or steps of the environment. Signatures, seals and envelopes are ideal.
- The send path of ordinary mail: it has no claim, so at-most-once is not its contract.
- Provider event notifications that move a sent message on to delivered, bounced or complained: the status history
  stops at sent.
- The error and reason strings on rows and audit entries, alert texts and webhooks.
- `roundRect`, text drawing and live images: floating-point arcs and glyphs.
- One-time codes (`hotp`, `verifyTotp`), retention sweeps and sequence triggers: the same patterns with easier claims.
- Case mapping outside ASCII, wherever the source lower-cases or upper-cases a text.
- ProofSigning.SameTextIffSameMeaning: numbers are carried as the tokens that are printed, so reading a number into
  a double and printing it again is not modelled, nor is the UTF-8 encoding of the text that is signed.
- JsonText.PrintReadsBack: the reader accepts texts without white space only, which is what the printer produces.
- Ipv6Text.HextetsOfLegal: groups that `parseInt` would read although they are not hexadecimal, and quads with
  numbers over 255, are malformed here; such texts are not address literals, so the guard never reads them.
- Surface.Raster.Downsample: the factor is a whole number, and the mean is the exact quotient rather than a double.
- Segments.WhereMeansRule: queries that the database rejects because a value does not fit the type of a column.
- Segments.SegmentReaches: rows come in table order; the database promises none.
- TenantRuns.StrandedIff: each event of these runs reads and writes the row in one step; interleaved reads and writes
  are the matter of `TenantOverlaps`, which covers the sending status, pauses, suspensions with their record, and the
  previous selector.
- TenantOverlaps.PauseLastsIff: the batch limit and the order of a sweep are not modelled.
- TenantControl.TenantRow.Verify: the route writes the tokens of a new SES registration and the verdict in two
  statements; here they are one.
- TenantControl.TenantRow.CheckTenantDns: the rotation and the verdict of one check read the same clock, and the
  detail text is left out.
- DkimSelector.ReuseIff: years have four digits.
- Sequences.EnrollmentRow.Advance: one tick undisturbed; ticks that throw and exits in between are the matter of
  `SequenceOverlaps`.
- Throttle.AtMostLimitPerWindow: the windowed counter of public signup forms (`checkAndCount`) is not part of this
  model.
- Throttle.DeferralsBounded: one chain of jobs per message; a job delivered twice by the queue starts a second chain.
- Waitlist.Growth.AdmitSubscriber: names, tags, custom fields and the welcome sequences that a signup starts. It reads
  and writes in one step here; in `WaitlistOverlaps` other signups may write in between, but its own inserts still
  count as one write.
- Waitlist.Growth.AdmitWaitlisted: one reading of the clock per sweep, whole-number capacity, and a log in time order.
- ConversationOverlaps.OneEntryPerMessage: `appendOutbound` looks for the message in its own thread only, so the same
  message can be recorded in two threads.
- Conversations.ConversationTables.OpenConversationForSend: its two reads count as one; the message lock keeps what the
  first one answers from changing before the second.
- Campaigns.CampaignRow.ProcessCampaignSend: template choice, overrides and the sends themselves are the given
  outcomes, and campaigns without list, template or workspace are left out.
- Envelope.ProviderTable.RewrapAll: the text format of an envelope is a datatype, and a malformed text is one case.
- AuthVault.Vault.Put: a failing Redis command is reported like an unreachable store.
- Block prices, plans and billing.
