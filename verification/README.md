# Verified models of the swit messaging and configuration cores

These Dafny 4.11 files model the stateful core of swit and prove what it promises. Every result
is a statement over all inputs, all runs or all reachable states. `dafny verify dfyconfig.toml`
checks the project.

Concurrent parts (handler lifecycle, access-control cache, audit pipeline) are step systems: a
state, the actions of the threads, and a run as any feasible sequence of actions. Beside each step
system stands the object the program updates in place, as a class whose methods are proved against
the same specification functions. Sequential parts are classes or loop methods proved against pure
functions, and the promises are proved about those functions.

| files | what they model |
|---|---|
| `LifecycleTable`, `Lifecycle`, `LifecycleGuarantees` | handler lifecycle manager, every interleaving of its operations |
| `AccessRules`, `AccessCache`, `AccessGuarantees`, `AccessProvider` | access decisions, their cache, concurrent mutators |
| `ConfigSettings`, `ConfigFiles`, `ConfigManager` | layered configuration with `extends` |
| `ConfigDiff`, `ConfigSections`, `ConfigMonitor` | settings difference and the drift monitor |
| `AuditPipeline`, `AuditConsumer`, `FileSink` | audit queue, consumer, metrics, rotating file sink |
| `Redaction`, `RedactionHash`, `RedactionGuarantees`, `RedactionPatterns`, `RedactionSecrecy`, `Fnv` | redaction of audit events |
| `AuthHeaders` | credentials in message headers |
| `Authz`, `AuthzCover`, `Rbac`, `RbacProvider` | permission matching and subsumption, access lists, roles |
| `HandlerRegistry`, `RoundRobin` | dynamic handler registry, round-robin resolver |
| `Text` | byte strings, split and join |

Where a property fails for some inputs, the condition under which it holds is stated as an
if-and-only-if. Scopes survive the headers if and only if they are comma-free and not one empty
scope. Matching composes if and only if the scope does not end in two stars. Handing one request
another's cached decision is right for all stores if and only if the two agree on user, permission,
resource type and name and role set, which sharing a key does not ensure. A cached
decision is right at its own timestamp if and only if the rules answered there as it says; one by an
entry always is. A user whose permissions render alike loses no decision if and only if the kept ones
pass finitely many probes, and below 256 kept ones if and only if these subsume the dropped ones.
With the program's detection patterns, redaction is stable if and only if no field name selects
hashing and default and rules absorb each other. A rotation keeps a suffix of the whole archive if
and only if no more backups than the limit were present.

Two places where the code and its messages differ, modelled as the code does it: the "cyclic
extends" error is also raised when one base is reached on two paths (`ConfigFiles.MergeSucceedsIff`),
and a failed load leaves the files merged before the failure in the store
(`ConfigManager.Manager.Load`).

## Model

| member | source | states |
|---|---|---|
| `LifecycleTable.HandlerLifecycleManager.RegisterHandler` | pkg/integration/lifecycle.go:145-173 | registers a fresh record in the created state under an unused ID, or changes nothing and reports an error |
| `LifecycleTable.HandlerLifecycleManager.UnregisterHandler` | pkg/integration/lifecycle.go:183-202 | drops exactly the named entry, and only if its record is stopped or failed |
| `LifecycleTable.HandlerLifecycleManager.BeginOperation` | pkg/integration/lifecycle.go:212-227 | the first critical section shared by initialize, start and stop: only from the right state, into the transitional one |
| `LifecycleTable.HandlerLifecycleManager.CommitOperation` | pkg/integration/lifecycle.go:242-246 | the last critical section writes the final state through the pointer it kept |
| `LifecycleTable.HandlerLifecycleManager.SetFailedState` | pkg/integration/lifecycle.go:611-624 | marks the record held under the ID failed with its error, and nothing else |
| `Lifecycle.StepKeeps` | pkg/integration/lifecycle.go:145-387 | every single action of every thread keeps the system invariant (ownership, histories, errors) |
| `Lifecycle.RunKeeps` | pkg/integration/lifecycle.go:145-387 | so does every interleaving of any number of operations |
| `LifecycleGuarantees.CallbacksOnceInOrder` | pkg/integration/lifecycle.go:212-387 | each record sees Initialize, Start, Stop and Shutdown at most once, in that order, each only after the previous one succeeded |
| `LifecycleGuarantees.PhasesAreEarned` | pkg/integration/lifecycle.go:212-387 | initialized, started and stopped are reported exactly when the callbacks up to that phase have succeeded |
| `LifecycleGuarantees.OwnedExactlyInTransition` | pkg/integration/lifecycle.go:225-246 | a record is in a transitional state if and only if an in-flight operation owns it, and the owner is unique |
| `LifecycleGuarantees.WritesHitOwnRecord` | pkg/integration/lifecycle.go:611-624 | until its last write an operation's record is still the one held under its ID, so the write by ID and the write by pointer coincide despite unregister and re-register |
| `LifecycleGuarantees.ErrorExactlyWhenFailed` | pkg/integration/lifecycle.go:611-624 | an error is stored exactly on failed records |
| `LifecycleGuarantees.TerminalForever` | pkg/integration/lifecycle.go:183-202 | stopped and failed are never left and no callback follows them, in any continuation |
| `LifecycleGuarantees.UnregisteredIsSilent` | pkg/integration/lifecycle.go:183-202 | a record leaves the table only in a terminal state, never sees a callback again and never returns |
| `LifecycleGuarantees.OperationsNeverBlock` | pkg/integration/lifecycle.go:212-387 | an operation in flight always has an enabled next action |
| `LifecycleGuarantees.OperationsTerminate` | pkg/integration/lifecycle.go:212-387 | and takes at most seven actions, however the others interleave |
| `AccessCache.StepKeeps` | pkg/messaging/access.go:342-409 | every action of checks, mutators, clock and cleanup keeps the cache invariant |
| `AccessCache.RunKeeps` | pkg/messaging/access.go:342-559 | so does every interleaving |
| `AccessGuarantees.CacheCoherent` | pkg/messaging/access.go:342-409 | whenever no mutator is between its change and its cache clear, every cached decision is one the evaluator permits on the current stores in the time its evaluation took, however long ago |
| `AccessGuarantees.CacheCoherentAtTimestamp` | pkg/messaging/access.go:342-409 | and it is right at its own timestamp if and only if the rules agree there: always for a decision by an entry; for a decision by a policy if no entry decided, that policy granted and none before it did; for a denial by default if no entry and no policy applied |
| `AccessGuarantees.EntryRightAtTimestamp` | pkg/messaging/access.go:572-604 | entries only expire, so a decision by an entry is right at its timestamp whatever else changed |
| `AccessGuarantees.SteadyDecisionIsRight` | pkg/messaging/access.go:342-409 | in particular a decision is right there if no rule changed its answer during its evaluation |
| `AccessGuarantees.ExpiryDuringEvaluation` | pkg/messaging/access.go:342-409 | for every entry that allows a request up to an instant, a run that caches a denial stamped at that instant, which no evaluation at that instant makes |
| `AccessGuarantees.SteadyWindow` | pkg/messaging/access.go:633-671 | an evaluation spread over a time window answers as at its first instant when no rule changes its answer in it |
| `AccessGuarantees.NoStaleDecision` | pkg/messaging/access.go:342-559 | a check begun after a mutation returned never yields a decision computed before it; the decision is permitted on that version of the stores in the time its evaluation took, which ended before the check returned, and a hit is no older than the time to live |
| `AccessGuarantees.KeyInjective` | pkg/messaging/access.go:345-346 | the cache key determines user, resource name and permission when user and permission have no colon, whatever the resource name |
| `AccessGuarantees.CachedAgreesWithFresh` | pkg/messaging/access.go:342-409 | an answer made for the same question, the roles in any order, is one a fresh evaluation of the request could give on stores no older than the check's beginning |
| `AccessGuarantees.SameQuestionAnswered` | pkg/messaging/access.go:350-408 | requests that agree on user, permission, resource type and name and role set get the same answers in every time window, the roles in any order |
| `AccessGuarantees.PossibleByPolicies` | pkg/messaging/access.go:572-671 | with no deciding entry the answer is whether some policy of an active requested role grants |
| `AccessGuarantees.SharedKeySafeIff` | pkg/messaging/access.go:345-346 | for any two requests: the decision of one is right for the other on all stores if and only if they agree on user, permission, resource type and name and role set |
| `AccessGuarantees.KeyCollides` | pkg/messaging/access.go:345-346 | a colon in a user lets two users share a key |
| `AccessGuarantees.SharedKeyAnswersWrongly` | pkg/messaging/access.go:342-409 | whenever two requests share a key without that agreement (type, roles or user), a run without any mutation answers one with the other's decision, which no evaluation of it makes |
| `AccessProvider.AccessControlCache.Get` | pkg/messaging/access.go:694-710 | returns the stored decision exactly if it is present and not expired at the clock reading |
| `AccessProvider.AccessControlCache.Set` | pkg/messaging/access.go:713-719 | stores under one key and leaves the others |
| `AccessProvider.AccessControlCache.Clear` | pkg/messaging/access.go:722-727 | empties the cache |
| `AccessProvider.AccessControlCache.Cleanup` | pkg/messaging/access.go:730-744 | removes exactly the expired decisions |
| `AccessProvider.MemoryAccessControlProvider.Evaluate` | pkg/messaging/access.go:350-408 | the evaluation loops return a decision the rules permit in the time window they took |
| `AccessProvider.MemoryAccessControlProvider.CheckAccess` | pkg/messaging/access.go:342-409 | a decision with the request's key that the current stores permit in the time its evaluation took: made in this call for this request, or the unexpired cached one, whose evaluation ended before the call; the cache stays coherent |
| `AccessProvider.MemoryAccessControlProvider.AddPolicy` | pkg/messaging/access.go:456-468 | new stores as specified, cache cleared, coherence kept |
| `AccessProvider.MemoryAccessControlProvider.RemovePolicy` | pkg/messaging/access.go:471-494 | removes the policy and strips it from every role, clears the cache |
| `AccessProvider.MemoryAccessControlProvider.AddRole` | pkg/messaging/access.go:497-509 | new stores as specified, cache cleared, coherence kept |
| `AccessProvider.MemoryAccessControlProvider.RemoveRole` | pkg/messaging/access.go:512-524 | removes one role, clears the cache |
| `AccessProvider.MemoryAccessControlProvider.AddAccessControlEntry` | pkg/messaging/access.go:527-544 | adds one entry, clears the cache |
| `AccessProvider.MemoryAccessControlProvider.RemoveAccessControlEntry` | pkg/messaging/access.go:547-559 | removes one entry, clears the cache |
| `ConfigSettings.MergeLaw` | pkg/config/manager.go:554-558 | merging, path by path: the later tree decides unless it is silent there or meets an existing section |
| `ConfigSettings.LastSetterWins` | pkg/config/manager.go:554-558 | the last file that sets a key wins if and only if neither the store nor an earlier file has a section there |
| `ConfigSettings.LastMentionWins` | pkg/config/manager.go:554-558 | the last file that mentions a key decides it if and only if it brings a section or no section was there before |
| `ConfigSettings.SilentFilesKeep` | pkg/config/manager.go:299-334 | files that do not mention a path leave it alone, so a removed key survives a reload |
| `ConfigSettings.SectionsStay` | pkg/config/manager.go:554-558 | a path ends as a section exactly when the store or some file made it one |
| `ConfigSettings.ReloadIdempotent` | pkg/config/manager.go:299-334 | merging the same files again changes nothing |
| `ConfigFiles.MergeSucceedsIff` | pkg/config/manager.go:485-559 | merging a file succeeds if and only if every reference resolves and parses and the unfolding meets no file twice; then it merges the unfolding in post-order |
| `ConfigFiles.MergesReachableOnce` | pkg/config/manager.go:485-559 | a successful merge merges the reachable files, all and only, each once, bases before the files that extend them, the root last |
| `ConfigFiles.SuccessAccounts` | pkg/config/manager.go:485-559 | it adds to the visited set exactly the files it merged |
| `ConfigFiles.FirstExistingIsFirst` | pkg/config/manager.go:598-605 | an existing candidate with every earlier one missing, none exactly if no candidate exists |
| `ConfigManager.Manager.MergeFileRecursive` | pkg/config/manager.go:485-559 | the recursive in-place merge leaves the store merged with exactly the files of the traversal, also when it fails; it terminates on every finite disk |
| `ConfigManager.Manager.MergeBases` | pkg/config/manager.go:485-559 | the same for its loop over the references of one file |
| `ConfigManager.Manager.MergeFirstExistingFile` | pkg/config/manager.go:460-474 | a layer merges its first existing candidate or nothing |
| `ConfigManager.Manager.Load` | pkg/config/manager.go:299-334 | base, environment and override layers are merged in this order, stopping at the first error |
| `ConfigManager.LayerPrecedence` | pkg/config/manager.go:299-334 | after a successful load, on every key: the last file to mention it is an override file if one mentions it, else an environment file, else a base file, and its setting is what the store holds if and only if it is a section or no section was there before; unmentioned keys keep what the store had |
| `ConfigDiff.CountSymmetric` | pkg/config/monitor.go:377-426 | the difference count is symmetric |
| `ConfigDiff.ZeroIff` | pkg/config/monitor.go:377-426 | it is 0 if and only if the trees are equal after dropping nil-valued map keys and hold no NaN |
| `ConfigDiff.CloneEqual` | pkg/config/monitor.go:353-370 | a deep clone is the tree itself |
| `ConfigDiff.CloneIsNoDifference` | pkg/config/monitor.go:342-426 | a tree and its clone differ in nothing if and only if the tree is NaN-free |
| `ConfigSections.CountIsNumberOfDifferences` | pkg/config/monitor.go:377-426 | the count is the number of paths at which the two trees differ |
| `ConfigSections.SectionsAreHeads` | pkg/config/monitor.go:446-517 | the sections marked are the first dotted parts of the differing keys, along the chain of empty keys, and "root" for values that are no maps |
| `ConfigSections.SectionsExactIff` | pkg/config/monitor.go:429-517 | the section set is the set of differing top-level keys if and only if none of these has a dot and, should the empty key differ, the heads below it are differing keys and the empty string is one of them |
| `ConfigSections.EmptyKeyMarksRoot` | pkg/config/monitor.go:503-517 | differing values under an empty key that are no pair of maps or lists are reported as the section "root", so the section set is not exact |
| `ConfigSections.MarkedIffCounted` | pkg/config/monitor.go:373-517 | some section is marked exactly when the count is positive |
| `ConfigMonitor.CountDiff` | pkg/config/monitor.go:377-426 | the recursive loop computes the count |
| `ConfigMonitor.DiffKeys` | pkg/config/monitor.go:446-501 | the accumulating recursion returns the same count and exactly the marked sections |
| `ConfigMonitor.Monitor.UpdateDriftMetrics` | pkg/config/monitor.go:196-223 | drift is reported if and only if current and desired settings differ after normalisation or hold a NaN; items as counted, one label per section, labels only from the bounded seen set or "other" |
| `ConfigMonitor.Monitor.HandleChange` | pkg/config/monitor.go:163-194 | a failed reload moves no snapshot and reports one error; a successful one reports the change against the previous snapshot, and the last drift status is then whether the new one differs from the desired one |
| `ConfigMonitor.Monitor.HandleAll` | pkg/config/monitor.go:163-223 | over any sequence of changes labels stay bounded, the snapshot is the last successful reload, and the drift status last reported is right for it |
| `AuditPipeline.StepKeeps` | pkg/messaging/audit.go:314-479 | every action of producers and consumer, waiting for the lock included, keeps the pipeline invariant |
| `AuditPipeline.QueueConserved` | pkg/messaging/audit.go:435-479 | at every moment logged, then batched, then channelled events are the queued events in order: nothing lost, doubled or reordered |
| `AuditPipeline.OverflowLoggedOnce` | pkg/messaging/audit.go:338-346 | every event that found the channel full is logged exactly once by its producer |
| `AuditPipeline.StoppedForever` | pkg/messaging/audit.go:435-469 | after shutdown the consumer's log never grows |
| `AuditPipeline.ShutdownDropsChannel` | pkg/messaging/audit.go:435-479 | the queued events never logged are exactly the contents of the channel |
| `AuditPipeline.QueuedEventCanBeLost` | pkg/messaging/audit.go:628-652 | a run that accepts an event and then shuts down without logging it |
| `AuditPipeline.MetricsBalanced` | pkg/messaging/audit.go:591-599 | total = successful + failed = sum over types = events logged, each type counted right |
| `AuditConsumer.MessagingAuditor.LogAuditEvent` | pkg/messaging/audit.go:314-347 | filtered events leave no trace, others are queued, or logged at once when the channel is full |
| `AuditConsumer.MessagingAuditor.FlushEvents` | pkg/messaging/audit.go:472-479 | the flush loop logs the whole batch in order |
| `AuditConsumer.MessagingAuditor.ProcessEvents` | pkg/messaging/audit.go:435-469 | for every schedule, what was received is what was logged followed by the batch, which stays below the buffer size and is empty after shutdown |
| `FileSink.RotationLaw` | pkg/messaging/audit_sink.go:179-208 | a rotation drops exactly the overwritten oldest backup from the archive and keeps all else in order |
| `FileSink.ShiftLaw` | pkg/messaging/audit_sink.go:185-190 | renaming the backups alone drops no more than the overwritten oldest one |
| `FileSink.RotationContiguous` | pkg/messaging/audit_sink.go:179-208 | contiguous backups stay contiguous and within the limit |
| `FileSink.SuffixKeptIff` | pkg/messaging/audit_sink.go:179-208 | with n contiguous backups present, every rotation leaves a suffix of the archive if and only if n is within the limit |
| `FileSink.Sink.Rotate` | pkg/messaging/audit_sink.go:179-208 | whether it completes or fails to close, move or reopen the file: the backups are as specified, nothing but the oldest backup leaves the archive, contiguous backups stay so, and a failure leaves the sink closed |
| `FileSink.Sink.Write` | pkg/messaging/audit_sink.go:142-163 | appends the line to the history, also when the rotation after it fails; stays below the size limit; on a write error keeps just the bytes written; a closed sink refuses |
| `FileSink.Sink.WriteAll` | pkg/messaging/audit_sink.go:142-208 | from any directory, after any number of writes backups up to the limit and the current file read as a suffix of everything written |
| `Fnv.HashString` | pkg/messaging/audit_redaction.go:374-381 | the loop computes the wrapping 32-bit FNV-1a hash, bytes and words as bits |
| `Fnv.OffsetValue` | pkg/messaging/audit_redaction.go:375-375 | the hash starts from 2166136261 |
| `Fnv.OneByteChangesHash` | pkg/messaging/audit_redaction.go:374-381 | equally long strings that differ in one byte hash differently |
| `Fnv.TimesPrimeInjective` | pkg/messaging/audit_redaction.go:378-378 | multiplying by the FNV prime modulo 2^32 is injective |
| `Fnv.HashParity` | pkg/messaging/audit_redaction.go:374-381 | the hash is odd exactly when an even number of the bytes are odd |
| `Redaction.IsSensitiveFieldName` | pkg/messaging/audit_redaction.go:320-328 | the loop finds a sensitive word in the lower-cased name exactly if there is one |
| `Redaction.MatchesFieldName` | pkg/messaging/audit_redaction.go:354-371 | the loop reports whether some pattern matches, by wildcard or by containment |
| `Redaction.FindRule` | pkg/messaging/audit_redaction.go:188-196 | the search stops at the first rule that names the field |
| `Redaction.RedactMap` | pkg/messaging/audit_redaction.go:172-204 | the loop redacts every entry by name, detection, then rules, in any iteration order |
| `Redaction.RedactMetadata` | pkg/messaging/audit_redaction.go:207-247 | the recursive loop redacts every field by name, rules, then nesting and detection |
| `Redaction.RedactEntry` | pkg/messaging/audit_redaction.go:302-317 | one field, including values without a JSON form |
| `RedactionHash.HashRedactionSeparates` | pkg/messaging/audit_redaction.go:278-280 | strings that differ in one byte keep different hash texts |
| `RedactionHash.HashTwiceDiffers` | pkg/messaging/audit_redaction.go:278-280 | hashing the hash text of a string can give another text |
| `RedactionGuarantees.AbsorbsIff` | pkg/messaging/audit_redaction.go:269-299 | for each pair of strategies, exactly when the second leaves every result of the first alone |
| `RedactionGuarantees.ObjectTwice` | pkg/messaging/audit_redaction.go:172-317 | under a settled configuration, redacting metadata of any depth again changes nothing if and only if every replaced value without JSON form is replaced by removal |
| `RedactionGuarantees.StableIff` | pkg/messaging/audit_redaction.go:172-317 | redaction is stable on all trees without such values if and only if the configuration is settled: no field name selects hashing, and where detection changes its mind about a redacted value the strategy that takes over leaves it alone |
| `RedactionGuarantees.UniformSettled` | pkg/messaging/audit_redaction.go:269-299 | default and rules that all mask, all show parts or all remove are settled whatever is detected |
| `RedactionPatterns.StableByStrategiesIff` | pkg/messaging/audit_redaction.go:172-351 | with the program's patterns, redaction is stable on all such trees if and only if no field name selects hashing and, with detection on, the default and every strategy a field name selects absorb each other |
| `RedactionPatterns.FitsIff` | pkg/messaging/audit_redaction.go:331-351 | a rule's strategy lives with detection if and only if it and the default absorb each other |
| `RedactionPatterns.CardFades` | pkg/messaging/audit_redaction.go:91-103 | a card number is detected, and no longer once starred, shown in part or removed |
| `RedactionPatterns.SpacedEmerges` | pkg/messaging/audit_redaction.go:345-348 | a long value with spaces is not detected until it is shown in part |
| `RedactionGuarantees.EventTwice` | pkg/messaging/audit_redaction.go:140-169 | the same for headers, metadata, token and message ID of a whole event |
| `RedactionSecrecy.ObjectsAlike` | pkg/messaging/audit_redaction.go:172-247 | metadata that differs only in equally long secrets at any depth redacts to equal metadata |
| `RedactionSecrecy.SecretIff` | pkg/messaging/audit_redaction.go:172-328 | this holds for all pairs of trees if and only if the default strategy masks or removes |
| `RedactionSecrecy.PartialRevealsIff` | pkg/messaging/audit_redaction.go:285-294 | partial redaction reveals the length and, beyond eight bytes, the outer four bytes on each side, and nothing else |
| `RedactionSecrecy.ObjectOutline` | pkg/messaging/audit_redaction.go:172-317 | nesting and names are kept, and all lengths when every strategy keeps lengths |
| `RedactionSecrecy.DefaultRulesNeverDecide` | pkg/messaging/audit_redaction.go:384-414 | every field the default rules name is sensitive by name already |
| `RedactionSecrecy.DefaultIsSettled` | pkg/messaging/audit_redaction.go:384-414 | the default configuration is settled although it mixes strategies |
| `RedactionSecrecy.DefaultIsStable` | pkg/messaging/audit_redaction.go:384-414 | so redacting an event again under the defaults changes nothing if and only if no sensitive metadata field lacks a JSON form |
| `AuthHeaders.ToHeaders` | pkg/messaging/auth.go:136-165 | the printed headers, in any iteration order of the metadata |
| `AuthHeaders.FromHeaders` | pkg/messaging/auth.go:168-228 | the parsed context or a rejection, for all headers |
| `AuthHeaders.AcceptedIff` | pkg/messaging/auth.go:66-87 | printed credentials are accepted exactly if they are valid and no certificate, or have no type |
| `AuthHeaders.MetadataRecovered` | pkg/messaging/auth.go:208-214 | metadata comes back exactly, whatever its keys |
| `AuthHeaders.ScopesRecoveredIff` | pkg/messaging/auth.go:191-194 | scopes come back if and only if there are none, or they are comma-free and not one empty scope |
| `AuthHeaders.RoundTrip` | pkg/messaging/auth.go:136-228 | parsing the printed headers of valid token or API-key credentials recovers type, user, active secret, metadata and identifiers, and the scopes under that exact condition |
| `AuthHeaders.ReparseStable` | pkg/messaging/auth.go:136-228 | printing any accepted parse result and parsing again gives the same result |
| `Authz.RenderInjective` | pkg/messaging/authz.go:49-54 | the rendering identifies a permission whose resource and action have no colon |
| `Authz.RenderCollides` | pkg/messaging/authz.go:49-54 | with a colon in the action it need not |
| `Authz.MatchesReflexive` | pkg/messaging/authz.go:57-84 | a permission matches itself |
| `Authz.ComposesIff` | pkg/messaging/authz.go:57-84 | matching by q composes with every further match if and only if q's scope does not end in two stars |
| `Authz.SubsumesIff` | pkg/messaging/authz.go:57-84 | a test on resource, action and scope that holds if and only if p matches everything q matches |
| `Authz.AclProvider.HasPermission` | pkg/messaging/authz.go:406-420 | allowed exactly if some held permission matches |
| `Authz.AclProvider.GrantPermission` | pkg/messaging/authz.go:432-438 | appends the permission for the user |
| `Authz.AclProvider.RevokePermission` | pkg/messaging/authz.go:441-456 | keeps, in order, the permissions with another rendering |
| `Authz.GrantAdds` | pkg/messaging/authz.go:432-438 | a grant adds exactly the decisions its permission matches, for its user only |
| `Authz.SubsumedGrantIdle` | pkg/messaging/authz.go:406-438 | granting what a held, composing permission matches changes no decision of any user |
| `Authz.RevokeUndoesGrant` | pkg/messaging/authz.go:432-456 | revoking after granting leaves what revoking alone leaves, and the old list if nothing rendered alike was held |
| `Authz.RevokeRemovesExactlyIff` | pkg/messaging/authz.go:441-456 | a revocation removes its permission and nothing else if and only if no other held permission renders like it |
| `Authz.ColonFreeRendersAlone` | pkg/messaging/authz.go:441-456 | which is so among colon-free permissions |
| `AuthzCover.CoversIff` | pkg/messaging/authz.go:57-84 | a list of permissions, however long, matches everything q matches if and only if it passes the finitely many probes for q |
| `AuthzCover.CoversAloneIff` | pkg/messaging/authz.go:57-84 | fewer than 256 permissions do if and only if one of them subsumes q |
| `AuthzCover.TogetherNotAlone` | pkg/messaging/authz.go:57-84 | without a bound that fails: patterns for every character cover "a*" together and none does alone |
| `AuthzCover.GrantIdleIff` | pkg/messaging/authz.go:432-438 | a grant changes no decision of any user if and only if the held permissions pass the probes for it |
| `AuthzCover.PassesProbesIff` | pkg/messaging/authz.go:432-438 | which fewer than 256 held permissions do if and only if one of them subsumes it |
| `Rbac.RunKeeps` | pkg/messaging/authz.go:271-332 | every run of add, remove, assign and revoke keeps assigned roles existing and duplicate-free |
| `Rbac.LookupIsVia` | pkg/messaging/authz.go:214-259 | the de-duplicated look-up allows exactly what some assigned role allows, if every permission is subsumed by one that is kept |
| `Rbac.LookupIsViaIff` | pkg/messaging/authz.go:214-259 | and, however many are kept, if and only if the kept ones pass the probes for every permission |
| `Rbac.AllPassIff` | pkg/messaging/authz.go:214-259 | which fewer than 256 kept ones do if and only if every permission is subsumed by one of them |
| `Rbac.ColonFreeCovered` | pkg/messaging/authz.go:214-259 | which is so when resources and actions have no colon |
| `Rbac.LookupSound` | pkg/messaging/authz.go:214-259 | in general it never allows more |
| `Rbac.LookupLosesOnCollision` | pkg/messaging/authz.go:214-259 | for every p that does not subsume a q rendered alike, a state and a request an assigned role allows and the look-up denies |
| `Rbac.DedupDistinct` | pkg/messaging/authz.go:232-238 | no rendering is returned twice |
| `Rbac.DedupKeepsIff` | pkg/messaging/authz.go:232-238 | every permission is kept if and only if no two different ones render alike |
| `Rbac.PairLosesNothingIff` | pkg/messaging/authz.go:232-238 | a user who holds p and then q, rendered alike, loses no decision if and only if p subsumes q |
| `Rbac.AssignAdds` | pkg/messaging/authz.go:298-317 | assigning an existing role adds exactly that role's decisions, to that user |
| `Rbac.RevokeLeaves` | pkg/messaging/authz.go:320-332 | revoking leaves exactly the decisions of the user's other roles |
| `Rbac.RemoveLeaves` | pkg/messaging/authz.go:279-295 | removing a role leaves every user exactly the decisions of the other roles |
| `RbacProvider.RbacAuthorizationProvider.GetPermissions` | pkg/messaging/authz.go:214-242 | the nested loops return the first permission of each rendering, in order |
| `RbacProvider.RbacAuthorizationProvider.HasPermission` | pkg/messaging/authz.go:245-259 | answers as the specified look-up: allowed only through an assigned role, and exactly so when the kept permissions cover |
| `RbacProvider.RbacAuthorizationProvider.AddRole` | pkg/messaging/authz.go:271-276 | new state as specified |
| `RbacProvider.RbacAuthorizationProvider.RemoveRole` | pkg/messaging/authz.go:279-295 | the loop drops the role from every user |
| `RbacProvider.RbacAuthorizationProvider.AssignRole` | pkg/messaging/authz.go:298-317 | refuses exactly unknown roles, never assigns twice |
| `RbacProvider.RbacAuthorizationProvider.RevokeRole` | pkg/messaging/authz.go:320-332 | drops the role from one user |
| `HandlerRegistry.RunKeeps` | pkg/integration/handler_registry.go:93-369 | every run keeps: flags agree with legal callback histories, and started implies all initialized |
| `HandlerRegistry.StartedMeansInitialized` | pkg/integration/handler_registry.go:289-324 | while the registry is started every handler in it is initialized |
| `HandlerRegistry.InitializedOncePerShutdown` | pkg/integration/handler_registry.go:289-369 | Initialize is never called on an initialized record: a successful shutdown lies in between |
| `HandlerRegistry.ShutDownOncePerInitialize` | pkg/integration/handler_registry.go:289-369 | between a successful shutdown of a record and its next shutdown callback lies a successful initialization |
| `HandlerRegistry.ShutdownCanRepeat` | pkg/integration/handler_registry.go:160-194 | Shutdown calls are not paired: failing unregistrations repeat them |
| `HandlerRegistry.DynamicHandlerRegistry.RegisterHandler` | pkg/integration/handler_registry.go:93-149 | registers, initialized if started, or changes nothing |
| `HandlerRegistry.DynamicHandlerRegistry.UnregisterHandler` | pkg/integration/handler_registry.go:160-194 | shuts down and drops the record, or keeps it with its flag when the underlying registry refuses |
| `HandlerRegistry.DynamicHandlerRegistry.Start` | pkg/integration/handler_registry.go:289-324 | initializes what is not initialized, and starts exactly if all succeed |
| `HandlerRegistry.DynamicHandlerRegistry.Shutdown` | pkg/integration/handler_registry.go:334-369 | shuts down what is initialized, always ends not started |
| `RoundRobin.LoadBalancedResolver.GetInstanceRoundRobin` | pkg/discovery/provider.go:178-193 | picks by the counter, which advances only on a non-empty list |
| `RoundRobin.LoadBalancedResolver.GetInstances` | pkg/discovery/provider.go:178-193 | a run of calls returns the specified endpoints |
| `RoundRobin.Fair` | pkg/discovery/provider.go:178-193 | each of n distinct instances of a stable list is chosen floor or ceiling of k/n times in k successful calls, from any counter, with failed calls in between |

## Left out

- Hooks and callbacks: user code is a nondeterministic outcome of its step; hook order within a transition, panics and the health status are not modelled.
- Time stamps of transitions, registrations and updates: they affect no decision except in the access cache, where the clock is part of the state.
- `InitializeAll`, `StartAll` and `StopAll` of the lifecycle manager: their loops are covered as threads that begin one operation after another; the collected error lists are not modelled.
- Decision reasons of access checks: kept as an enumeration, not as message text.
- `viper`: its merge is stated as the explicit rule of `ConfigSettings.Merge`; key case folding, environment variables, interpolation and file parsing are not part of this model.
- ConfigManager.Manager.Load: covers the three file layers; the interpolation of loaded values, the processing of secret-file variables and the environment overlay after them are not modelled, because they belong to the environment and to viper.
- ConfigMonitor.Monitor.HandleChange: the layer label and the timestamp gauge of a change are not modelled; they carry nothing but their inputs.
- Stat errors other than a missing file: the disk model knows only present and absent files.
- Aliasing between the access stores and objects a caller keeps: stored policies, roles and entries are values.
- Aliasing of cloned settings: settings are values, so sharing between a tree and its clone cannot be expressed.
- FileSink.Sink.Rotate: renaming one backup to the next is taken to fail only when that backup does not exist, which is the failure the program ignores.
- Sampling of audit events by clock, processing-time averages and log field construction: sampling is a nondeterministic choice, the rest only adds easy members.
- `AuditPipeline.QueueConserved`: one consumer goroutine, as the program starts.
- Counters of the monitor, the auditor and the resolver: unbounded, so wrap-around after 2^63 steps is not modelled.
- Custom patterns of redaction rules: the program compiles them and never consults them. The patterns for e-mail addresses, card numbers and JSON web tokens are parameters of the redaction configuration, given in full in `RedactionPatterns`; phone and address patterns are never used.
- Case mapping and wildcards beyond ASCII: field names are compared byte by byte after lower-casing A to Z.
- JSON encoding: a value outside strings and maps carries its JSON form, or none.
- AuthHeaders.FromHeaders: the expiry time, which the parser reads from the creation time header, and the source field, which the printer never writes, are not modelled, so they are outside the round trip.
- Authentication providers, token signatures, TLS, the authorization manager and syslog or webhook sinks: foreign calls or wiring.
- Discovery back ends, the factory and random selection: network clients and easy members.
- Handler metadata, listing and counting of the registry: easy members.
