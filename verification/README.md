# Safeer API: verified models

Dafny models of the parts of the Safeer API whose correctness spans several functions or a whole
run, each with proofs of what it keeps. `dafny verify dfyconfig.toml` checks the project.

| part of the system | modules | main results |
|---|---|---|
| Tag-versioned response cache and asset memo | `CacheSpec`, `CacheService`, `CacheKeys`, `CachedReads`, `CacheProtocol`, `CacheRuns` | over every interleaving of readers and writers, whatever is stored was built from current rows or a committed write still owes a purge under one of its tags; a clear refuses every reader under way, and no other store is refused without need; purging through the shared index is a scan of both stores exactly when the index is honest |
| Org chart | `ParentTable`, `TreeGuard`, `OrgChart`, `OrgForest` | the write guard accepts a parent exactly when the table stays a closed, acyclic forest of at most five levels; the public forest shows exactly the positions whose whole chain is published, each once |
| Redirects | `Redirects`, `NewsLinks` | the table never chains; a published rename is a substitution on link resolution exactly when no rule leads away from the old path to a third one; over every run former paths lead to their post, and it is shown step by step exactly which stop doing so; a write is accepted exactly if it keeps slugs unique and the table without chains |
| Accounts | `Lockout`, `Users`, `Accounts`, `AccountRuns`, `AdminCover` | a lock comes exactly with the tenth counted failure, for 15, 30 or 60 minutes, over any span of time; at most 260 wrong passwords are looked at in less than a day, and 260 can be; a session is accepted, and a link works, exactly until it expires or a step that ends it; an active administrator always remains, and no change is lost |
| Mail and background work | `MailQueue`, `MailSends`, `MailMemory`, `MailLosses`, `MailService`, `BackgroundQueue` | the retry state machine with lost writes and restarts in mid-attempt: a mail is skipped for good exactly if it lacked a recipient, the setting or a rendering; exact counts of deliveries and automatic attempts, and no two attempts on one row at a time; memory drops its oldest terminal mail; per-key queues in call order under every schedule |
| Text | `LikeSearch`, `Slugs`, `MailTemplate`, `MailTokens`, `Csv`, `Strings` | search escaping, Markdown escaping and CSV against independent matchers and readers; the slug of a title is the only one with its letters and digits in its words; in every mail template without escaped variables visitors' values are inert beside trusted links |

How the parts are modelled:

- An object whose methods update its fields is a class (`CacheService`, `OrgPositions`, `AdminApi`,
  `UserRow`, `StaffAccounts`, `MailService`, `BackgroundWork`). Its methods make the writes in the
  order the code makes them and equate the new state with a step of a specification on values; the
  lemmas about that specification carry the invariants over whole runs.
- Database tables are maps, SQL statements are functions on them, and a transaction is one atomic
  step, except in `AdminCover`, where locking, checking and committing are separate steps.
- Clocks, random tokens, new row ids, the outcome of a delivery and what lru-cache evicts, lets
  expire or declines to store are parameters; every statement holds for all of them.
- What the statements are about but nothing stores (when a user was last disabled, which mails
  were delivered, which paths a post used to have) is kept in history values beside the state.

Where a promise is not met on every input, the exact condition is proved and a lemma shows an
input that fails:

- Purging a tag removes an entry that does not carry it when the index still lists the entry's key
  from an earlier store under other tags that lru-cache declined (`CacheSpec.PurgeIsScan`,
  `CacheSpec.VaryingTagsPurgeTooMuch`). Routes store under a fixed list, and then it cannot happen.
- Two requests can share a cache key. They cannot as long as no declared value spells out, behind
  `&`, a parameter declared after its own and no path spells out a declared parameter behind `:`
  (`CacheKeys.KeyDeterminesRequest`); every request that does either has a different one with the
  same key (`CacheKeys.SpelledOutCollides`, `CacheKeys.AmpersandAndColonCollide`).
- After a published rename the old path resolves to the new one, whatever it did before. That is
  not what substituting the new path for the old one gives if a rule put there by hand led away
  from the old path: the rule is replaced (`Redirects.RenameIsSubstitution`,
  `NewsLinks.HandRuleIsReplaced`). A rename of an unpublished post redirects nothing, and its
  earlier paths keep leading to the path it had before (`NewsLinks.StepRemembersExactly`,
  `NewsLinks.DraftRenameLosesFormer`, `NewsLinks.DraftRenameForgets`).
- A mail is delivered at most once, and tried at most four times without an administrator, as long
  as no record of it is lost. Every `sent` update lost after the transport accepted the mail allows
  one more delivery, every swept attempt that leaves no record one more attempt, and both bounds
  are reached for every number of losses (`MailQueue.DeliveriesAreCounted`,
  `MailQueue.AutomaticAttempts`, `MailLosses.DeliveredTwice`, `MailLosses.OnceAndLost`,
  `MailLosses.FourAndLost`).
- A mail that went terminal before its fourth attempt and fails a manual retry is scheduled again
  without a stored payload, although the code's comments describe scheduled rows as recoverable
  after a restart (`MailQueue.StoredPayloads`, `MailLosses.RetriedWithoutPayload`); and a queued row
  whose first attempt left no record is never swept (`MailQueue.QueuedWaitsForRetry`).
- A backslash directly before a template variable undoes the escape of its value; values are inert
  exactly when no token follows an odd run of backslashes (`MailTemplate.ValuesAreInert`,
  `MailTemplate.EscapedTokenLetsThrough`), and visitors' values, whatever the links beside them,
  exactly when none stands behind an open backslash of the template or of a link
  (`MailTemplate.VisitorsAreInert`, `MailTemplate.LinkValueDecides`). A value that ends in a brace
  can be the beginning of a token in the substituted text, which nothing expands again
  (`MailTemplate.TokenBeginsInValue`).
- Every response is current or about to be purged only as long as handlers read tables their tags
  are wired to. The check at boot asks less, that each served tag has some purger; a handler that
  reads any other table leaves a stale response when all purges are done
  (`CacheRuns.UnwiredGoesStale`).
- A title too long for a slug becomes the longest run of its words that fits exactly unless the cut falls
  right behind a later word than the first, which is then dropped although it fits, or inside the
  first, which is then broken (`Slugs.FittedIsLongest`, `Slugs.CutDropsFittingWord`).
- A CSV whose last line is one empty cell reads back without that line (`Csv.RoundTrip`).

## Model

| member | source | states |
|---|---|---|
| CacheSpec.SnapshotsAgree | src/cache/cache.service.ts:131-133 | two version snapshots of a tag list are equal strings exactly when nothing was cleared and none of the tags was purged in between |
| CacheSpec.ClearOutdates | src/cache/cache.service.ts:187-192 | clearing outdates every snapshot of that or an earlier epoch, whatever its tags |
| CacheSpec.PurgeOutdates | src/cache/cache.service.ts:174-176 | of the snapshots that hold, purging a tag outdates exactly those that list it |
| CacheSpec.StoringKeepsCoherent | src/cache/cache.service.ts:136-168 | storing, overwriting, evicting and declining to store keep every stored key indexed under all its tags and the two stores' keys apart |
| CacheSpec.RemovingKeepsCoherent | src/cache/cache.service.ts:174-192 | expiry, purging and clearing keep the same coverage |
| CacheSpec.KeySpacesDisjoint | src/media/media.service.ts:258 | no key can belong to both the response cache and the asset memo |
| CacheSpec.WalkStep | src/cache/cache.service.ts:179-182 | dropping listed keys one at a time, each untagging itself in the index being walked, is the same as dropping them together: no drop disturbs a key still to come |
| CacheSpec.PurgeIsScan | src/cache/cache.service.ts:164-185 | after a purge no entry carrying the tag remains; exactly when the index lists no stored key under a tag it does not carry, the purge equals scanning both stores, and then the count is the number of tagged responses |
| CacheSpec.PurgeForgets | src/cache/cache.service.ts:183-184 | after a purge nothing is listed under its tag, and other keys under other tags are listed as before |
| CacheSpec.RemovingKeepsExact | src/cache/cache.service.ts:174-224 | as long as lru-cache declines nothing the index lists exactly what is stored: expiry, purge and clear keep it so |
| CacheSpec.StoringKeepsExact | src/cache/cache.service.ts:136-168 | so does storing, overwriting and evicting |
| CacheSpec.FixedTagsStayHonest | src/cache/cache.service.ts:136-168 | if each key is always stored under the same tags, every operation keeps the index honest for every tag |
| CacheSpec.VaryingTagsPurgeTooMuch | src/cache/cache.service.ts:136-185 | an input on which a purge removes an entry that does not carry the tag |
| CacheService.KeySet.Delete | src/cache/cache.service.ts:221 | the key leaves the set; its slot is emptied and no other moves, so a walk over the set stays in step |
| CacheService.CacheService.TagKey | src/cache/cache.service.ts:206-215 | exactly the pairs of the key and its tags join the index; no two tags share a set object |
| CacheService.CacheService.UntagKey | src/cache/cache.service.ts:217-224 | exactly those pairs leave the index, a set that runs empty leaves it altogether, and every other slot stays where it was |
| CacheService.CacheService.Drop | src/cache/cache.service.ts:110 | an entry that leaves the response cache takes its tags out of the index |
| CacheService.CacheService.Get | src/cache/cache.service.ts:120-128 | a read returns the stored value unless its lifetime has passed, drops it if so, and counts a hit or a miss |
| CacheService.CacheService.GetMemo | src/cache/cache.service.ts:149-152 | the same read of the memo store, without counting |
| CacheService.CacheService.Set | src/cache/cache.service.ts:136-146 | stores only if no tag was purged since the snapshot; then the entry is what a read finds, unless lru-cache declines it, other keys are untouched but for evictions, and the index follows as specified |
| CacheService.CacheService.SetMemo | src/cache/cache.service.ts:155-163 | the same for the memo store |
| CacheService.CacheService.WalkThrough | src/cache/cache.service.ts:177-183 | the walk visits each key that was listed at its start once, although it deletes from the set it walks and the set may leave the index meanwhile |
| CacheService.WalkSlots | src/cache/cache.service.ts:177-183 | visiting the slots in order drops exactly the keys they held |
| CacheService.CountHits | src/cache/cache.service.ts:178-185 | the purge count is the number of response entries among the listed keys |
| CacheService.CacheService.PurgeTag | src/cache/cache.service.ts:174-185 | the whole purge on the heap is the specified purge: version counted, listed entries gone from the store that had them, tag forgotten |
| CacheService.CacheService.ClearAll | src/cache/cache.service.ts:187-192 | both stores and the index are empty, and every snapshot taken before, of whatever tags, differs from the present version |
| CacheKeys.BuildCacheKey | src/cache/cache.interceptor.ts:153-160 | the loop over the declared parameters builds the specified key, in declaration order |
| CacheKeys.MemoKeyDeterminesAsset | src/media/media.service.ts:258 | two assets never share a memo |
| CacheKeys.KeyDeterminesRequest | src/cache/cache.interceptor.ts:135-160 | two requests of one route share a key exactly when path and every declared parameter agree, as long as no value spells out a later parameter behind `&` and no path a declared one behind `:` |
| CacheKeys.SpelledOutCollides | src/cache/cache.interceptor.ts:153-160 | every request whose value or path spells out such a parameter has a different request with the same key: the one it reads like when cut there |
| CacheKeys.AmpersandAndColonCollide | src/cache/cache.interceptor.ts:153-160 | two pairs of different requests with equal keys, one for each condition |
| CachedReads.LookUp | src/cache/cache.interceptor.ts:103-111 | an entry within its lifetime answers unless a preview is asked for; otherwise the snapshot of the route's tags is taken |
| CachedReads.BeforeHandler | src/cache/cache.interceptor.ts:66-111 | a stored response answers exactly for a GET that asks for no preview the route knows, while the entry lives; otherwise the snapshot of the route's tags is taken before the handler runs |
| CachedReads.AfterHandler | src/cache/cache.interceptor.ts:112-131 | a verified preview is private and never stored, a response marked not worth caching is not stored, any other is stored if its snapshot still holds |
| CachedReads.BeforeAssetQuery | src/media/media.service.ts:257-262 | a memoised answer is returned, else the snapshot of the memo tags is taken before the query |
| CachedReads.AfterAssetQuery | src/media/media.service.ts:263-265 | the answer is memoised on the snapshot's condition |
| CacheProtocol.HoldingReaderIsStorable | src/cache/cache.service.ts:136-137 | a reader whose snapshot still holds has built nothing that a finished purge should have outdated |
| CacheProtocol.CommitKeeps | src/common/crud/crud.factory.ts:319-340 | a committed write makes entries stale only under tags it still owes a purge |
| CacheProtocol.PurgeNextKeeps | src/common/crud/crud.factory.ts:451-456 | a writer's purge removes what the write made stale under that tag and outdates every reader that could still store it |
| CacheProtocol.StepKeeps | src/cache/cache.interceptor.ts:103-132 | every step of unboundedly many readers and writers, eviction, expiry, clearing and restart included, keeps the invariant |
| CacheRuns.StoredIsCurrent | src/cache/cache.interceptor.ts:103-132 | in every reachable state a stored response or memo saw only current versions of each table, or a committed write to it still owes a purge under one of the entry's tags; once those purges are done nothing stale is stored or served |
| CacheRuns.LateStoreIsRefused | src/cache/cache.service.ts:81-90 | the run the snapshot exists for: read, write, purge, store is refused at the store |
| CacheRuns.ClearRefusesReaders | src/cache/cache.controller.ts:53 | a reader under way when an administrator clears the cache fails its snapshot in every later state, so finishing leaves the cache as it is |
| CacheRuns.UndisturbedReaderStores | src/cache/cache.interceptor.ts:103-132 | whatever else goes on, a reader whose tags are not purged, in a cache that is not cleared, stores what it saw under its key when it finishes |
| CacheRuns.UnwiredGoesStale | src/cache/cache-tag-assertion.ts:62-71 | whatever the wiring, a handler that reads a table its tags are not wired to leaves, after a write to it and all its purges, a stale response stored |
| ParentTable.BoundedIsAcyclic | src/org-chart/tree-guard.ts:1-9 | a depth bound on all rows rules out cycles |
| ParentTable.BadParent | src/org-chart/tree-guard.ts:21-24 | a missing parent, the row itself or a descendant always breaks the table |
| ParentTable.FittingParent | src/org-chart/tree-guard.ts:25 | when parent depth and sub-tree height fit, the re-parented table is a valid forest |
| ParentTable.DeepParent | src/org-chart/tree-guard.ts:25 | when they do not fit, some row of the re-parented table lies too deep |
| ParentTable.LeafRemoved | src/org-chart/admin-org-positions.controller.ts:114-123 | removing a row nothing points at keeps the forest valid |
| TreeGuard.IsDescendant | src/org-chart/tree-guard.ts:29-38 | on every table, cyclic ones included, the walk ends and finds the ancestor exactly when it is on the chain above the candidate |
| TreeGuard.DepthOf | src/org-chart/tree-guard.ts:41-51 | on every table the walk ends having counted the different rows on the chain |
| TreeGuard.RowsShownIsDepth | src/org-chart/tree-guard.ts:40-51 | on an acyclic table that count is the depth |
| TreeGuard.ChildrenOf | src/org-chart/tree-guard.ts:56-62 | the map lists the children of each row in row order |
| TreeGuard.Walk | src/org-chart/tree-guard.ts:63-69 | the recursion ends on every table; on a tree it returns the sub-tree's height and adds exactly its rows to the one shared seen-set |
| TreeGuard.SubtreeDepth | src/org-chart/tree-guard.ts:54-71 | one for a new row, and on an acyclic table the height of the sub-tree |
| TreeGuard.CheckParent | src/org-chart/tree-guard.ts:19-26 | each error means what its name says, and on a valid forest the guard accepts exactly the parents that leave a valid forest within the depth |
| OrgChart.OrgPositions.LockTree | src/org-chart/admin-org-positions.controller.ts:138-143 | the locked rows are the position table, one row per id |
| OrgChart.OrgPositions.NextSortOrder | src/org-chart/admin-org-positions.controller.ts:152-160 | directly after the last child, or 0 when there is none |
| OrgChart.OrgPositions.Create | src/org-chart/admin-org-positions.controller.ts:61-74 | succeeds exactly when the chart with the new row is a valid forest of at most five levels, and keeps it one |
| OrgChart.OrgPositions.Update | src/org-chart/admin-org-positions.controller.ts:77-104 | succeeds exactly when the row exists and the chart with its new parent is valid; a moved row goes last unless an order is given |
| OrgChart.OrgPositions.Remove | src/org-chart/admin-org-positions.controller.ts:110-130 | removes exactly the positions without sub-positions and holders |
| OrgChart.OrgPositions.Publish | src/common/crud/crud.factory.ts:385-403 | changes the flag of one row and nothing of the forest |
| OrgChart.OrgPositions.Reorder | src/common/crud/crud.factory.ts:342-356 | each listed row gets the order its last item asks for; everything else and the forest stay |
| OrgChart.LastOrderIs | src/common/crud/crud.factory.ts:342-356 | of several items for one row the last decides |
| OrgChart.NoOrderAsked | src/common/crud/crud.factory.ts:342-356 | a row no item names keeps its order |
| OrgForest.ResolveTone | src/org-chart/public-org-chart.ts:26-33 | never `auto`; a chosen tone is kept, and the automatic ones are neutral, sky, green and from the fourth level on brand |
| OrgForest.GroupByParent | src/org-chart/public-org-chart.ts:42-49 | children grouped in input order, branches under a missing parent left out |
| OrgForest.GroupByPosition | src/org-chart/public-org-chart.ts:50-56 | holders grouped in input order, members without a position left out |
| OrgForest.BuildOrgForest | src/org-chart/public-org-chart.ts:41-69 | the maps and the recursion build the forest defined on the input lists |
| OrgForest.SiblingsInOrder | src/org-chart/public-org-chart.ts:44-49 | siblings are listed in input order, each once |
| OrgForest.HoldersInOrder | src/org-chart/public-org-chart.ts:50-56 | the holders of a position are listed in input order, each once, with their names |
| OrgForest.EachOnce | src/org-chart/public-org-chart.ts:57-68 | an id occurs once in the forest if its whole chain, of at most five rows, is in the input, and not at all otherwise |
| OrgForest.ShownWhenAllPublished | src/org-chart/public-org-chart.ts:35-40 | on the published rows of a valid chart a position is shown exactly when it and all its ancestors are published: the depth cut-off drops nothing |
| OrgForest.NodeShowsPosition | src/org-chart/public-org-chart.ts:57-68 | every node at any place shows the names, tone, holders and children of one position, at the level the position has in the input |
| OrgForest.HolderOnce | src/org-chart/public-org-chart.ts:50-65 | a member appears exactly once when its position is shown and shows its holders, and never otherwise |
| OrgForest.HolderOfNothing | src/org-chart/public-org-chart.ts:51-52 | a member without a position, or with one that is not in the input, appears nowhere |
| Redirects.RenameKeepsNoChain | src/common/crud/crud.factory.ts:482-512 | the four statements of a published rename leave unique sources, no self-rule and no target that is a source |
| Redirects.RenameIsSubstitution | src/common/crud/crud.factory.ts:482-512 | every path other than the new one resolves as before with the new path put for the old one; for the old path itself exactly when no rule led away from it to a third path |
| Redirects.ClearKeepsNoChain | src/common/crud/crud.factory.ts:510-512 | clearing the rules away from a live path keeps all others and the absence of chains |
| Redirects.ClearRemovesLoops | src/common/crud/crud.factory.ts:510-512 | in any table, clearing removes rules away from the path and rules onto themselves, and no others |
| Redirects.GuardIsExact | src/redirects/redirects.controller.ts:66-76 | of rules with different ends the guard lets through exactly those that leave the table without chains |
| Redirects.GuardNamesReason | src/redirects/redirects.controller.ts:66-76 | the refusal is a taken source exactly if another rule has it, and otherwise a chain exactly if one would arise |
| NewsLinks.StepKeepsValid | src/redirects/redirects.controller.ts:41-58 | every write by editors and administrators keeps the table without chains and slugs unique |
| NewsLinks.AcceptedExactly | src/redirects/redirects.controller.ts:41-58 | a write is accepted exactly if its row exists, slugs stay unique and the table stays without chains |
| NewsLinks.PostsChange | src/common/crud/crud.factory.ts:319-431 | what an accepted write makes of every post, field by field; a refused one changes nothing |
| NewsLinks.EditorsKeepPathsLive | src/common/crud/crud.factory.ts:319-331 | no write to posts, and no removal of a rule, makes a post's own path a redirect source |
| NewsLinks.StepKeepsPathsLive | src/common/crud/crud.factory.ts:505-512 | present paths of posts stay free of redirects through a write exactly unless it is an accepted rule, added or edited, with such a path as its source |
| NewsLinks.StepKeepsFormer | src/common/crud/crud.factory.ts:468-512 | every write keeps each remembered former path leading to its post's present path |
| NewsLinks.StepRemembersExactly | src/common/crud/crud.factory.ts:468-512 | a former path still leads to its post after a write exactly if it stays remembered: what is dropped no longer leads there |
| NewsLinks.DraftRenameLosesFormer | src/common/crud/crud.factory.ts:482-503 | after a rename of an unpublished post its former paths resolve to the path it had before and no longer to its present one |
| NewsLinks.DraftRenameForgets | src/common/crud/crud.factory.ts:482-503 | a run in which a once published path ends up on a path no post has |
| NewsLinks.HandRuleIsReplaced | src/common/crud/crud.factory.ts:494-500 | a run in which a rule put on a live path by hand is replaced by the rename, so that substitution on what the path resolved to is not what happens |
| NewsLinks.FormerPathsResolve | src/common/crud/crud.factory.ts:468-512 | after any run, every path a post was published under resolves in one hop to its present path, unless another post took it, its rule was edited by hand or the post was renamed as a draft |
| NewsLinks.GivenUpPathResolves | src/common/crud/crud.factory.ts:468-512 | the path a published post gives up by a rename resolves to its present path ever after, unless another post takes it, its rule is edited or removed by hand, or the post is removed or renamed as a draft |
| NewsLinks.LivePathsResolveToThemselves | src/common/crud/crud.factory.ts:505-512 | all through a run present paths of posts resolve to themselves exactly when no rule is put on one by hand |
| NewsLinks.AdminApi.CreatePost | src/common/crud/crud.factory.ts:319-340 | a free slug is taken and rules away from its path are cleared |
| NewsLinks.AdminApi.SaveWithRedirect | src/common/crud/crud.factory.ts:468-503 | the statements run only for a changed slug, and the redirect only for a post that was published |
| NewsLinks.AdminApi.UpdatePost | src/news/admin-news.controller.ts:44-52 | a slug another post has is refused before anything changes, else the update is the specified step |
| NewsLinks.AdminApi.PublishPost | src/common/crud/crud.factory.ts:385-403 | publishing touches no rule |
| NewsLinks.AdminApi.RemovePost | src/common/crud/crud.factory.ts:405-431 | removing a post touches no rule |
| NewsLinks.AdminApi.CreateRule | src/redirects/redirects.controller.ts:41-44 | a rule is added only past the guard, with the guard's refusal otherwise |
| NewsLinks.AdminApi.UpdateRule | src/redirects/redirects.controller.ts:47-58 | the edited rule is checked with its missing ends filled in from the row and itself left out |
| Lockout.BackoffIsLockMinutes | src/auth/auth.service.ts:38-40 | 15 times two to the lock count, capped at an hour, is 15, 30, then 60 minutes |
| Lockout.UserRow.RegisterFailedAttempt | src/auth/auth.service.ts:422-434 | a failure a day or more after the last leaves a count of one and the lock as it was; any other is counted, and locks at the tenth; the left-to-right assignments, NULL comparisons included, add up to that |
| Lockout.LocksAtTheTenth | src/auth/auth.service.ts:405-434 | over any series of attempts, sign-ins and unlocks and any span of time: a wrong password that is looked at locks exactly when it is the tenth since the last lock, fresh start or day-long pause, and then for 15, 30 or 60 minutes by the locks since the last fresh start or day without one |
| Lockout.HistoryTells | src/auth/auth.service.ts:405-434 | the counters say no more than that history does |
| Lockout.StreakIs | src/auth/auth.service.ts:426 | at least so many failures are counted exactly if the last so many were looked at less than a day apart with no lock or fresh start between |
| Lockout.LateLockIsShort | src/auth/auth.service.ts:425 | a lock that comes a day or more after every earlier one ended lasts 15 minutes |
| Lockout.GuessesLockAtTheTenth | src/auth/auth.service.ts:422-434 | in any run of guesses a lock comes exactly with the tenth counted one |
| Lockout.UserRow.Login | src/auth/auth.service.ts:103-133 | a locked account is refused without looking at the password |
| Lockout.StaysInRange | src/auth/auth.service.ts:405-434 | the count stays below ten, a lock count means a known lock end, and a wrong password locks exactly when it restarts the count |
| Lockout.WindowInvariant | src/auth/auth.service.ts:405-434 | inside a window no count lapses twice, each lock lasts as long as the ones before have driven it up to, and after a lock past the window's end nothing is counted |
| Lockout.GuessBound | src/auth/auth.service.ts:37-42 | in any run of wrong passwords within less than a day at most 26 locks fit, at most 10 per lock plus 9 and at most 260 in all are looked at |
| Lockout.GuessBoundIsReached | src/auth/auth.service.ts:37-42 | a run within a day that locks 26 times and has 260 wrong passwords looked at |
| Users.LastAdminIsExact | src/users/users.service.ts:103-199 | a change that is no change of the actor's own role, or a removal of another, is refused as the last administrator's exactly when it would leave no active one |
| Users.AcceptedExactly | src/users/users.service.ts:103-199 | a change is accepted exactly if the account exists, it is not of the actor's own role, does not activate an invited account and leaves an active administrator and unique addresses; a removal exactly if it is of another and leaves one |
| Accounts.AcceptedSessions | src/auth/guards/session.guard.ts:83-101 | in every reachable state an unrevoked session belongs to an active account and was made after its last disable, reset and ending of other sessions, so the guard's status test never decides |
| Accounts.OutstandingTokens | src/auth/auth.service.ts:337-404 | in every reachable state an outstanding token was issued after its user's last token use, disable and address change, fits the account's status, and no token was applied twice |
| Accounts.ResetVoids | src/auth/auth.service.ts:337-354 | a completed reset leaves the user no live session and no outstanding link, clears the lock, and cannot be repeated |
| Accounts.ChangeVoids | src/users/users.service.ts:153-164 | a disable leaves no live session and no outstanding link, a change of address no outstanding link |
| Accounts.DisabledStaysOut | src/auth/auth.service.ts:99-133 | by every step, renames and new addresses included, a disabled account stays disabled, without session and link, exactly unless an administrator's change that enables it is accepted |
| Accounts.DisabledStaysOutForGood | src/auth/auth.service.ts:99-133 | the same over any run in which no such change is accepted and a removed id is not given again |
| AccountRuns.SignInOpens | src/auth/auth.service.ts:147-155 | a sign-in opens one session of that account, accepted exactly while it is neither expired nor idle, and touches no other |
| AccountRuns.SessionEndsExactly | src/auth/auth.service.ts:166-239 | a live session goes on exactly until a step that ends it: its logout, its ending, the ending of others, a password change, a reset, a disable or a removal; only a use changes its row |
| AccountRuns.AcceptedUntilEnded | src/auth/guards/session.guard.ts:86-97 | over any run that does not end it a session is accepted exactly until it expires or its last use is too long ago |
| AccountRuns.EndedForGood | src/auth/auth.service.ts:166-215 | session rows go only with their user, and one that ended stays ended |
| AccountRuns.LinkEndsExactly | src/auth/auth.service.ts:365-404 | an outstanding link stays as it is exactly until a link of the user is used, the user is disabled, moved to another address or removed |
| AccountRuns.UsedForGood | src/auth/auth.service.ts:393-402 | a used link is recorded as used for as long as its user exists |
| AccountRuns.InvitationLasts | src/auth/auth.service.ts:245-268 | a new invited row without a password and a token that can be accepted for exactly 48 hours |
| AccountRuns.ResetLinkLasts | src/auth/auth.service.ts:306-330 | a reset link works for exactly an hour, and sending it changes no row |
| AccountRuns.CredentialsChange | src/auth/auth.service.ts:222-404 | a password changes exactly by its owner, who knows it or has a link, a status exactly by a link or an accepted change |
| AccountRuns.ProfileChanges | src/users/users.service.ts:131-151 | name, address and role change exactly as an accepted change says |
| AccountRuns.LockChanges | src/auth/auth.service.ts:99-140 | the lock counters see every attempt on an active account, every used link and every unlock, and nothing else |
| AccountRuns.MarksRecord | src/auth/auth.service.ts:205-404 | the marks the statements on runs are about are set exactly by the events they are named for |
| AccountRuns.AppliedRecords | src/auth/auth.service.ts:365-404 | a token is recorded as applied exactly when its account write is made |
| Accounts.StepKeeps | src/auth/auth.service.ts:90-404 | every write of the two services keeps the invariant behind both, addresses unique and lock counters in range |
| Accounts.ConsumeKeeps | src/auth/auth.service.ts:365-404 | spending a token keeps the invariant, and a token that can be spent has never been applied |
| Accounts.UpdateKeeps | src/users/users.service.ts:131-164 | an administrator's change keeps it: disabling voids sessions and tokens, a new address voids tokens |
| Accounts.StaffAccounts.Login | src/auth/auth.service.ts:90-156 | signs in exactly an active, unlocked account with the right password; then one session of that account is opened, accepted at any time exactly until it expires or has been idle too long, and the others stay as they were |
| Accounts.StaffAccounts.ResolveStaffSession | src/auth/guards/session.guard.ts:83-123 | resolves exactly the sessions the query accepts, always to an active account, and refreshes the last use exactly if it is more than a minute old |
| Accounts.StaffAccounts.EndSession | src/auth/auth.service.ts:195-203 | ends a session only for its owner or an administrator |
| Accounts.StaffAccounts.EndOtherSessions | src/auth/auth.service.ts:205-215 | revokes every session of the user but one and counts those that were live |
| Accounts.StaffAccounts.ChangePassword | src/auth/auth.service.ts:222-239 | needs the current password and then ends every other session |
| Accounts.StaffAccounts.Invite | src/auth/auth.service.ts:245-268 | a new invited row and its token, unless the address is taken |
| Accounts.StaffAccounts.ConsumeToken | src/auth/auth.service.ts:365-404 | succeeds exactly for an unused, unexpired token of the purpose whose account has the allowed status, marks it used and drops the user's other outstanding ones |
| Accounts.StaffAccounts.AcceptInvite | src/auth/auth.service.ts:276-285 | only an invited account becomes active by its invitation |
| Accounts.StaffAccounts.SendPasswordReset | src/auth/auth.service.ts:306-330 | a token is issued exactly for an active account |
| Accounts.StaffAccounts.ResetPassword | src/auth/auth.service.ts:337-354 | only for an active account, and it ends every session |
| Accounts.StaffAccounts.ChangeTarget | src/users/users.service.ts:112-149 | the checks and assignments, in the code's order, accept and compute exactly the specified change |
| Accounts.StaffAccounts.Update | src/users/users.service.ts:103-168 | the row, sessions and tokens after an accepted change, and nothing after a refused one |
| Accounts.StaffAccounts.RemoveUser | src/users/users.service.ts:175-199 | the user goes with all tokens and sessions, unless it is the actor or the last active administrator |
| AdminCover.OneAtATime | src/users/users.service.ts:105-110 | while one change or removal holds its locks no other can get its own |
| AdminCover.StepKeeps | src/users/users.service.ts:103-199 | every step of any number of overlapping changes, removals, invitations and acceptances keeps the cover |
| AdminCover.CoverIsNeverLost | src/users/users.service.ts:84-102 | an active administrator remains in every reachable state |
| AdminCover.NoWriteIsLost | src/users/users.service.ts:94-110 | what a transaction commits is its change of the row as it is committed then, whatever was written since it took its locks |
| AdminCover.ChangeGoesThrough | src/users/users.service.ts:103-199 | a change or removal that is not refused, with nothing else under way, is locked, checked and committed as it says |
| AdminCover.AcceptedAdminCovers | src/auth/auth.service.ts:276-285 | an accepted invitation to administer is cover enough |
| AdminCover.ChecksAloneLoseCover | src/users/users.service.ts:94-99 | without the locks two administrators could remove each other, both past the check |
| MailQueue.EvictionSparesDeliveries | src/mail/mail.service.ts:287-295 | making room drops at most one entry, and only one whose row is terminally failed |
| MailQueue.ContentIsRendered | src/mail/mail.service.ts:145-149 | what an attempt sends, from memory or from the row, is what was rendered |
| MailQueue.StepKeeps | src/mail/mail.service.ts:77-295 | sends, the transport's answers, writes that are made or fail, the beginning and end of sweeps, and restarts at any point between them keep the invariant |
| MailQueue.StoredPayloads | src/mail/mail.service.ts:33-47 | a payload is stored only on queued or retry-scheduled rows of non-sensitive mail, and on such a row exactly while it never went terminal |
| MailQueue.ScheduledRetries | src/mail/mail.service.ts:209-211 | a scheduled retry follows attempt 1, 2 or 3 by 1, 5 or 15 minutes |
| MailQueue.AutomaticAttempts | src/mail/mail.service.ts:14-18 | without an administrator a mail is tried at most once when queued and three times by the sweep, and once more for each swept attempt that left no record; an attempt whose transport cannot be built reaches none and is not counted |
| MailQueue.DeliveriesAreCounted | src/mail/mail.service.ts:180-205 | a mail is delivered, always as rendered, once for each lost `sent` update and once for the one that was made; at most once exactly when no update, or one with no accepted attempt after it, was lost |
| MailQueue.UnderWay | src/mail/mail.service.ts:180-205 | while an attempt is under way at most its own delivery and sweep are not accounted for yet |
| MailQueue.AttemptsNeverOverlap | src/mail/mail.service.ts:246-258 | no first, swept or manual attempt is begun on a row that has one under way, as long as manual retries do not overlap with others: sweeps do not by the flag and the wait, first attempts not by the row's status |
| MailQueue.SweepsKeepOrder | src/mail/mail.service.ts:250-255 | the rows a sweep has still to visit have been tried before, are listed once each and have no attempt but a manual one under way |
| MailQueue.OneSweptAtATime | src/mail/mail.service.ts:246-258 | in every reachable state at most one swept attempt is under way |
| MailLosses.LostSentIsSentAgain | src/mail/mail.service.ts:188-200 | whenever the `sent` update of an accepted attempt before the fourth is lost and the failure is recorded, a sweep can deliver the mail again |
| MailLosses.DeliveredTwice | src/mail/mail.service.ts:188-200 | a run from the empty queue in which one mail is delivered twice |
| MailLosses.OnceAndLost | src/mail/mail.service.ts:188-206 | for every number of lost `sent` updates a run that delivers a mail that many times and once more |
| MailLosses.FourAndLost | src/mail/mail.service.ts:201-206 | for every number of lost records a run that makes four automatic attempts and that many more |
| MailQueue.SentIsFinal | src/mail/mail.service.ts:139-143 | no step changes a sent row |
| MailLosses.RetriedWithoutPayload | src/mail/mail.service.ts:213-228 | a failed manual retry of a terminal row schedules it again without a payload exactly when fewer than three attempts were made |
| MailLosses.TerminalAfterOneAttempt | src/mail/mail.service.ts:172-178 | a run that reaches such a row |
| MailQueue.QueuedWaitsForRetry | src/mail/mail.service.ts:246-259 | a queued row whose first attempt is over without a record changes only by a manual retry |
| MailSends.SendDecides | src/mail/mail.service.ts:77-126 | with a recipient, mail switched on and a rendering: a queued row, the content in memory, a first attempt to start; without one of them a skipped row and nothing else; the payload is stored unless sensitive |
| MailSends.SkippedExactly | src/mail/mail.service.ts:86-105 | in every later state a mail is skipped exactly if one of the three was missing when it was sent, and then it has no content and no attempt, and nothing of it was ever delivered |
| MailSends.SensitiveIsNeverStored | src/mail/mail.service.ts:100-101 | in every later state all that was delivered is what was rendered, and a row never holds a sensitive mail |
| MailSends.GivenUpWithoutContent | src/mail/mail.service.ts:150-163 | a live row whose content is gone is given up by the next attempt, delivers nothing and is never swept again |
| MailSends.RefusedRetry | src/mail/mail.service.ts:270-282 | a manual retry of an unsent row is refused exactly when its content is gone, and then changes nothing |
| MailMemory.StepKeepsOrder | src/mail/mail.service.ts:50 | the mails in memory keep the order in which they were put in through every step |
| MailMemory.OldestGoes | src/mail/mail.service.ts:287-295 | with 500 mails in memory the terminally failed one that has been there longest goes, if there is any; otherwise none does |
| MailMemory.SendMakesRoom | src/mail/mail.service.ts:106-107 | so in every reachable state a send adds its mail and drops at most that one |
| MailService.MailService.Send | src/mail/mail.service.ts:77-126 | a queued row with its first attempt to start exactly if there is a recipient, mail is enabled and a rendering exists; otherwise a skipped row with nothing in memory and no attempt |
| MailService.MailService.EvictIfAtCapacity | src/mail/mail.service.ts:287-295 | the loop drops the oldest terminal entry once the map is full |
| MailService.MailService.RecordFailure | src/mail/mail.service.ts:209-235 | the row and the entry after a failed attempt, the payload gone when terminal |
| MailService.MailService.AskTransport | src/mail/mail.service.ts:139-187 | the first half of an attempt, up to the transport's answer, is the specified step |
| MailService.MailService.WriteLog | src/mail/mail.service.ts:188-206 | the write an attempt is waiting for, made or failed, is the specified step: a failed `sent` update leads to a failure record, any other failed write to nothing |
| MailService.MailService.AttemptDelivery | src/mail/mail.service.ts:137-207 | one attempt is the question and then at most two writes, as the outcomes have it |
| MailService.AttemptIsRun | src/mail/mail.service.ts:137-207 | an uninterrupted attempt prolongs a run by its single steps, asks for its own row alone and leaves the others as they were |
| MailService.MailService.SweepRetries | src/mail/mail.service.ts:246-259 | returns at once while a sweep is running; else attempts exactly the rows due when it began, one after the other, each with its own times and outcomes, and clears the flag |
| MailService.SweepIsRun | src/mail/mail.service.ts:246-259 | an uninterrupted sweep is a run that begins, asks once for each row due, in order, and ends, as long as no manual retry of one of them is under way |
| MailService.MailService.RetryNow | src/mail/mail.service.ts:262-284 | refused exactly for unknown rows and for content that is gone; a sent row is returned as it is and nothing changes |
| BackgroundQueue.StepKeeps | src/common/background/background-work.service.ts:31-44 | every move of the event loop and every new call keep the chains in order |
| BackgroundQueue.OneAtATimeInOrder | src/common/background/background-work.service.ts:14-16 | tasks of one key run one at a time in call order, failed ones not in the way |
| BackgroundQueue.TailIsLastUnfinished | src/common/background/background-work.service.ts:40-43 | the tail of a key is its last unfinished task, and there is none exactly when all are over |
| BackgroundQueue.SettledMeansIdle | src/common/background/background-work.service.ts:46-51 | nothing in flight means nothing queued, running or half done, tasks started by tasks included |
| BackgroundQueue.NeverStuck | src/common/background/background-work.service.ts:33-36 | while anything is in flight some task can move on |
| BackgroundQueue.StepsCountDown | src/common/background/background-work.service.ts:47-51 | without new calls every move brings the queue closer to settled |
| BackgroundQueue.BackgroundWork.Run | src/common/background/background-work.service.ts:31-39 | a task joins the set in flight and becomes the tail of its key, behind the tail it found |
| BackgroundQueue.BackgroundWork.Finally | src/common/background/background-work.service.ts:40-43 | a task leaves the set, and the tails only if it is still a tail |
| BackgroundQueue.BackgroundWork.Move | src/common/background/background-work.service.ts:33-43 | any one move of the event loop, a new call included, is a step that keeps the chains in order and leaves less to do |
| BackgroundQueue.BackgroundWork.AllSettled | src/common/background/background-work.service.ts:49 | waiting for the promises of one moment is a schedule after which none of those is in flight |
| BackgroundQueue.BackgroundWork.Settled | src/common/background/background-work.service.ts:47-51 | waiting ends, whatever the order of moves and whatever finitely many tasks are started meanwhile, with every task over and no tail left |
| LikeSearch.EscapedMatchesItself | src/common/query/list-params.ts:91-93 | an escaped term in a pattern matches its own text and nothing else |
| LikeSearch.SearchIsSubstring | src/common/crud/crud.factory.ts:265-272 | a text is found exactly when the term occurs in it literally |
| Slugs.SlugReIsWellFormed | src/common/validation/slug.ts:8 | the slug pattern means: no hyphen at an end, no two in a row, only lower-case letters, digits and hyphens |
| Slugs.SlugifyEnIsSlug | src/common/text/slugify.ts:13-20 | whatever the title, the result is empty or matches the pattern |
| Slugs.SlugifyEnLetters | src/common/text/slugify.ts:13-20 | the slug has the letters and digits of the title without its marks, in order; between two of them stands a hyphen exactly when something else stood between them |
| Slugs.SlugifyEnKeeps | src/common/text/slugify.ts:13-20 | without its hyphens the slug is exactly those letters and digits |
| Slugs.OnlySlugOfTitle | src/common/text/slugify.ts:13-20 | no other slug has the letters and digits of the title in the same words |
| Slugs.MarksCountForNothing | src/common/text/slugify.ts:17 | a combining mark changes nothing, wherever it stands |
| Slugs.NothingElseDropped | src/common/text/slugify.ts:17 | and nothing but marks is dropped before hyphens are put in |
| Slugs.SlugBase | src/common/text/slugify.ts:23-27 | the base says what the English title says, or if that is blank what the Arabic one says, and is empty when both are |
| Slugs.TitleDecides | src/common/text/slugify.ts:23-27 | an English title with text decides, whatever the Arabic one is, and the base is the one slug that says what it says |
| Slugs.TitlesWithTextCount | src/common/text/slugify.ts:24-25 | a title with anything but spaces in it is the one the slug says |
| Slugs.BlankTitlesCountForNothing | src/common/text/slugify.ts:24-25 | a blank title is as good as none |
| Slugs.FittedIsSlug | src/common/text/slugify.ts:48 | cutting at a word boundary keeps a slug a slug and leaves room for a suffix |
| Slugs.FittedAtHyphen | src/common/text/slugify.ts:48 | a slug cut at a hyphen is its longest run of whole words shorter than the room there is |
| Slugs.FittedIsLongest | src/common/text/slugify.ts:48 | it is the longest run that fits exactly unless the cut falls right behind a later word than the first or inside the first |
| Slugs.CutDropsFittingWord | src/common/text/slugify.ts:48 | a title that loses a word that would have fitted |
| Slugs.FallbackOnlyWhenNeeded | src/common/text/slugify.ts:49 | the fallback is used exactly for an empty or a reserved base |
| Slugs.CandidateIsSlug | src/common/text/slugify.ts:54 | a suffix keeps the pattern, the length for up to five digits, and is never a reserved word |
| Slugs.FirstFree | src/common/text/slugify.ts:50-56 | the loop ends for every finite set of slugs after at most one try more than there are slugs, at the first free candidate |
| Slugs.GenerateUniqueSlug | src/common/text/slugify.ts:37-57 | the result is free; a title whose slug is short and not reserved gives that slug, or it with the first free number behind; without titles it is the fallback so; with the callers' fallback and reserved words it obeys every slug rule |
| Slugs.PostFallbackIsValid | src/news/admin-news.controller.ts:39 | the fallback of news posts is a valid slug |
| MailTemplate.TwoPassesAreOne | src/mail/render-template.ts:44-47 | escaping Markdown characters and then autolink characters is one pass over both sets |
| MailTokens.MatchesExactly | src/mail/render-template.ts:1 | a token is found at the start of a text exactly when one is spelled there: braces, spaces, a name, spaces, braces |
| MailTokens.SubstitutesInPlace | src/mail/render-template.ts:71-86 | substitution leaves what stands before the first token, puts the variable's value in its place, escaped in Markdown and as it is in plain text, and goes on behind it |
| MailTokens.TextStays | src/mail/render-template.ts:71-86 | a text without tokens stays as it is |
| MailTemplate.EscapedCharacters | src/mail/render-template.ts:22-35 | the characters escaped against Markdown and against autolinks |
| MailTemplate.ValuesAreLossless | src/mail/render-template.ts:24-47 | unescaping as in section 2.4 of the CommonMark specification gives every value back |
| MailTemplate.ValueIsInert | src/mail/render-template.ts:11-47 | an escaped value shows a parser no active character of its set and leaves it in step |
| MailTemplate.ValuesAreInert | src/mail/render-template.ts:49-73 | whatever the values, the substituted text has the active characters of the template and no others, exactly when no token follows an odd run of backslashes and, where autolink characters count too, none is the link |
| MailTemplate.VisitorsAreInert | src/mail/render-template.ts:28-47 | with the links given, the active characters are those of text and links for all other values exactly when no visitor's value stands behind an open backslash, of the template or of a link |
| MailTemplate.VisitorsNeverAutolink | src/mail/render-template.ts:28-47 | on every template without escaped tokens two fillings with the same links show a parser the same active characters, autolink characters included, whatever the visitors' values |
| MailTemplate.LinksAddAutolinks | src/mail/render-template.ts:33-47 | what links add to a template without escaped tokens is their own colons, dots and at-signs, in their places |
| MailTemplate.LinklessShowsNoValue | src/mail/render-template.ts:28-47 | on templates without a link variable no character of a value is active |
| MailTemplate.LinkValueDecides | src/mail/render-template.ts:44-47 | behind a backslash one link value leaves the next visitor's value escaped by it and another does not |
| MailTemplate.EscapedTokenLetsThrough | src/mail/render-template.ts:71-73 | a template, a backslash before a token, on which the condition fails and a value becomes active |
| MailTemplate.EscapedHoldsNoToken | src/mail/render-template.ts:22-47 | inside an escaped value a backslash stands before every brace |
| MailTemplate.TokenBeginsInValue | src/mail/render-template.ts:1-6 | a token of the substituted text begins inside a value exactly when the value ends in a brace that completes a token with what follows |
| MailTemplate.BraceIsTheTemplates | src/mail/render-template.ts:1-6 | such a following brace is always the template's own |
| MailTemplate.TokenGoesAroundValue | src/mail/render-template.ts:1-6 | a token that begins before a value and reaches into it goes all around it, and the value is of unescaped name characters and spaces |
| MailTemplate.BraceBeginsToken | src/mail/render-template.ts:71-73 | a template and a value that end up as a token in the substituted text |
| MailTemplate.OnlyExtractedMatter | src/mail/render-template.ts:4-6 | both substitutions depend on the extracted variables only |
| Csv.Guard | src/common/csv.ts:11-20 | a guarded cell starts with no formula trigger, is the cell itself or the cell behind an apostrophe, and differs exactly when the cell starts with a trigger |
| Csv.ReadsField | src/common/csv.ts:19-25 | a reader of section 2 of RFC 4180 reads a written cell back, guarded, and stops where it ends |
| Csv.RoundTrip | src/common/csv.ts:32-36 | reading a written table gives back header and cells, triggers guarded, exactly when its last line is not a single empty cell |
| Csv.GuardMerges | src/common/csv.ts:19-20 | guarding makes two cells the same exactly when they are, or one is a formula and the other that formula behind an apostrophe |
| Csv.SameTextSameCells | src/common/csv.ts:19-36 | two tables written the same have the same shape and differ cell by cell at most by such an apostrophe |

## Left out

- lru-cache's eviction order, clock and size accounting: what it evicts, lets expire or declines is a choice every statement holds for; `stats` only reads.
- CacheKeys.KeyDeterminesRequest: query values that are arrays are not modelled; the simple parser can produce them, and the code joins them with commas.
- Response headers other than Cache-Control, and the check at boot that every served tag has some purger; that handlers read only tables their tags are wired to is an assumption of `CacheProtocol`.
- Ids as other spellings of one number: the position id of the route is taken as the row's id.
- The two reads before `assertNoChain` and the insert that follows are one step here; two administrators adding rules at the same moment are not modelled, nor is a creation that fails between the post and its clean-up.
- Path and slug comparison is equality: MySQL collations, which also fold case and accents, are not modelled; nor are the 255 character limit and the pattern of redirect paths.
- Bulk deletion of legacy posts is a series of single removals; hit counters and status codes of rules, publication dates and warnings of posts are not modelled.
- The 16-bit width of the lock counters and 64-bit floating point timestamps: numbers are unbounded.
- `login` and `sendPasswordReset` are one step each; their awaits would otherwise let a session or a token appear just after a disable. One clock that hands out increasing creation times is assumed.
- The per-address login limiter, audit rows, password hashing, CSRF tokens and the mail that carries a token.
- AdminCover: a locking statement gets all its rows at once; deadlocks, which MySQL resolves by rolling one side back, are not modelled, and a rollback may happen at any time.
- A manual retry that overlaps with another attempt on the same row, and the bounded wait of `awaitDelivery`; a write that fails is taken as not made.
- Deletion of old mail rows, templates and settings tables, the SMTP conversation itself.
- The shutdown wait of the background queue, which only bounds `settled`, and its log lines.
- LIKE under a case-insensitive collation, and the other filters, paging and ordering of the lists.
- Lower-casing, Unicode decomposition and Arabic normalisation are arbitrary maps on titles.
- Slugs.GenerateUniqueSlug: another request taking the slug between the last check and the insert is left to the unique index.
- What Markdown rendering and sanitising do with the substituted source; the model stops at which characters are escaped.
- The byte order mark and the conversion of numbers, booleans and missing values to cell text.
- Media storage, public read controllers, newsletter, contact messages, licences, the role matrix and the nightly retention job, which would add only simple members.
