# Verification of the ripcale event store

Ripcale gathers calendar events from many sources into one table. Every run compares what a source
lists with what is stored, writes the difference, stamps what it saw, and then archives what has
expired or has gone missing. Around that table sit a few smaller machines: a retry queue for posts a
language model has to read, a memo of hosted images with a garbage collector, a reconciler for
declared recurring series, a duplicate sweep, a log tail, a URL redactor, a login limiter and a
recurrence-rule normaliser.

This project models those parts in Dafny and proves what they are for. `dafny verify dfyconfig.toml`
checks all of it.

## How the model is laid out

- `Schema`, `Database`, `Text`, `Wrappers`: the records of the pipeline, the store every stage writes
  through, and Python's text helpers (`split`, `join`, `sorted(set(...))`, `strip`).
- `Identity`, `Categorize`, `Expiry`, `Sieve`, `Decisionmaker`, `Archive`, `Events`, `Conflicts`,
  `Ingest`: one module per stage. Code that changes the store is a method on it; its `ensures` ties
  the new state to a function of the old one, and what the stage promises is proved about that
  function.
- `Lifecycle`, `Reingest`, `Freezing`, `Removal`, `Masters`, `Survival`, `ConflictQueue`: what holds over
  whole runs of sources' turns (fetches of events or posts, then the declared placeholders), failed turns,
  approved changes to a source's declarations, archive passes, admin edits, restores and conflict
  resolutions. Every step brings its own settings, every fetch its own hosting of images and every restore
  its own re-hosting, so a download may fail once and succeed later. `Lifecycle.RunLockedIsARun` shows
  that the run loop of app/ingest.py is such a run, so every theorem about runs is one about it. A step is
  unattended if it is a turn, an approved declaration or an archive pass.
- `PostQueue`, `PostMachine`: the post queue, then every interleaving of its transactions.
- `Images`, `Placeholders`, `Overseer`, `LogTail`, `Redactor`, `LoginLimiter`, `Recurrence`,
  `RuleSettling`: one module per remaining machine; `RuleSettling` says exactly when the rule
  normaliser is idempotent.

A time is an instant in whole microseconds (seconds, as reals, in the login limiter). SHA-256 is
collision-free: an id is its key and a content hash is its payload; the digest in a declared series' uid
is some text of 64 hexadecimal digits. `isoformat` is some function that gives different instants different
texts, each with a dash and without a bar, none of which ends in a colon and another instant's text. A list
that is sorted before it is hashed is kept as a multiset. A column that holds JSON text is kept as the list
it loads to.

## What turned out not to hold

- Source ids are only separate while no source name is another name, a colon, and more
  (`Identity.CollisionsAreColonExtensions`). Where two sources do share an id, the other one's fetch can
  get a listed row removed (`Removal.SharedIdIsRemovedWhileListed`, `Removal.ColonLosesListedRow`). The
  removal theorems ask, for the one row they speak of, that no other source is named so.
- A uid that ends in a colon and an instant can take the place of a recurrence override
  (`Identity.UidIdentity`, `Identity.SpelledOverrideCollides`), and one that spells a title, a bar and a start
  can take the place of an event without a uid (`Identity.UidAgainstTitle`).
- Freezing is a promise of the sieve. The decisionmaker alone overwrites an archived row if it is
  handed one (`Freezing.ApplyAloneThaws`). And it is a promise of the sieve only: declared placeholders
  revive archived rows and rewrite pinned ones (`Freezing.ArchivedRowChangesExactly`,
  `Freezing.PinnedRowChangesExactly` say exactly when).
- A listed event can go within its own source's turn, as a live override of a master the source no
  longer declares (`Survival.OnlyPlaceholdersTakeListedEvents`, and at one input
  `Survival.RepublishedSeriesLosesOccurrence`). It takes a feed that lists the uid of a declared series.
  Ripcale's own calendar publishes ids instead (app/services/ics.py:79), so such a feed has the uid from
  elsewhere. The turn of a source left with no declarations retires none of its masters, since the call
  is then skipped; the approval that removes the last declaration does retire them.
- Two declarations of a source whose title, rule and start read the same once joined by colons are one
  series, and only the last of them keeps its content (`Placeholders.SharedSeriesExactly`).
- A model decision that names one occurrence in text that does not parse is carried out on the whole event:
  deleting "next Monday" of a series archives the series (`PostQueue.NamedOccurrenceWidensExactly`,
  `PostQueue.UnreadOccurrenceDropsSeries`).
- A prune does not look at the post queue. A waiting post's image that no live event shows is deleted, and
  the event made from the post cannot get it back, since the queue does not keep where it came from
  (`Images.QueuedImageSurvivesExactly`); only gathering the post again downloads it again.
- A download that fails in one fetch and succeeds in another makes an unchanged event a reported update
  (`Reingest.HostedAlikeExactly`).
- The guarantee that an outage removes nothing does not survive a restore by hand: between the restore
  and the next fetch an archive pass may take the row although its source lists it
  (`Removal.RestoredRowRemovedWhileListed`). It does not extend to placeholders either
  (`Masters.RunsLosePlaceholders`).
- Restoring keeps the stored hashes right exactly when every image that has to be fetched again comes back
  the same (`Images.GalleryKeptExactly`, `Images.RestoreCoherentExactly`), and declaring a series exactly
  when the master it refreshes has no other content (`Lifecycle.MaterializeCoherentExactly`).
- A dispute the source withdraws stays pending with the withdrawn content
  (`ConflictQueue.PendingIsListedExactly`).
- Content queued while the model is busy with the old content is closed with the old answer, except
  after a transient failure or an escaped error (`PostMachine.ChangeDuringCallStaysQueued`).
- `normalize_rrule` is documented as idempotent and as keeping the Z of a UTC `UNTIL`. Both fail on odd
  input; `RuleSettling.IdempotentExactlyWhenTidy`, `RuleSettling.ZoneKeptExactly` and
  `Recurrence.OnlyUpperCaseTimeKeepsZone` say exactly when they hold. It raises on a well-formed rule
  whose local `UNTIL` has no UTC reading (`Recurrence.NormalizationSettles`, `Recurrence.LastSecondRaises`).
- docs/DECISIONMAKER_CONTRACT.md calls every event of the source with another stamp removed; the code
  counts only live rows, and none for a permanent gatherer. The model follows the code.

## Model

| member | source | states |
|---|---|---|
| Schema.CategoriesRoundTrip | app/decisionmaker/decisionmaker.py:26-27 | The names the categorize stage produces survive the trip through the comma-joined column, order included, and only the empty list is stored as the empty text. |
| Text.SplitJoin | app/services/recurrence.py:88-95 | Splitting a joined list gives the list back when no part holds the separator and there is at least one part. |
| Text.JoinSplit | app/services/recurrence.py:88-95 | Joining the parts of a split gives the text back. |
| Text.SortedUnique | app/categorize/categorize.py:96 | A set of names has exactly one strictly increasing listing. |
| Text.StripMeaning | app/sieve/sieve.py:66-72 | Stripping takes the white space at both ends and nothing else. |
| Identity.IdNamesSource | app/identity.py:15-24 | A colon-free source name can be read off every id it produces. |
| Identity.SourcesDoNotCollide | app/identity.py:15-24 | Two colon-free sources never share an id. |
| Identity.CollisionsAreColonExtensions | app/identity.py:15-24 | Two different sources can share an id if and only if one is named as the other, a colon, and more. |
| Identity.SharedIdExactly | app/identity.py:15-24 | Within a source, any two events share an id if and only if what keys them and their override agree, or one's key is the other's key, a colon and the text of the override it lacks. |
| Identity.UidIdentity | app/identity.py:15-24 | Within a source, events that carry a uid share an id if and only if uid and recurrence override agree, or one uid is the other's uid, a colon and the text of the override it lacks. |
| Identity.TitleIdentity | app/identity.py:15-24 | Events without a uid share an id if and only if title, start and override agree. |
| Identity.UidAgainstTitle | app/identity.py:15-24 | An event with a uid shares an id with one without if and only if the uid is the other's title, a bar and its start under the same override, or that followed by the override it lacks. |
| Identity.SpelledOverrideCollides | app/identity.py:15-24 | The uid "x:" and an instant's text, and the uid "x" with that instant as its override, share an id. |
| Identity.HashExactly | app/identity.py:29-47 | Two events have the same hash if and only if they agree on everything but uid, override, captions, where images came from, and the order of exceptions and categories. |
| Categorize.SlugifyShape | app/services/categories.py:28-35 | Whatever the input, a slug has only letters, digits and single inner dashes. |
| Categorize.SlugifyExactly | app/services/categories.py:28-35 | A slug is the words of the lower-cased text, cut at spaces and dashes and with nothing but letters and digits left, joined by single dashes. |
| Categorize.SlugifyIdempotent | app/services/categories.py:39-46 | Slugs are lower-case and slugifying a slug changes nothing, so slugifying a name twice is harmless. |
| Categorize.QualifyShape | app/services/categories.py:49-52 | A qualified name is non-empty, comma-free, and splits at its colon into exactly its class and its name. |
| Categorize.ClassExactly | app/services/categories.py:39-46 | A listed slug belongs to the first class that lists it, an unlisted one to "intake". |
| Categorize.QualifyExactly | app/services/categories.py:49-52 | So a name is qualified by its slug's class and its slug. |
| Categorize.FiresExactly | app/categorize/categorize.py:54-79 | An assigning rule always fires; a searching one if and only if it has a pattern and finds it in one of the five default fields or, if it names fields, in one of those. |
| Categorize.CategorizedMeaning | app/categorize/categorize.py:54-96 | After the stage an event's categories are exactly the qualified names of what it carried or a firing rule assigned, without empty slugs, sorted, distinct and comma-free. |
| Categorize.RuleOrderIrrelevant | app/categorize/categorize.py:75-96 | Two rule lists with the same rules give the same categories, in whatever order they are configured. |
| Categorize.Apply | app/categorize/categorize.py:82-96 | The loops of the stage leave every event of the batch as the specification says, in place. |
| Expiry.ExpiredMeaning | app/services/expiry.py:47-72 | A row is expired if and only if its final instant is known and lies before the window; later it stays expired. |
| Expiry.RelevantMeaning | app/services/expiry.py:75-88 | An event is relevant if and only if its start, if known, is at most the future limit's days ahead and its final instant, if known, at most the past limit's days back. |
| Sieve.RelevanceIsFilter | app/sieve/sieve.py:47-61 | The shortcut for a disabled window agrees with the relevance filter, which keeps exactly the relevant events. |
| Sieve.WindowExactly | app/sieve/sieve.py:47-61 | A gathered event passes the window if and only if it neither starts too far ahead nor has ended too long ago, limit by limit. |
| Sieve.WiderWindowKeepsMore | app/sieve/sieve.py:47-61 | Wider limits never drop more. |
| Sieve.TimeOpensTheFuture | app/services/expiry.py:36-44 | Being too early is undone by time, and having ended too long ago is not. |
| Sieve.MergeDefaultLocation | app/sieve/sieve.py:66-72 | The loop fills exactly the missing and blank locations. |
| Sieve.LocationKept | app/sieve/sieve.py:66-72 | A location with anything but white space in it is kept, any other becomes the default if there is one, and nothing else moves. |
| Sieve.ChangedFields | app/sieve/sieve.py:77-95 | The loop reports the differing fields in their fixed order. |
| Sieve.DiffMembers | app/sieve/sieve.py:77-95 | A field is reported if and only if it is one of those compared and it differs. |
| Sieve.NothingReportedExactly | app/sieve/sieve.py:77-95 | No field is reported if and only if the event brings what the columns hold, the order of categories aside. |
| Sieve.ChangeHasAField | app/sieve/sieve.py:77-95 | On a row whose hash matches its content, an incoming event with another hash has at least one differing field. |
| Sieve.VerdictExactly | app/sieve/sieve.py:125-161 | The verdict, case by case; on a row whose hash is right, unchanged means that the event brings what the row holds, as far as the hash sees it. |
| Sieve.FileEvent | app/sieve/sieve.py:125-161 | One round of the classification loop files the event under the bucket its verdict names. |
| Sieve.Classify | app/sieve/sieve.py:100-172 | The whole classification: relevance, locations, then every event filed in order. |
| Sieve.PickById | app/sieve/sieve.py:125-161 | In a batch without repeated ids, an event's id is in a bucket if and only if its verdict belongs there. |
| Sieve.BucketsPartition | app/sieve/sieve.py:118-161 | The ids of new, updated, archived and unchanged together are the kept ids, each as often as gathered; the unchanged ids are those of the unchanged events and of the conflicts. |
| Sieve.BucketCounts | app/sieve/sieve.py:118-161 | The bucket sizes and the unchanged counter add up to the kept events. |
| Sieve.SieveAccountsForAll | app/sieve/sieve.py:100-172 | Dropped, new, updated, unchanged, archived and conflicts account for every gathered event, and the dropped ones are those outside the window. |
| Decisionmaker.InsertNew | app/decisionmaker/decisionmaker.py:107-109 | The insert loop adds exactly the new rows, stamped. |
| Decisionmaker.UpdateChanged | app/decisionmaker/decisionmaker.py:111-118 | The update loop rewrites rows that exist and inserts those that do not, and counts each. |
| Decisionmaker.StampSeen | app/decisionmaker/decisionmaker.py:120-123 | The stamping loop moves the last-seen stamp of the listed rows and nothing else. |
| Decisionmaker.RaiseConflicts | app/decisionmaker/decisionmaker.py:125-130 | The conflict loop stamps each row and creates or refreshes its pending conflict. |
| Decisionmaker.Apply | app/decisionmaker/decisionmaker.py:96-152 | The write half of a run: the whole new state, the counts, and as removed the source's live rows without this run's stamp (none for a permanent gatherer). |
| Decisionmaker.ApplyListed | app/decisionmaker/decisionmaker.py:107-130 | The four write loops together leave, at the id of a kept event, exactly the row its verdict calls for. |
| Decisionmaker.ApplyUnlisted | app/decisionmaker/decisionmaker.py:107-130 | They leave every other id exactly as it was. |
| Decisionmaker.ListedRowExactly | app/decisionmaker/decisionmaker.py:30-91 | The row a listed event leaves, column by column: new, untouched, stamped, or rewritten. |
| Decisionmaker.RaisedExactly | app/decisionmaker/decisionmaker.py:55-69 | Raising a conflict adds one entry, or gives the event's pending one the new content, fields and time. |
| Decisionmaker.PendingIndex | app/decisionmaker/decisionmaker.py:59-61 | The lookup finds a pending conflict of the event if there is one. |
| Archive.Collect | app/services/archive.py:58-68 | The collecting loop finds exactly the live rows that are expired, or removed at a source that is not permanent, with the reason, expiry first. |
| Archive.StampCandidates | app/services/archive.py:70-73 | The stamping loop archives exactly the candidates, each with its reason. |
| Archive.Sweep | app/services/archive.py:50-88 | A pass archives exactly those rows, a preview archives none, and the two counts are complete. |
| Archive.Restore | app/services/archive.py:114-126 | Restoring brings an archived row back live with its images re-hosted, and does nothing to any other. |
| Archive.RestoredExactly | app/services/archive.py:114-126 | A restored row is live, without a reason, with its images re-hosted and nothing else moved; every other row stays. |
| Archive.RestoreKeepsHash | app/services/archive.py:123-125 | A coherent row stays coherent through a restore if and only if re-hosting keeps its image addresses. |
| Events.EditCannotForge | app/services/events.py:96-132 | Whatever is edited, the row's hash is that of what it then holds, its pin is as asked, and source, uid, stamps and archive marks are out of reach. |
| Events.EditedRowByColumn | app/services/events.py:126-131 | Each editable column of an edited row holds what the last entry for it gives, or what it held. |
| Events.UpdateEvent | app/services/events.py:116-132 | The edit loop yields that row and touches no other; a missing id is reported. |
| Events.SetPinned | app/services/events.py:79-85 | Only the pin of that row moves. |
| Events.PinnedExactly | app/services/events.py:79-85 | That pin is as asked, and no other column, row, source or conflict moves. |
| Conflicts.Resolve | app/services/conflicts.py:72-119 | Resolving a pending conflict ignores, adopts or merges it and closes it; an unknown action or a closed conflict changes nothing. |
| Conflicts.ResolvedExactly | app/services/conflicts.py:72-93 | The conflict is closed in its action's status and keeps what it held; every other conflict and every other row stays. |
| Conflicts.AdoptWrites | app/services/conflicts.py:98-119 | Adopting writes the whole incoming content, pins it, and leaves the bookkeeping alone. |
| Conflicts.MergeWrites | app/services/conflicts.py:133-165 | A merge writes, of title, description, location, address and timezone, the strings the answer gives and no other column, and pins the row; an answer that gives none leaves it alone. |
| Ingest.Prepare | app/ingest.py:88-93 | Images are hosted for the events that are not archived, then all are categorized. |
| Ingest.IncomingExactly | app/ingest.py:88-94 | What the sieve compares is the gathered event with its images hosted unless its row is archived, its location filled in, its categories assigned, and everything else as gathered. |
| Ingest.FetchedSourceExactly | app/ingest.py:75-102 | A fetch creates or stamps its own source's row, keeps a stored gatherer, and moves no other source's. |
| Ingest.PostedExactly | app/services/pending.py:77-79 | So does a fetch of posts, and it moves no event and no conflict. |
| Ingest.ProcessSource | app/ingest.py:75-102 | One source's run: the sieve's verdict, and unless it is a preview the state after deciding, with the removed count the stored source's gatherer calls for. |
| Ingest.TakeTurn | app/ingest.py:176-231 | A source's turn (an event source's or a post source's, then its placeholders) either takes full effect or, when anything raises before or after the writes, none. |
| Ingest.RunLocked | app/ingest.py:170-239 | A run is every source's turn in order, each with its declared placeholders, failures skipped, followed by one archive pass. |
| Lifecycle.RunLockedIsARun | app/ingest.py:170-239 | That run is the run of the changes its turns commit and one archive pass, so what is proved of runs holds of it. |
| Lifecycle.TurnsAreSteps | app/ingest.py:176-231 | A committed turn is a fetch of events or posts followed by the source's declarations; any other turn changes nothing. |
| Ingest.RelevantPrepared | app/ingest.py:88-94 | Filtering by relevance before or after hosting and categorizing makes no difference. |
| Ingest.FetchSeen | app/ingest.py:88-99 | A fetch leaves, at the id of each relevant gathered event, exactly the row its verdict calls for. |
| Ingest.FetchUnseen | app/ingest.py:88-99 | A fetch leaves every other row exactly as it was. |
| Ingest.FetchBuckets | app/ingest.py:88-94 | The sieve's buckets for a gathered batch are the picks over the relevant events. |
| Ingest.BucketById | app/sieve/sieve.py:125-161 | A relevant gathered event is in a bucket if and only if its verdict belongs there. |
| Lifecycle.StepCoherent | app/services/events.py:96-132 | A step keeps every row's hash equal to the hash of what it holds if and only if it is harmless; only restores and declarations can harm. |
| Lifecycle.MaterializeCoherentExactly | app/services/placeholders.py:102-114 | Declaring a source's series keeps the table coherent if and only if every stored master it refreshes has nothing in the columns a declaration does not set. |
| Lifecycle.RestoreCoherent | app/services/archive.py:114-126 | A restore keeps the whole table coherent if and only if the row's images are found at their own addresses. |
| Lifecycle.ResolveCoherent | app/services/conflicts.py:96-119 | Adopting or merging a conflict keeps every row coherent. |
| Lifecycle.RunsStayCoherent | app/decisionmaker/decisionmaker.py:30-91 | Along every run of turns, approvals, archive passes, edits, pins, restores and resolutions, however each fetch hosts its images and each restore re-hosts them, every row is coherent at every point if and only if no restore moves an image and no declaration refreshes a master with other content. |
| Lifecycle.ReportedChangesAreReal | app/sieve/sieve.py:132-158 | After any run whose restores and declarations are harmless, every updated event and every conflict a fetch reports has a changed field to show. |
| Reingest.StampedIds | app/sieve/sieve.py:125-161 | An id is stamped by a fetch if and only if the fetch lists it with a relevant event and its row is not archived. |
| Reingest.StaleIsMissing | app/decisionmaker/decisionmaker.py:132-145 | Whatever the stored stamps, the rows counted as removed are the missing ones whose old stamp is not this run's. |
| Reingest.RemovedIsSetDifference | app/decisionmaker/decisionmaker.py:103-152 | With a new timestamp, marking by timestamp is exactly the set difference: the source's live rows in none of new, updated and unchanged. |
| Reingest.ListedEventsSurvive | app/ingest.py:75-102 | With one clock for the run, a relevant listed event whose row is not archived is live after gather, sieve, decide and archive, unless it is pinned and its own frozen dates have expired. |
| Survival.ListedEventsSurviveTheRun | app/ingest.py:170-239 | On one clock, a relevant listed event whose row is not archived is live at the end of the run if and only if its row does not go with its source's declared placeholders and is not expired, whatever the sources after it list and however many fail. |
| Survival.OnlyPlaceholdersTakeListedEvents | app/services/placeholders.py:117-144 | If it is neither pinned nor itself a declared series, it is lost if and only if its row goes with the declared placeholders. |
| Survival.GoingSpelled | app/services/placeholders.py:117-144 | A row goes if and only if the source has declarations and the row is an undeclared live master of it or a live override of one. |
| Survival.ListedOverrideGoes | app/services/placeholders.py:125-144 | An occurrence listed for the first time under the uid of a live master that is no longer declared is archived by the turn that inserts it. |
| Survival.RepublishedSeriesLosesOccurrence | app/ingest.py:170-239 | A source that declared one series and then another one instead, while its feed lists an occurrence of the first, loses that occurrence in the run that lists it. |
| Reingest.ReingestFindsNothing | app/sieve/sieve.py:125-161 | Fetching the same batch again finds nothing new and nothing changed, and the same conflicts and frozen rows. |
| Reingest.ReingestIsFixpoint | app/decisionmaker/decisionmaker.py:107-130 | Fetching the same batch again adds no row and moves only stamps. |
| Reingest.HostedAlikeExactly | app/services/images.py:95-120 | A later fetch that brings an event again, neither archived nor pinned, finds it unchanged if and only if its images are hosted at the same addresses, and reports an update if and only if they are not. |
| Freezing.ArchivedRowsAreFrozen | app/sieve/sieve.py:129-131 | Over every unattended run, an archived row at whose id nothing declares a series never changes in any field. |
| Freezing.ArchivedRowChangesExactly | app/services/placeholders.py:102-115 | Over every unattended run, an archived row stays the same after every step if and only if no step declares, parseably, the series at its id; the row is that series' own master, or the clock has moved since it was archived. |
| Freezing.PinnedRowsAreFrozen | app/sieve/sieve.py:132-147 | Over every unattended run in which nothing declares other content at its id, a pinned row keeps all its content, its hash and its pin. |
| Freezing.PinnedRowChangesExactly | app/services/placeholders.py:102-115 | Over every unattended run, a pinned row keeps its content after every step if and only if no step declares, parseably, the series at its id with other content than it holds. |
| Freezing.ApplyAloneThaws | app/decisionmaker/decisionmaker.py:111-118 | Handed an archived row as updated, the decisionmaker overwrites it: freezing rests on the sieve. |
| Removal.RowKeepsOwner | app/decisionmaker/decisionmaker.py:30-52 | Over every run, attended or not, a row keeps its source, if the other sources are named apart from it. |
| Removal.RowStampIsLastSeen | app/decisionmaker/decisionmaker.py:103-130 | Over every run, attended or not, every row's stamp is when a committed step last listed it while it was not archived or declared its series. |
| Removal.SourceStampIsLastFetch | app/decisionmaker/decisionmaker.py:132-133 | Over every run, a source's stamp is when its events or posts were last fetched. |
| Removal.RemovalIsExact | app/services/archive.py:36-68 | After any run, whatever was edited, pinned, restored or resolved in it, a pass takes a live row as removed if and only if it is not expired, its source is not permanent, and it was never seen or last seen (while not archived) at another time than the source's latest fetch and at least the grace period ago. |
| Removal.PassMarksExactly | app/services/archive.py:50-73 | After any run, a pass marks a live row as expired if and only if it is, as removed if and only if it is not and the history says it is gone at a source that is not permanent, and leaves every other row, and every other column, as it was. |
| Removal.OutageRemovesNothing | app/services/archive.py:36-45 | However long a source fails, a row its latest successful fetch stamped is never archived as removed, whatever the sources named apart from it do and whoever edits, restores or resolves; unattended, it stays as it was or expires. |
| Removal.StampsAgreeIffListed | app/services/archive.py:43-44 | With increasing times, and no declaration of its series since, the latest fetch of its source listed a row that was not archived if and only if the two stamps agree. |
| Removal.RemovedMeansMissing | app/services/archive.py:36-73 | With increasing times, after any run, a row taken as removed was missing from its source's latest fetch or archived then, unless its series was declared since, and whatever stamped it is at least the grace period past. |
| Removal.RemovedMeansUnlisted | app/services/archive.py:36-73 | After an unattended run it was missing from that fetch, and every fetch that listed it and every declaration of its series is at least the grace period past. |
| Removal.SharedIdIsRemovedWhileListed | app/services/archive.py:36-68 | Exactly when a row whose id another source also lists is taken as removed although its owner's latest fetch listed it. |
| Removal.ColonLosesListedRow | app/identity.py:15-24 | Source "a" listing uid "b:u" and source "a:b" listing uid "u" share a row, and it is taken as removed once the grace period has passed since the second fetch. |
| Removal.RestoredRowRemovedWhileListed | app/services/archive.py:114-126 | Exactly when a row restored by hand is taken as removed although its source's latest fetch listed it. |
| Masters.SlotHolder | app/identity.py:15-24 | Only a gathered event that carries the uid of a declared series, and no override, gets the id of that series. |
| Masters.MastersStay | app/services/placeholders.py:55-146 | Over every run, whatever the feeds list, a source's placeholders sit at their own series' ids and nothing else ever does, if the other sources are named apart from it and the run starts so, as it does from an empty table (Masters.EmptyIsMastered). |
| Masters.RunsConverge | app/services/placeholders.py:55-146 | After any run that ends in materialising a source's declarations, every live master of the source is declared, and every declaration that parses has a live master with its content, revived if it was archived. |
| Masters.TurnsConverge | app/ingest.py:213-215 | So it is after every committed turn, of events or posts, of a source that declares anything. |
| Masters.EachDeclarationHasItsMaster | app/services/placeholders.py:55-146 | If no two declarations have the same text, then after any run that ends in materialising them each one that parses has its own live master with its own uid and content, and there are exactly as many of those as declarations that parse. |
| Masters.RunsSettle | app/services/placeholders.py:55-146 | After any run, materialising the same declarations a second time changes nothing but timestamps. |
| Masters.RunsLosePlaceholders | app/services/archive.py:36-68 | Exactly when an archive pass takes a placeholder that a run has just declared as removed. |
| Masters.ArchivedRowsAfterRuns | app/services/placeholders.py:102-115 | After any run, an archived row of a source changes in an unattended run that follows if and only if a step of it declares, parseably, the series at its id. |
| ConflictQueue.UpsertPending | app/decisionmaker/decisionmaker.py:55-69 | Raising a conflict makes the incoming content the event's pending content and leaves every other event's alone. |
| ConflictQueue.FetchPending | app/decisionmaker/decisionmaker.py:125-130 | A fetch leaves pending, for each event, the content it disputes, or else what was pending. |
| ConflictQueue.ResolvePending | app/services/conflicts.py:76-91 | Resolving clears exactly that event's pending conflict. |
| ConflictQueue.PendingIsLatestDispute | app/decisionmaker/decisionmaker.py:55-69 | Under every interleaving, an event has at most one pending conflict and it holds the latest disputed content not resolved since. |
| ConflictQueue.DisputeOutlastsRuns | app/sieve/sieve.py:132-147 | Unattended steps end no dispute: while nothing declares other content at the id, its row stays pinned and a pending conflict stays and differs from it. |
| ConflictQueue.PendingIsListedExactly | app/sieve/sieve.py:132-147 | Once an event is in dispute, its pending conflict holds what a later fetch of its live row lists if and only if that fetch disputes it too; otherwise the withdrawn content stays. |
| ConflictQueue.AdoptSettles | app/services/conflicts.py:96-119 | A fetch disputes an event, its conflict is adopted and an unattended run follows, however it hosts images: the row holds the disputed content, pinned, and as long as it is live a fetch of the same gathered event, hosted as in the first one, finds it unchanged and raises no conflict. |
| PostQueue.Queue.Enqueue | app/services/pending.py:31-81 | Queueing inserts, re-queues on changed content, or backfills, and counts each; a preview only counts. |
| PostQueue.EnqueuedExactly | app/services/pending.py:43-75 | What gathering one post leaves: a new waiting post, the same one waiting again as if new, one with a publishing time it lacked, or no change. |
| PostQueue.FoundAddsUp | app/services/pending.py:42-81 | The three counts add up to the gathered posts with a uid. |
| PostQueue.FoundExactly | app/services/pending.py:46-59 | A gathered post counts as new if and only if it is not queued, and as the same if and only if it is queued with its caption and images. |
| PostQueue.Queue.ResetStale | app/services/pending.py:84-96 | Exactly the posts stuck in progress since before the cutoff go back to waiting. |
| PostQueue.ResetExactly | app/services/pending.py:84-96 | Exactly what has been in progress since before the cutoff waits again, and nothing else moves. |
| PostQueue.Queue.ProcessOne | app/services/llm.py:476-529 | Claim, answer and aftermath of one post; it fails to return only when an error escapes on a waiting post. |
| PostQueue.WorkedPostEnds | app/services/llm.py:448-529 | How a worked post ends, field by field, for a decision, a transient failure, a permanent one and an escaped error. |
| PostQueue.DecisionEndsPost | app/services/llm.py:424-443 | A waiting post that gets a decision is closed, with no attempts left over, in the status the decision's own fields call for. |
| PostQueue.Queue.PickWaiting | app/services/llm_worker.py:64-70 | The posts picked are the oldest waiting ones, oldest first, up to the limit, and all of them if there are fewer. |
| PostQueue.PickMeaning | app/services/llm_worker.py:64-70 | What is picked waits, is picked once and oldest first; what waits and is not picked is no older, and there is none of it unless the limit is reached. |
| PostQueue.Queue.RunOnce | app/services/llm_worker.py:53-83 | A tick resets what is stuck, picks, works the picked posts in order, and counts those that returned. |
| PostQueue.DecisionsAreFinal | app/services/llm.py:318-443 | Every decision closes the post; nothing is modified or deleted without a match or with an occurrence that reads as an instant but is not the match's, and a series is only ever proposed. |
| PostQueue.DecidedExactly | app/services/llm.py:318-443 | The status and the effect of every decision, each as an if-and-only-if over the decision's own fields. |
| PostQueue.NamedOccurrenceWidensExactly | app/services/llm.py:318-386 | A decision that names an occurrence acts on the whole matched event if and only if the text does not parse and it deletes a match or modifies one without a rule; it acts on the occurrence if and only if the text parses and the occurrence is the match's. |
| PostQueue.UnreadOccurrenceDropsSeries | app/services/llm.py:366-386 | Deleting an occurrence of a series whose text does not parse archives the series, as deleted. |
| PostQueue.TickIsPointwise | app/services/llm_worker.py:72-78 | A tick works each picked waiting post exactly once and touches no other post. |
| PostQueue.EnqueueIdempotent | app/services/pending.py:36-75 | Gathering the same posts again re-queues none of them, whatever became of them. |
| PostMachine.StepKeeps | app/services/llm.py:448-529 | Every transaction keeps the relation between claims, attempts and resets. |
| PostMachine.WorkPerQueueing | app/services/llm.py:448-471 | Under every interleaving, an open post has fewer attempts than the limit, and its claims since it was queued are at most the limit plus its stale resets. |
| PostMachine.WorkPerLife | app/services/llm.py:448-529 | Over a post's whole life the model is called at most limit times per queueing, plus once per stale reset. |
| PostMachine.RetriesEndAtTheLimit | app/services/llm.py:448-460 | A fresh post is retried exactly up to the limit: waiting after fewer transient failures, failed with the last. |
| PostMachine.ClosedStaysClosed | app/services/pending.py:59-70 | A closed post opens again if and only if its gathered content changes, and costs no claim until then. |
| PostMachine.ChangeDuringCallStaysQueued | app/services/llm.py:520-529 | Content queued during a call stays queued if and only if the call failed transiently with an attempt to spare or raised. |
| PostMachine.ProcessOneIsTwoSteps | app/services/llm.py:476-529 | Undisturbed, processing a post is its claim followed by its finishing step; an escaping error is a crash. |
| Images.StoredNamesAreWellNamed | app/services/images.py:64-80 | Whatever a server says, a stored file's name starts with its content's digest and is one the collector recognises. |
| Images.ExtensionExactly | app/services/images.py:51-60 | A stored name ends in the extension of the media type, or else in the address's own usable suffix, or else in .img. |
| Images.ImageService.Store | app/services/images.py:64-80 | A download is stored under its content's name; an existing file is left alone. |
| Images.ImageService.HostOrStore | app/services/images.py:95-120 | With a sound memo, reusing or downloading gives the same address and the same disk as downloading. |
| Images.ImageService.EvictLru | app/services/images.py:123-133 | Eviction brings the memo to its cap and drops no row used later than one it keeps. |
| Images.RememberedExactly | app/services/images.py:95-120 | After a batch the memo knows, of each address that could be downloaded, its file and when the batch last used it, and of every other what it knew before. |
| Images.ImageService.HostImages | app/services/images.py:136-157 | Whatever the memo holds, images and disk come out as if each image had been downloaded; the memo keeps the most recently used rows, up to its cap. |
| Images.HostedExactly | app/services/images.py:136-155 | Hosting keeps order, number and captions; an image that is here already or cannot be downloaded stays as it is, and any other points at its file and names where it came from. |
| Images.HostedFilesAreOnDisk | app/services/images.py:74-80 | Every rewritten image's file is on disk afterwards, and no file that was there has changed. |
| Images.HostedFilesHoldTheDownload | app/services/images.py:64-80 | The file behind every rewritten image holds bytes with the digest of what its source served, whether downloaded now or there before. |
| Images.ImageService.Prune | app/services/images.py:190-221 | A committed prune deletes exactly the well-named files no live event references, but those that cannot be unlinked; a preview deletes none. |
| Images.PrunedExactly | app/services/images.py:190-221 | A file stays on disk if and only if this service did not write it, a live event shows it, or it cannot be deleted; no file changes. |
| Images.ImageService.Rehost | app/services/images.py:224-237 | Every hosted image whose file is missing and whose source is known is fetched again. |
| Images.RehostedExactly | app/services/images.py:230-236 | An image that is external, on disk or without a source is left alone; any other points at what its source now serves, which is on disk, with its caption and source kept. |
| Images.SettledGalleryUntouched | app/services/images.py:224-237 | A gallery of such images comes back untouched, with no change to the disk, whatever their sources serve by now. |
| Images.GalleryKeptExactly | app/services/images.py:224-237 | For every gallery and disk, re-hosting keeps the images, and keeps their addresses, if and only if each image that has to be fetched again when its turn comes is steady. |
| Images.RehostRestores | app/services/images.py:224-237 | From any disk, re-hosting puts every rehostable image's file back and removes none. |
| Images.PruneThenRestore | app/services/images.py:190-237 | Pruning and then restoring puts an archived event's rehostable images back, keeps its gallery if and only if what has to be fetched again is steady, and takes nothing a live event shows. |
| Images.RestoreAfterPruneIsCoherent | app/services/archive.py:114-126 | The restored row is live, and its hash is still right if and only if what had to be fetched again is steady. |
| Images.RestoreCoherentExactly | app/services/archive.py:114-126 | A restore with this re-hosting keeps the whole table coherent if and only if the row's images that have to be fetched again are steady. |
| Images.ChangedSourceMovesAddress | app/services/images.py:230-236 | A missing image with a source keeps its address through a re-host if and only if its source serves what it served, or cannot be fetched. |
| Images.HostedIsRehostable | app/services/images.py:136-157 | An image this service hosted can be re-hosted as long as its source is stable. |
| Images.HostedGalleryComesBack | app/services/images.py:136-237 | While downloads are stable, pruning and then restoring an event whose gallery this service hosted keeps its images and its hash, and every image that could be downloaded is back on disk. |
| Images.QueuedImageSurvivesExactly | app/services/images.py:178-190 | A waiting post's image survives a prune if and only if a live event shows it too or the file cannot be deleted; re-hosting changes neither the images of the event made from the post nor the disk. |
| Placeholders.SeriesIdIsStable | app/services/placeholders.py:34-36 | The id of a declared series depends on its uid alone. |
| Placeholders.SharedSeriesExactly | app/services/placeholders.py:34-36 | As long as SHA-256 does not collide on them, two declarations of a source are one series if and only if their texts title, colon, rule, colon, start agree. |
| Placeholders.UpsertDecl | app/services/placeholders.py:61-115 | One declaration creates or refreshes its master, or is skipped when it does not parse. |
| Placeholders.RetireUndeclared | app/services/placeholders.py:117-144 | Exactly the undeclared live masters and their live overrides are archived; the count is their number, plus one for each master that had gone as another's override before its own turn. |
| Placeholders.NoneTwice | app/services/placeholders.py:125-144 | There is no such master when no undeclared one is an override of another. |
| Placeholders.Materialize | app/services/placeholders.py:55-146 | The whole call: the new table and its three counts. |
| Placeholders.MaterializedRow | app/services/placeholders.py:55-146 | At every id the call leaves its last declaration's master or the old row, as it is or retired. |
| Placeholders.RetiredExactly | app/services/placeholders.py:117-144 | A row goes if and only if it is an undeclared live master of the source or a live override under such a master's uid; it is then archived as removed, and every other row stays. |
| Placeholders.MaterializeRetires | app/services/placeholders.py:117-144 | No live override is left of a master archived in the call, and archived rows that are not declared stay as they were. |
| Overseer.AllPairsMembers | app/services/overseer.py:94-105 | The all-pairs filter holds exactly the pairs of different sources, at most twelve hours apart, with similar titles. |
| Overseer.AllPairsOrdered | app/services/overseer.py:94-105 | It holds them once each, in row order. |
| Overseer.TooLateEndsPartners | app/services/overseer.py:101-102 | On time-sorted rows nothing is lost by stopping at the first row that is too late. |
| Overseer.ScanPartners | app/services/overseer.py:96-105 | The inner loop with its skip and its break finds all partners of a row. |
| Overseer.FindCandidatePairs | app/services/overseer.py:68-106 | The sweep with early exit returns the all-pairs filter, in order, for any similarity function. |
| Overseer.EveryCloseTwinIsFound | app/services/overseer.py:68-106 | Two live, canonical, real, upcoming events of different sources that start close together with similar titles are among the candidates. |
| Overseer.CandidatesExactly | app/services/overseer.py:68-106 | Two rows are candidates, earlier one first, if and only if they are of different sources, start at most twelve hours apart and are similar enough; every row is live, canonical, real and starts within the window. |
| LogTail.SuffixIsEnough | app/logging.py:101-113 | A suffix with more than n newlines, minus its partial first line, ends in the file's last n lines. |
| LogTail.ReadBack | app/logging.py:88-103 | Reading backwards in blocks ends with the whole file or a suffix with more than n newlines. |
| LogTail.ReadLogTail | app/logging.py:68-113 | For every file and block size the result is the last n lines of the whole file, or nothing when there is none. |
| LogTail.TailExactly | app/logging.py:105-113 | The tail of a file is the last n of its decoded lines, a final newline starting no further line, or all of them if there are fewer. |
| Redactor.SanitizeLeavesNoUrl | app/logging.py:29-40 | No URL is left anywhere in the output, not even one put together across a replacement. |
| Redactor.SanitizeIdempotent | app/logging.py:32-40 | Sanitizing twice is sanitizing once. |
| Redactor.SanitizeReplacesUrl | app/logging.py:29-40 | A whole URL becomes the mark, the text before it comes through unchanged, and the rest is sanitized. |
| LoginLimiter.Limiter.Prune | app/services/auth.py:166-170 | The stored attempts of a key become its recent ones. |
| LoginLimiter.Limiter.Login | app/services/auth.py:204-238 | The control flow of a login: lockout, then both limits, then the credentials, with what each outcome records. |
| LoginLimiter.OutcomeExactly | app/services/auth.py:204-238 | After any calls, the next one succeeds if and only if its user is not locked out, fewer than five failures of its address and of its user are less than five minutes old, and the password is right; it is invalid if and only if it is wrong instead, and limited in every other unlocked case. |
| LoginLimiter.NoSixFailuresInAWindow | app/services/auth.py:166-179 | Over every sequence of logins, the sixth failure recorded under a key comes at least a window after the first. |
| LoginLimiter.CountersMatch | app/services/auth.py:182-201 | The stored counter is the number of failures since the last success or lockout, below five, and the stored lockout is the run's latest. |
| LoginLimiter.LockoutsExactly | app/services/auth.py:182-201 | A login moves only its own user's lockout: one that has run out is dropped, a success drops it, the fifth failure in a row sets it to 900 seconds, and anything else keeps it. |
| LoginLimiter.LockedExactly | app/services/auth.py:182-189 | A login is refused as locked if and only if the user's latest lockout still lasts. |
| LoginLimiter.NoCheckWhileLocked | app/services/auth.py:192-215 | After a lockout, every login of that user that starts within 900 seconds is refused unchecked. |
| Recurrence.NormalizeRrule | app/services/recurrence.py:79-95 | The loop normalises part by part; the first local `UNTIL` that does not parse or has no UTC reading raises. |
| Recurrence.UntilTaken | app/services/recurrence.py:88-95 | A part is an `UNTIL`, in any mixture of cases and with any white space around it, and its value is what follows. |
| Recurrence.OnlyUntilTaken | app/services/recurrence.py:88-95 | No other part is. |
| Recurrence.EndsInZExactly | app/services/recurrence.py:60 | A final Z of either case counts as one. |
| Recurrence.DateTimeNormalizes | app/services/recurrence.py:57-74 | Every spelling of a date-time is normalised if and only if its instant has a UTC reading, ends in Z, and is the compact form of that instant when its year prints with four digits. |
| Recurrence.StampWellFormedExactly | app/services/recurrence.py:70-74 | A UTC reading is printed as a well-formed date-time if and only if its year prints with four digits. |
| Recurrence.DateNormalizes | app/services/recurrence.py:76 | A plain date stays that date, without dashes. |
| Recurrence.CompactIsInjective | app/services/recurrence.py:70-74 | Two instants never share a compact form. |
| Recurrence.NormalizationSettles | app/services/recurrence.py:79-95 | A rule whose `UNTIL`s are well formed is normalised if and only if each local date-time among them has a UTC reading; then the number of parts and every other part stay in place, and repeating it in any zone changes nothing. |
| Recurrence.LastSecondRaises | app/services/recurrence.py:45-54 | The well-formed rule `UNTIL=99991231T235959` raises in a zone in which that second overflows the calendar. |
| Recurrence.LowerCaseTimeLosesZone | app/services/recurrence.py:64-76 | A UTC `UNTIL` written with a lower-case t loses its Z. |
| Recurrence.OnlyUpperCaseTimeKeepsZone | app/services/recurrence.py:64-76 | A UTC date-time comes out as its own compact form if and only if an upper-case T joins date and time. |
| RuleSettling.IdempotentExactlyWhenTidy | app/services/recurrence.py:57-95 | On every rule that normalises, a second pass changes nothing if and only if each original `UNTIL` value is tidy. |
| RuleSettling.ZoneKeptExactly | app/services/recurrence.py:57-76 | Every value that ends in Z normalises, and what comes out ends in Z if and only if an upper-case T is left before that Z or, dashes aside, another Z stood there. |
| RuleSettling.DoubledZoneIsNotSettled | app/services/recurrence.py:60-76 | A date with a doubled Z sheds one on each pass. |

## Left out

- Reingest.ListedEventsSurvive: asks that a stored row under the event's id belongs to the fetched source; if the other sources are named apart from it, it always does (Removal.RowKeepsOwner).
- Reingest.ReingestIsFixpoint: batches that list an id twice are excluded here and in every theorem about a fetch. Here and in Reingest.ReingestFindsNothing the galleries are hosted alike; Reingest.HostedAlikeExactly says what happens when they are not.
- Removal.RemovedMeansUnlisted: speaks of unattended runs; with restores the weaker Removal.RemovedMeansMissing holds and no more (Removal.RestoredRowRemovedWhileListed).
- Lifecycle.RunsStayCoherent: retagging, added occurrence exceptions and the language model's own event rows change content outside it, as the code intends.
- Ingest.RunLocked: a preview run, the status files and the printed reports are not part of it; the posts of a decide-before-insert source go to a queue modelled on its own (PostQueue).
- Ingest.Prepare: hosting enters as a function on gathered events, one for each fetch; module Images proves that the real, memoised hosting is one for a stable download.
- Images.HostedFilesHoldTheDownload: states equal digests; equal bytes follow as far as SHA-256 has no collisions.
- Images.ImageService.HostImages: the images of a batch are laid end to end in one array, and every image has its own reading of the clock.
- Images.ImageService.Prune: the report's byte count and listing are not modelled, nor are temporary files.
- Images.ImageService.EvictLru: rows last used at the same instant may go in either order.
- Archive.Sweep: the order and the cap of the preview list are not modelled, nor is the listing of archived events.
- Placeholders.RetireUndeclared: the masters are taken in some order, as the unordered query gives them.
- Masters.MastersStay: the event rows the language model's decisions write are outside it, as outside every run.
- Masters.EachDeclarationHasItsMaster: asks that SHA-256 does not collide on the texts of the declarations at hand.
- Lifecycle.StepCoherent: an approved declaration enters as the source's new configuration; the proposals and the rewriting of the intake file are not modelled.
- PostQueue.Queue.Enqueue: hosting the images of a post and stamping its source are not part of it.
- PostQueue.DecisionsAreFinal: the event rows a decision writes, the prompts and the network are not modelled; the model's answer is an arbitrary input, and so is what the apply step looks up.
- PostMachine.WorkPerQueueing: one worker at a time, as the worker thread runs; an attempt limit of at least one.
- Recurrence.DateTimeNormalizes: zone conversion is any function to a date-time of years 1 to 9999 or an overflow, and a parameter tells whether years below 1000 print with four digits, which depends on the Python version.
- RuleSettling.IdempotentExactlyWhenTidy: what `strptime` makes of text that is not plain digits is a parameter.
- LogTail.ReadLogTail: n of at least one; the file does not grow during the read; a read error is not modelled; UTF-8 decoding enters as a function that keeps newlines.
- LoginLimiter.Limiter.Login: whether the user exists with that password is an input; password hashing, sessions and tokens are not modelled, nor are concurrent logins.
- Overseer.FindCandidatePairs: title similarity is any function; the model's verdict on a pair, redirects and their chains are not modelled.
- Categorize.Apply: regular expression search and `str.lower` are parameters; retagging stored events is not modelled.
- Categorize.RuleOrderIrrelevant: a rule's fields are the event's text fields. A regex rule on another field is not modelled: on `categories` it raises when the list is not empty and reads as empty text otherwise, so there the order of rules would matter.
- Expansion of recurrence rules, zone data, calendar output and the last occurrence of a rule come from libraries and enter, where needed, as functions.
- The ingest lock works on files and clocks; nothing is claimed about mutual exclusion.
- HTTP routes, HTML, command lines, configuration loading, gatherers, backups, status roll-up, the completeness score and the wipe challenge would only add easy members.
- Row ids of conflicts are positions in the table, a source is identified by its unique name, and the columns for geography and creation time are dropped.
