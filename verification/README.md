# OpenApe: verified models

Dafny models of four components of OpenApe, with proofs of what they promise.

**Grants** (`packages/grants`). `Glob`, `CliPermissions` and `CliWidening` hold the permission algebra: glob selectors,
coverage of resource chains, canonical permission strings, widening and merging; `CoverageMeaning` says what a detail
allows and that coverage is inclusion. `ShapeMatcher` reads a command line as one of a list of operations, and
`CallTokens` says how single tokens are read. `Json` and `GrantReference` hold the canonical texts that bind a
referenced grant, and `GrantBinding` ties a request's fields to its binding text. `GrantStore` is the in-memory store,
as a value and as an object whose methods compute exactly that value's operations; `GrantListing` is its keyset
pagination and `GrantFilters` its filters, one law each. `GrantOperations` holds the grant operations as uninterrupted
programs of store calls, `GrantRuns` what holds over all runs of them, `GrantExtension` what an extended or widened
approval covers, `GrantAnswers` when each operation succeeds and what a refusal leaves behind, `GrantOutcomes` what each
store call and operation answers and writes, field by field, `GrantInterleaving` what holds when operations run at the
same time, one atomic store call at a time, `GrantAlone` that each of them run alone is the operation, and
`GrantSettling` when a settled grant then stays settled. `WideningSuggestions` and `StandingGrants` build on coverage,
and `PathPatterns` writes the patterns of a path out.

**Process-domain supervision** (`apps/openape-pods/native`). `ProcessDomain` is the protocol between the guardian, the
gated child and the inspector over one record file, with the guardian allowed to die between any two steps;
`ProcessSteps` says what its steps lead to. `OwnerLease` adds the owner and its heartbeats and says what a missing
registration means once the owner is gone. `TerminalIo` is the bounded terminal pump over two fixed buffers.

**Streaming translation** (`packages/codex-proxy`, `packages/agent-runtime`). `ServerSentEvents` is the event splitter,
`ResponsesStream` the stateful converter with a direct specification of a response, `ChatCollectors` the two
independently written collectors, `StreamAgreement` their agreement on a response, `ChunkAgreement` their agreement on
arbitrary chunks, `JsonText` and `ChunkText` the JSON text in between, `SchemaSanitizer` the JSON-schema rewriter, and
`SchemaMeaning` what a rewritten schema accepts.

**Plan translation** (`packages/ape-testruns`). `PlanTranslations` is the path enumerator and the path-driven update,
`PlanTexts` names the fields whose texts are listed.

Code that changes things step by step is modelled by methods, each proved against a specification function; the theorems
are lemmas about those functions. Clocks, random ids, system-call outcomes and the moments at which an inspector looks
are parameters. Where a property does not hold of the code on all inputs, a lemma says exactly when it holds and another
gives a concrete input on which it fails.

Facts about the code that the proofs brought out:

- A comma in a selector value lets two different authorities share one permission string, and merging then drops one of
  them (`CommaCollides`). A glob longer than 256 characters does not even match itself (`MatchesReflexive`). The
  documentation of `selectorValueMatches` says that `*` matches any characters; the code excludes line terminators, so
  it meets the documentation on a text exactly when that is one line (`DocumentedExactly`, `StarRejectsLineFeed`).
- A command of several tokens, one of them with a NUL character, is also matched by other tokens; a command that has
  none is matched by itself only, whatever the call holds (`SafeCommandsExactly`, `OnlyRenderingsExactly`).
- The inspector's last answer, `registration-changing`, cannot occur.
- Approving, extending and widening write without checking that the grant is still pending. Two racing approvals let a
  `once` grant be spent twice, and a stale approval, extension or widening brings back a grant that was settled
  meanwhile (`RacingApprovalsSpendTwice`, `StaleApprovalRevives`, `StaleExtensionRevives`). While no extension of it is
  still reading, a settled grant stays settled exactly when no such write is in flight (`RevivedExactlyByWrites`).
- The recovery of execution domains looks for a registration first and for the owner second, and takes a missing
  registration of a gone owner for a stopped domain. When the registration was read, the command was stopped for good
  exactly if the guardian was dead, or the owner gone with no more unread heartbeats than one lease check reads;
  otherwise it can still run, also after the owner is found gone (`MissingSaysExactly`).
- An extension that fails in its final approval has already revoked the grants it was to extend, and one that lists a
  grant twice has revoked those before the repetition; a widening that fails in its final approval leaves the widened
  details on the pending grant; a delegation that fails there leaves a pending grant.
- A standing grant is still applied in the very second in which introspection already calls it expired.
- The comment of the matching rules says that an undefined `cli_id` matches any CLI; an empty one passes the first check
  like an undefined one, and then matches only details whose own `cli_id` is empty.
- The two collectors agree on everything the converter emits. On chunks from elsewhere their messages hold the same
  tool calls exactly when no call is named in two pieces and the calls are the same in order of index and of first
  appearance (`CollectorsAgreeExactly`); for calls of different ids that is when the indices first appear in increasing
  order (`DifferentIdsAgreeExactly`), while equal calls hide the order (`EqualCallsHideTheOrder`).
- A `type` list whose second type is again a nullable list needs two passes of the schema sanitizer; nothing else does.
- The sanitizer's promise not to change what a schema means holds of a node exactly when nothing collapses or the node
  accepts null, provided that a merged branch agrees with the node (`CollapseKeepsMeaning`); a constraint of the branch
  that the node states differently is lost (`OverriddenConstraintIsLost`).
- Suggested path patterns do not match a path with an empty segment before its last one.

## Model

| member | source | states |
|---|---|---|
| ProcessDomain.StepKeepsInv | apps/openape-pods/native/pods-helper.c:193-283 | whatever happens next (a step of guardian, child or command, a death, a foreign process), the gate, record and process-group invariant is kept |
| ProcessDomain.RunKeepsInv | apps/openape-pods/native/pods-helper.c:193-283 | the invariant holds in every state of every run, with the guardian dying anywhere |
| ProcessDomain.RunFacts | apps/openape-pods/native/pods-helper.c:193-283 | a dead guardian stays dead and leaves the record as it is; a final domain stays final |
| ProcessDomain.FinalIsQuiet | apps/openape-pods/native/pods-helper.c:116-126 | once the domain is over, or was abandoned before the gate opened, the command is not running and never runs again |
| ProcessDomain.ClosedIsFinal | apps/openape-pods/native/pods-helper.c:246-280 | a record marked closed means that the domain is over for good |
| ProcessDomain.RecordFacts | apps/openape-pods/native/pods-helper.c:143-155 | every record on disk names the guardian, and names the child before the gate is open |
| ProcessDomain.RunningIsRegistered | apps/openape-pods/native/pods-helper.c:241-248 | while the command runs, the record is open and names a group that an inspection finds alive |
| ProcessDomain.UnchangedRecordIsFinal | apps/openape-pods/native/pods-helper.c:173-177 | if the recorded processes are seen gone at three later moments and the record then reads the same, the domain is over |
| ProcessDomain.InspectOnce | apps/openape-pods/native/pods-helper.c:170-177 | one attempt, its five observations at arbitrary moments of a run, gives only justified answers; a missing record, a closed record and an open one whose processes are gone each have their own answer |
| ProcessDomain.InspectDomain | apps/openape-pods/native/pods-helper.c:168-180 | a quiescent answer means that the command is not running from then on; a registered domain that stays gone is answered quiescent; `registration-changing` is never answered |
| ProcessDomain.SecondReadIsNeeded | apps/openape-pods/native/pods-helper.c:176-177 | a concrete run in which everything the first read names is gone and the command runs afterwards |
| ProcessSteps.GuardianNeverStuck | apps/openape-pods/native/pods-helper.c:193-280 | until it has finished, a living guardian can take a step, or waits for the registration of a child that can still register, or for the group, some member of which can still exit |
| ProcessSteps.OrderlyEnd | apps/openape-pods/native/pods-helper.c:246-280 | after an exit, a stop or a lost lease the guardian closes the record once the group is empty; after a failed setup it leaves it open |
| ProcessSteps.GatedChild | apps/openape-pods/native/pods-helper.c:219-222 | the gated child passes exactly if the token is there, and gives up exactly if it is not and no living guardian can still open the gate |
| ProcessSteps.ReapedExactly | apps/openape-pods/native/pods-helper.c:116-126 | a dead process leaves the table at any time, except the child, which its living guardian keeps until it has seen the group empty |
| OwnerLease.WorldsAreRun | apps/openape-pods/native/pods-helper.c:181-190 | with the owner and its buffered heartbeats as state, the runs are runs of the protocol, so all its properties hold |
| OwnerLease.LeaseCheckExactly | apps/openape-pods/native/pods-helper.c:181-190 | a lease check has exactly one answer: open if a heartbeat waits or the owner lives; it reads 128 heartbeats at most |
| OwnerLease.MissingSaysExactly | apps/openape-pods/src/worker/recovery/domains.ts:31-34 | when a registration is missing, the command can still run, and can outlive the owner, exactly if the guardian is alive and the owner lives or has left more than 128 unread heartbeats |
| OwnerLease.StillRuns | apps/openape-pods/native/pods-helper.c:193-247 | from every such state the guardian can go on to register, fork, pass both lease checks and open the gate, and the owner can be gone before the command runs |
| OwnerLease.MissingAfterOwnerIsFinal | apps/openape-pods/src/worker/recovery/domains.ts:31-34 | a registration that is missing after the owner died, with at most 128 unread heartbeats, means that the command never runs |
| OwnerLease.DeadUnregisteredIsFinal | apps/openape-pods/native/pods-helper.c:193-199 | a guardian that died before it registered never starts the command |
| OwnerLease.BufferedHeartbeatsOpenTheGate | apps/openape-pods/native/pods-helper.c:186-189 | a run in which 129 unread heartbeats open the gate although the owner is gone and nothing was registered |
| OwnerLease.OwnerMustBeGoneFirst | apps/openape-pods/src/worker/recovery/domains.ts:31-34 | a run in which the registration is missing, the owner is found gone later, and the command runs |
| TerminalIo.WriteFrom | apps/openape-pods/native/terminal-io.h:15-21 | a short write takes exactly the accepted bytes off the front of the buffer and keeps the rest in order |
| TerminalIo.ReadInto | apps/openape-pods/native/terminal-io.h:22-29 | a short read appends exactly the bytes that fit, and tells the end of the stream from an error |
| TerminalIo.Terminal.Pump | apps/openape-pods/native/terminal-io.h:30-47 | in place, one pump computes exactly the specified step, whichever of its calls fail |
| TerminalIo.Terminal.Drain | apps/openape-pods/native/terminal-io.h:48-62 | in place, a drain computes exactly the specified rounds |
| TerminalIo.ResizeConserves | apps/openape-pods/native/terminal-io.h:34-41 | an accepted resize consumes exactly the next four bytes of the dimension stream |
| TerminalIo.PumpConserves | apps/openape-pods/native/terminal-io.h:30-47 | received bytes are delivered bytes followed by buffered bytes, in order, in both directions; buffers stay within 65536; nothing delivered is taken back |
| TerminalIo.PumpDelivers | apps/openape-pods/native/terminal-io.h:30-47 | a pump whose calls make full progress delivers everything typed before it, shows all output received, and leaves no complete resize request waiting |
| TerminalIo.PumpSucceedsExactly | apps/openape-pods/native/terminal-io.h:30-47 | a pump fails exactly if a byte cannot be written, the viewer is gone, a whole request is not 20 to 500 columns and 5 to 300 rows or is not taken, or the output breaks; every whole request is one resize of these numbers |
| TerminalIo.RoundExactly | apps/openape-pods/native/terminal-io.h:50-58 | when a round of draining fails, and when it is the last |
| TerminalIo.DrainConserves | apps/openape-pods/native/terminal-io.h:48-62 | a drain conserves every byte, and one that answers 0 has met the end of the output and shown all of it |
| TerminalIo.DrainStops | apps/openape-pods/native/terminal-io.h:48-62 | a drain goes on until a round ends it or its time is over, and answers 0 exactly if the last round found everything shown |
| TerminalIo.RunConserves | apps/openape-pods/native/terminal-io.h:15-62 | conservation and the resize grouping hold in every state of every run of pumps and drains |
| Glob.CompiledGlobIsGlob | packages/grants/src/cli-permissions.ts:121-124 | the escaped and expanded regular expression matches exactly what the glob means |
| Glob.GlobTransitive | packages/grants/src/cli-permissions.ts:118-125 | a pattern that matches another pattern's text matches everything that one matches |
| Glob.MatchesTransitive | packages/grants/src/cli-permissions.ts:118-125 | selector matching is transitive on all values |
| Glob.MatchesReflexive | packages/grants/src/cli-permissions.ts:118-125 | a value matches itself exactly when it is not a glob longer than 256 characters |
| Glob.MatchesIsInclusion | packages/grants/src/cli-permissions.ts:118-125 | a value matches another one within the glob limit exactly when it matches every concrete value the other matches |
| Glob.DocumentedExactly | packages/grants/src/cli-permissions.ts:111-125 | on a text, every glob within the limit matches as documented, `*` standing for any characters, exactly when the text is one line |
| Glob.StarRejectsLineFeed | packages/grants/src/cli-permissions.ts:118-125 | a text of two lines that `*` does not match |
| CliPermissions.CoversTransitive | packages/grants/src/cli-permissions.ts:174-188 | coverage of details is transitive; what coverage means is CoverageMeaning.CoversIsInclusion |
| CliPermissions.DetailsCoverTransitive | packages/grants/src/cli-permissions.ts:190-196 | coverage of lists of details is transitive, also from stored lists with unreadable details |
| CliPermissions.CoversReflexive | packages/grants/src/cli-permissions.ts:174-188 | a detail covers itself exactly when it is a CLI detail without an overlong glob |
| CoverageMeaning.RefCoversIsInclusion | packages/grants/src/cli-permissions.ts:127-143 | a reference within the glob limit is covered exactly if every concrete resource it allows (same kind, a matching value for every value it states) is allowed by the other |
| CoverageMeaning.CoversIsInclusion | packages/grants/src/cli-permissions.ts:174-188 | a detail within the glob limit is covered exactly if both are CLI details and every concrete invocation it allows (same tool and action, every reference of the chain allowing the resource at its place) is allowed by the other |
| CoverageMeaning.CoveringDetailAllows | packages/grants/src/cli-permissions.ts:174-188 | whatever they state, a covered detail allows no invocation that its coverer does not |
| CoverageMeaning.DetailsCoverAllows | packages/grants/src/cli-permissions.ts:190-196 | if stored details cover required ones, every invocation that is required is allowed by a stored detail that can be read |
| CliPermissions.SelectorStringIsFaithful | packages/grants/src/cli-permissions.ts:25-33 | selector strings without separator characters are equal exactly for equal normalized selectors |
| CliPermissions.SameNormalizedSameCanonical | packages/grants/src/cli-permissions.ts:35-41 | equal normalized details always have equal canonical permissions |
| CliPermissions.CanonicalIsFaithful | packages/grants/src/cli-permissions.ts:35-41 | on separable details, canonical permissions are equal exactly for equal normalized details |
| CliWidening.FindDifferingSelectors | packages/grants/src/cli-permissions.ts:215-228 | exactly the positions with different selector strings, in order |
| CliWidening.WidenCoversBoth | packages/grants/src/cli-permissions.ts:258-280 | a widened detail covers both similar details exactly when it keeps no overlong glob |
| CliWidening.SimilarExactly | packages/grants/src/cli-permissions.ts:234-251 | two details are similar exactly if they are for one action of one tool on the same kinds of resources, the old one does not cover the new one, and some selector differs |
| CliWidening.WidenedFields | packages/grants/src/cli-permissions.ts:258-280 | the selectors that differ go, the permission is renewed, the display says so, and nothing else changes |
| CliWidening.MergeCliAuthorizationDetails | packages/grants/src/cli-permissions.ts:282-298 | the first detail of every canonical permission, in order, carrying that permission |
| CliWidening.MergedFacts | packages/grants/src/cli-permissions.ts:282-298 | merged details come from the input, every permission of the input occurs, and none occurs twice |
| CliWidening.MergeKeepsEveryDetail | packages/grants/src/cli-permissions.ts:282-298 | merging keeps the authority of every detail exactly when no permission strings collide |
| CliWidening.MergeKeepsCoverage | packages/grants/src/cli-permissions.ts:282-298 | a merged list never covers more than its inputs, and exactly as much if nothing collides |
| CliWidening.CommaCollides | packages/grants/src/cli-permissions.ts:30-32 | two concrete details with one permission string, of which merging loses the second |
| ShapeMatcher.ParseDeclaredOptionArgs | packages/grants/src/shape-matcher.ts:74-113 | the token loop computes the units of the call and their bindings, or rejects |
| ShapeMatcher.UnitsSound | packages/grants/src/shape-matcher.ts:74-113 | accepted tokens are the printed form of declared units in exact dash form |
| ShapeMatcher.UnitsComplete | packages/grants/src/shape-matcher.ts:74-113 | printed declared units are read back as exactly those units |
| CallTokens.DeclaredUnits | packages/grants/src/shape-matcher.ts:37-112 | which units a call to an operation with declared options may have, spelled on its option lists |
| CallTokens.DeclaringIsEnough | packages/grants/src/shape-matcher.ts:115-134 | declaring either list, even an empty one, makes the declared rule apply |
| CallTokens.OlderPositional | packages/grants/src/shape-matcher.ts:38-42 | without declared options, a token without a dash, a lone dash and a negative number are positionals |
| CallTokens.OlderInline | packages/grants/src/shape-matcher.ts:144-150 | `--key=value` binds the value |
| CallTokens.OlderDouble | packages/grants/src/shape-matcher.ts:151-160 | `--key` takes the next token if that is not empty and has no dash, and is `true` otherwise |
| CallTokens.OlderSingle | packages/grants/src/shape-matcher.ts:151-160 | `-key` does so too, but a single letter only if it is required |
| CallTokens.GlobalEntries | packages/grants/src/shape-matcher.ts:175-178 | a global option is bound to its own name unless another name is given after `=` |
| CallTokens.ExpandedToken | packages/grants/src/shape-matcher.ts:302-309 | a dash with two letters or more becomes one token per letter, every other token stays |
| ShapeMatcher.ParseGlobalOptions | packages/grants/src/shape-matcher.ts:171-204 | the loop over global options computes the specified bindings and rest |
| ShapeMatcher.GlobalsSound | packages/grants/src/shape-matcher.ts:171-204 | consumed global options are declared, have distinct bindings, and stop at the first other token |
| ShapeMatcher.GlobalsComplete | packages/grants/src/shape-matcher.ts:171-204 | printed global options are read back with their bindings, leaving the rest |
| ShapeMatcher.MatchOperationInSteps | packages/grants/src/shape-matcher.ts:262-300 | the steps of matching one operation compute the specified result |
| ShapeMatcher.MatchingIsRendering | packages/grants/src/shape-matcher.ts:262-300 | an operation with declared options and a safe command matches any call exactly when the call renders globals, the command and declared units that fit the operation, and binds exactly the values these give |
| ShapeMatcher.OnlyRenderingsExactly | packages/grants/src/shape-matcher.ts:272-273 | an operation without global options that some call fits matches renderings only, exactly when its command is safe |
| ShapeMatcher.RenderedCallMatches | packages/grants/src/shape-matcher.ts:262-300 | a rendered call matches exactly when its positionals are as many as named, literals are met, required options have a value and no global takes a name the call assigns; every name then has its global or last assigned value, and no other name is bound |
| ShapeMatcher.BoundExactly | packages/grants/src/shape-matcher.ts:280-299 | the last phase of matching succeeds exactly under those four conditions |
| ShapeMatcher.OptionsAreExact | packages/grants/src/shape-matcher.ts:81-112 | the options read are exactly the assigned names, and distinct names keep their values |
| ShapeMatcher.RenderedValuesAreBound | packages/grants/src/shape-matcher.ts:282-299 | a rendered call that fits matches, and with distinct names every option, positional and global value of it is bound to its name, and nothing else is |
| ShapeMatcher.SeparatedIsFaithful | packages/grants/src/shape-matcher.ts:273 | any tokens have the joined text of a command that is one token or holds no NUL character only if they are the command |
| ShapeMatcher.SafeCommandsExactly | packages/grants/src/shape-matcher.ts:273 | only such commands are told from all other token lists of their length; every other command shares its text with a different one |
| ShapeMatcher.SeparatorCollides | packages/grants/src/shape-matcher.ts:273 | two different token lists with one joined text |
| ShapeMatcher.ChosenIsLongestMatch | packages/grants/src/shape-matcher.ts:334-351 | the chosen operation, with what it binds, is the first of those with the longest command that match; if none does, the first such without declared options that matches the expanded flags; if there is none either, none is chosen |
| Json.RenderIsPrefixFree | packages/grants/src/grant-reference.ts:23-40 | no JSON text followed by anything can be mistaken for another value's text |
| Json.RenderIsInjective | packages/grants/src/grant-reference.ts:23-40 | equal JSON texts denote equal values |
| GrantReference.CanonicalTextIsRendering | packages/grants/src/grant-reference.ts:29-34 | the text of the canonical form depends only on the value denoted, at every depth |
| GrantReference.BindingIsFaithful | packages/grants/src/grant-reference.ts:37-40 | two requests are bound to one text exactly when they ask for the same authority |
| GrantReference.BindingComparesAuthority | packages/grants/src/grant-reference.ts:37-40 | the same, property by property, whatever key order, undefined properties and presentation fields |
| GrantReference.KeyIsFaithful | packages/grants/src/grant-reference.ts:23-27 | reference keys are equal exactly for the same requester, reference and five broker authority fields |
| GrantBinding.BindingIsAuthority | packages/grants/src/grant-reference.ts:37-40 | the binding texts of two requests, however their objects were built, are equal exactly when their authority fields are |
| GrantBinding.SameReferencedIsByText | packages/grants/src/grant-reference.ts:42-48 | comparing reference, key and authority fields decides what comparing reference, key and binding text decides |
| GrantBinding.EveryRequestIsDenoted | packages/core/src/types/index.ts:225-282 | every request is such an object |
| GrantBinding.DenotedOnce | packages/core/src/types/index.ts:225-282 | different requests have different values, so an object is one request only |
| GrantStore.InMemoryGrantStore.CreateReferenced | packages/grants/src/stores.ts:51-62 | insert, return the existing grant, or report a conflict; nothing changes unless it inserts |
| GrantStore.InMemoryGrantStore.UpdateStatus | packages/grants/src/stores.ts:74-85 | merges status and extra properties, unless a referenced grant would lose its binding (compared by fields, which GrantBinding.SameReferencedIsByText equates with the texts) |
| GrantStore.InMemoryGrantStore.ClaimOnce | packages/grants/src/stores.ts:87-92 | marks an approved grant used, and only such a grant |
| GrantStore.InMemoryGrantStore.Withdraw | packages/grants/src/stores.ts:94-99 | withdraws a pending or approved single-use grant and returns the status it replaced |
| GrantStore.InMemoryGrantStore.MarkConsumed | packages/grants/src/stores.ts:101-105 | true for the first redemption only |
| GrantOutcomes.CreateReferencedOutcome | packages/grants/src/stores.ts:51-62 | on the fields: only a request that binds one command is accepted; a new key inserts that grant and nothing else, a known key answers its grant exactly for the same authority and is a conflict otherwise |
| GrantOutcomes.SaveOutcome | packages/grants/src/stores.ts:64-67 | a request with a reference is refused, any other grant is stored as it is |
| GrantOutcomes.UpdateOutcome | packages/grants/src/stores.ts:74-85 | which properties an update overwrites and which it keeps, and when it is refused |
| GrantOutcomes.ClaimOutcome | packages/grants/src/stores.ts:87-92 | an approved grant becomes used at that time and nothing else changes; every other call changes nothing |
| GrantOutcomes.StoreWithdrawOutcome | packages/grants/src/stores.ts:94-99 | exactly pending and approved `once` grants are withdrawn, with time and reason |
| GrantOutcomes.ConsumptionOutcome | packages/grants/src/stores.ts:101-105 | a token is recorded exactly for a known grant without one |
| GrantListing.CursorRoundTrip | packages/grants/src/grant-cursor.ts:4-12 | a printed cursor reads back as its position exactly for ids of 1 to 256 characters on one line and safe-integer times, and is rejected otherwise |
| GrantListing.OlderCursors | packages/grants/src/grant-cursor.ts:4-8 | a cursor that is only a time is accepted; every accepted cursor is a time, alone or with a colon and the id |
| GrantListing.ListGrantsInSteps | packages/grants/src/stores.ts:147-188 | filtering, sorting and then applying the cursor gives the page of the sorted matching grants after the cursor; what matches is stated filter by filter in GrantFilters |
| GrantListing.PageMembers | packages/grants/src/stores.ts:171-188 | a page holds exactly the matching grants after the cursor and not after its last grant, newest first |
| GrantListing.CursorsCarryPositions | packages/grants/src/stores.ts:174-185 | the cursor text of a page leads to the listing after its last grant |
| GrantListing.FollowCursors | packages/grants/src/stores.ts:147-188 | on a store at rest, following cursors returns every matching grant once in (created_at desc, id desc) order, for any limit |
| GrantListing.ReturnedExactlyOnce | packages/grants/src/stores.ts:147-188 | when every page is asked for with the cursor text of the page before, however the store changes in between, a grant that matches throughout is on exactly one page |
| GrantFilters.NothingFiltered | packages/grants/src/stores.ts:147-188 | the full listing without filters holds every grant |
| GrantFilters.StatusFilter | packages/grants/src/stores.ts:154-156 | with a status, exactly the grants of that status are kept of the listing without one |
| GrantFilters.ExcludedStatusFilter | packages/grants/src/stores.ts:157 | with an excluded status, exactly the grants of another status are kept |
| GrantFilters.RequesterFilter | packages/grants/src/stores.ts:158-161 | with requesters, exactly their grants are kept; with a broker owner, a brokered grant is kept by its owner instead |
| GrantFilters.OneRequesterFilter | packages/grants/src/stores.ts:163 | with a requester filter, exactly that requester's grants are kept |
| GrantFilters.BatchFilter | packages/grants/src/stores.ts:164 | with a batch, exactly its grants are kept |
| GrantFilters.ReferenceFilter | packages/grants/src/stores.ts:166 | with a reference, exactly the grants of that reference are kept |
| GrantFilters.ReferenceKeyFilter | packages/grants/src/stores.ts:167 | with a reference key, exactly the grants of that key are kept |
| GrantFilters.NewestFirst | packages/grants/src/stores.ts:170 | listed grants come by falling creation time, then by falling id |
| GrantFilters.FirstPage | packages/grants/src/stores.ts:148-188 | a page holds the first grants of the full listing, 20 unless another limit is given, at least one and at most 100, and says whether there are more |
| GrantFilters.CursorPosition | packages/grants/src/stores.ts:173-176 | with a cursor, exactly the grants created before its time, or at it with a smaller id, are kept |
| GrantOperations.CreateGrant | packages/grants/src/grants.ts:20-37 | creation through the store object, with the store it leaves and its answer |
| GrantOperations.ApproveGrant | packages/grants/src/grants.ts:43-88 | approval through the store object; GrantOutcomes.ApprovalOutcome says on the fields what it answers and writes |
| GrantOperations.DenyGrant | packages/grants/src/grants.ts:93-114 | denial of a pending grant only |
| GrantOperations.RevokeGrant | packages/grants/src/grants.ts:119-136 | revocation of a pending or approved grant only |
| GrantOperations.IntrospectGrant | packages/grants/src/grants.ts:222-239 | lazy expiry of an approved timed grant |
| GrantOperations.UseGrant | packages/grants/src/grants.ts:246-273 | use claims a once grant and leaves the others as they are |
| GrantOperations.CreateDelegation | packages/grants/src/grants.ts:278-309 | a delegation is saved pending and approved by its delegator |
| GrantOperations.ApproveGrantWithExtension | packages/grants/src/grants.ts:320-394 | the checks, the merged or widened details, the revocations and the approval, in that order; GrantOutcomes.ExtensionChecks says on the fields which grants pass |
| GrantOperations.ApproveGrantWithWidening | packages/grants/src/grants.ts:401-468 | the checks on every chosen detail, the normalized details and the approval |
| GrantOperations.WithdrawReferencedGrant | packages/grants/src/grant-withdraw.ts:33-46 | withdrawal by reference key, with the outcome it reports |
| GrantOutcomes.CreationOutcome | packages/grants/src/grants.ts:20-37 | a created grant is pending, carries the request and the creation time, and is answered; the refusals by their fields |
| GrantOutcomes.ApprovalOutcome | packages/grants/src/grants.ts:43-88 | the stored type is the approver's if given, else the requested one, else `once`, and the duration likewise; expiry exactly for timed grants; the four refusals by these cases, in their order |
| GrantOutcomes.DenialOutcome | packages/grants/src/grants.ts:93-114 | a pending grant becomes denied with approver and time, any other call is refused, and nothing else changes |
| GrantOutcomes.RevocationOutcome | packages/grants/src/grants.ts:119-136 | a pending or approved grant becomes revoked, any other call is refused, and nothing else changes |
| GrantOutcomes.IntrospectionOutcome | packages/grants/src/grants.ts:222-239 | an approved timed grant whose time has come becomes expired; every other grant is answered as it is |
| GrantOutcomes.UseOutcome | packages/grants/src/grants.ts:246-273 | what each status answers, and that a `once` grant is spent |
| GrantOutcomes.DelegationOutcome | packages/grants/src/grants.ts:278-309 | the delegation has the delegator as requester and approver, the delegate as delegate, and is approved at once, with its expiry |
| GrantOutcomes.OldGrantsOutcome | packages/grants/src/grants.ts:333-349 | the grants to extend are found exactly if every listed id names an approved grant of the same target host and audience whose owner, domain and digest equal the pending one's, or where neither has owner and domain |
| GrantOutcomes.ExtensionChecks | packages/grants/src/grants.ts:326-349 | an extension passes its checks exactly if the grant is pending, is neither bound to a reference nor single-use, and all listed grants fit |
| GrantOutcomes.FailedExtensionChecks | packages/grants/src/grants.ts:326-349 | which error an extension that fails its checks answers; it changes nothing |
| GrantOutcomes.ExtendedRequestFields | packages/grants/src/grants.ts:351-379 | the permissions are those of the details; the command stays in merge mode and goes in widen mode; nothing else changes |
| GrantOutcomes.ValidWideningFields | packages/grants/src/grants.ts:424-440 | which chosen details are valid, field by field |
| GrantOutcomes.NormalizedWideningFields | packages/grants/src/grants.ts:441-454 | what the original keeps when it is replaced and what the chosen detail brings |
| GrantOutcomes.WideningRefusals | packages/grants/src/grants.ts:409-436 | which error a widening answers and in which order; an accepted one clears the command |
| GrantOutcomes.WithdrawalOutcome | packages/grants/src/grant-withdraw.ts:33-46 | an unknown key changes nothing, a pending or approved grant is withdrawn, every other grant is reported as it is |
| GrantRuns.StepKeepsInv | packages/grants/src/grants.ts:20-468 | every operation keeps the store invariant (keys unique, approved and undecided grants well-shaped), moves each grant along at most one arrow, and never changes a settled grant or a binding |
| GrantRuns.RunKeepsInv | packages/grants/src/grants.ts:20-468 | over every run, terminal grants never change, approved ones only become used, revoked, expired or withdrawn, timed ones expire a duration after the decision, and single-use approvals are `once` |
| GrantRuns.RepeatedCreation | packages/grants/src/stores.ts:51-62 | after any run, submitting a known reference again creates nothing: the same grant exactly for the same authority, otherwise a conflict |
| GrantRuns.FindByKeyFacts | packages/grants/src/grant-withdraw.ts:35 | listing by reference key with limit 1 finds a grant of that key exactly when there is one |
| GrantRuns.WithdrawalSettles | packages/grants/src/grant-withdraw.ts:33-46 | an uninterrupted withdrawal of a known reference settles the grant, and repeating it changes nothing and reports the same grant and outcome |
| GrantExtension.RevokeEachSucceeds | packages/grants/src/grants.ts:384-386 | approved grants are revoked one by one up to the first repetition and nothing else changes: all of them exactly when none is listed twice |
| GrantExtension.ExtensionSucceeds | packages/grants/src/grants.ts:320-394 | an extension that passed its checks succeeds exactly when no old grant is listed twice and the extended request can be approved as asked; either way the old grants before the first repetition end revoked and all others are left as they were |
| GrantExtension.RefusedExtensionLeaves | packages/grants/src/grants.ts:320-394 | a refused extension leaves the store alone exactly when its checks failed or it had nothing to revoke and nothing to rewrite; otherwise it leaves the extended request on the pending grant and the old grants before the first repetition revoked |
| GrantExtension.FailedExtensionRevokes | packages/grants/src/grants.ts:381-392 | a concrete extension that fails after revoking the grant it was to extend |
| GrantExtension.MergedExtensionCovers | packages/grants/src/grants.ts:364-369 | in merge mode the extended grant covers what the pending or a revoked grant covered: exactly that if nothing collides, never more |
| GrantExtension.WidenedExtensionCovers | packages/grants/src/grants.ts:351-363 | in widen mode it covers no more than the pending details and the widened pairs, and exactly that if no permissions collide: what the pending grant covered and what every similar old detail covered |
| GrantExtension.SeparableWidening | packages/grants/src/grants.ts:351-363 | separable details never collide, widened or not |
| GrantExtension.WideningSucceeds | packages/grants/src/grants.ts:401-468 | a widening is accepted exactly when every chosen detail is a valid widening of the original at its index and the type can be approved |
| GrantExtension.WidenedApprovalCovers | packages/grants/src/grants.ts:424-456 | the approved details cover the original request and everything it covered, each with its own canonical permission |
| GrantAnswers.CreationAnswers | packages/grants/src/grants.ts:20-37 | creation answers the stored grant, new and pending unless the reference was bound to the same authority; a refusal changes nothing |
| GrantAnswers.ApprovalAnswers | packages/grants/src/grants.ts:43-88 | approval succeeds exactly for the pending grants its checks allow, writes exactly the effective type, duration, decision and expiry, and otherwise changes nothing |
| GrantAnswers.DecisionAnswers | packages/grants/src/grants.ts:93-136 | denial succeeds exactly for pending grants, revocation exactly for unsettled ones; refusals change nothing |
| GrantAnswers.UseAnswers | packages/grants/src/grants.ts:208-273 | use succeeds exactly for approved grants within their duration, spends a once grant, and marks an outlived one expired |
| GrantAnswers.OnceIsSpentOnce | packages/grants/src/grants.ts:246-273 | a once grant that was used is refused ever after, over every run of uninterrupted operations |
| GrantAnswers.SettledStaysUnusable | packages/grants/src/grants.ts:246-273 | no settled grant becomes usable again over uninterrupted operations |
| GrantAnswers.DelegationAnswers | packages/grants/src/grants.ts:278-309 | a delegation fails exactly when it is timed without a duration, and then stays pending |
| GrantAnswers.FailedWideningKeepsDetails | packages/grants/src/grants.ts:456-467 | a widening that fails in its approval leaves the chosen details on the pending grant |
| GrantAnswers.WidenedDetailsKeepIdentity | packages/grants/src/grants.ts:441-454 | a widened detail keeps command line tool, operation, action and risk, and loses its constraints exactly when a selector was removed |
| GrantInterleaving.PerformKeeps | packages/grants/src/stores.ts:51-105 | every single store call of every interleaved operation keeps keys, bindings and the shape of approved grants |
| GrantInterleaving.PerformAccounts | packages/grants/src/stores.ts:74-105 | spending and withdrawing use up the stored approval, and only an approval write puts one there |
| GrantAlone.AloneIsOperation | packages/grants/src/grants.ts:20-468 | every interleaved operation, run without interruption, ends in exactly the store that the operation as one program leaves, also where it is refused or fails halfway |
| GrantAlone.DelegationAlone | packages/grants/src/grants.ts:278-309 | a delegation is the creation of the grant and then its approval by the delegator |
| GrantInterleaving.InterleavingKeeps | packages/grants/src/grants.ts:20-468 | the invariant and every binding hold at every moment of every interleaving |
| GrantInterleaving.SpentAtMostOncePerApproval | packages/grants/src/grants.ts:246-273 | per grant, claims plus withdrawals out of `approved` plus the approval still there never exceed the approval writes; a redemption is recorded at most once |
| GrantInterleaving.ReferencesStayBound | packages/grants/src/grant-reference.ts:42-48 | under every interleaving a reference names one well-shaped `once` grant, and submitting it again returns that grant or a conflict |
| GrantInterleaving.RacingApprovalsSpendTwice | packages/grants/src/grants.ts:49-86 | a reachable interleaving in which a once grant is claimed twice |
| GrantInterleaving.StaleApprovalRevives | packages/grants/src/grants.ts:49-86 | a reachable interleaving in which an approval revives a withdrawn grant |
| GrantSettling.PerformIsHarmless | packages/grants/src/grants.ts:43-468 | a call of a task that holds no reviving write leaves a settled grant settled, claims and approves nothing of it, and leads to such a task again |
| GrantSettling.SettledForGood | packages/grants/src/grants.ts:43-468 | once a grant is settled and no task in flight can unsettle it, it is settled after every schedule, whatever begins later, and is never claimed or approved again |
| GrantSettling.StaleWriteRevives | packages/grants/src/stores.ts:74-85 | a write in flight of a status that is not terminal, if the store accepts it, can revive the grant next |
| GrantSettling.RevivedExactlyByWrites | packages/grants/src/grants.ts:43-468 | in every reachable system, while no extension of the grant is still reading old grants, a settled grant can be revived exactly when such a write is in flight |
| GrantSettling.PendingWriteRevives | packages/grants/src/grants.ts:382 | the write of an extension or widening puts any settled plain grant back to pending |
| GrantSettling.ExtensionRevives | packages/grants/src/grants.ts:333-382 | an extension that still reads old grants, all of them fit, can go on to revive its own grant |
| GrantSettling.StaleExtensionRevives | packages/grants/src/grants.ts:382-393 | a reachable interleaving in which an extension approves a grant that was denied meanwhile |
| WideningSuggestions.DerivePathVariants | packages/grants/src/widening-suggestions.ts:82-134 | the loop computes the sibling, directory, subtree and ancestor patterns in order |
| WideningSuggestions.VariantsIncrease | packages/grants/src/widening-suggestions.ts:96-131 | every variant of a one-line path matches the pattern of all earlier variants |
| WideningSuggestions.VariantsMatchPath | packages/grants/src/widening-suggestions.ts:82-134 | a path without stars matches all its variants exactly when it continues its parent path and ends in its extension |
| WideningSuggestions.CleanIsRooted | packages/grants/src/widening-suggestions.ts:83-94 | a path without empty segments and trailing slash meets that condition |
| PathPatterns.PatternsOfPath | packages/grants/src/widening-suggestions.ts:82-134 | for every path of plain segments, absolute or not, the patterns are: all of its extension in its directory, all in its directory, all under it, and all under each directory above, in this order |
| PathPatterns.WidenedReference | packages/grants/src/widening-suggestions.ts:33-58 | the reference that is widened is the first with a key `path`, `glob`, `file`, `filename` or `uri`; without one there are two suggestions only |
| WideningSuggestions.SuggestionsIncrease | packages/grants/src/widening-suggestions.ts:33-73 | the suggestions form an increasing chain from the exact request to the wildcard |
| WideningSuggestions.SuggestionIsValidWidening | packages/grants/src/widening-suggestions.ts:146-160 | every suggestion passes the checks of a widened approval |
| WideningSuggestions.ChosenSuggestionsAreAccepted | packages/grants/src/grants.ts:401-468 | choosing any one suggestion per detail is approved, and the approved grant covers the original request |
| WideningSuggestions.EmptySegmentIsNotMatched | packages/grants/src/widening-suggestions.ts:83-94 | a concrete path with an empty segment that a suggested pattern does not match |
| StandingGrants.EvaluateStandingGrants | packages/grants/src/standing-grants.ts:127-186 | the loops decide that every CLI detail has a covering rule and name the rule that covers the first |
| StandingGrants.RuleCoversWithinLimits | packages/grants/src/standing-grants.ts:85-101 | a rule covers a detail exactly within its CLI, action and risk limits and its chain template, every limit and template value spelled out |
| StandingGrants.MatchesWhenEveryDetailIsAllowed | packages/grants/src/standing-grants.ts:127-186 | a request matches exactly when it has a CLI detail and each is allowed by some approved, unexpired rule for this agent, audience and host; the first such rule for the first detail is named |
| StandingGrants.MoreRulesStillMatch | packages/grants/src/standing-grants.ts:127-186 | adding rules never takes a match away |
| StandingGrants.NarrowerDetailsStillMatch | packages/grants/src/standing-grants.ts:127-186 | a match survives replacing the details by covered ones of no higher risk |
| StandingGrants.ExpiryChecksDisagreeAtTheBoundary | packages/grants/src/standing-grants.ts:157 | this expiry check and the one of introspection disagree exactly in the second named by `expires_at` |
| ResponsesStream.ResponsesStreamConverter.Push | packages/codex-proxy/src/responses-stream.ts:41-82 | the chunks and the new state of every event; an error event changes nothing |
| ResponsesStream.StreamChatCompletion | packages/codex-proxy/src/proxy.ts:19-27 | all chunks of an error-free stream, or those before the first error event |
| ResponsesStream.TablesAreFaithful | packages/codex-proxy/src/responses-stream.ts:47-66 | the converter's tables name the latest call added under each item id |
| ResponsesStream.RoleComesFirst | packages/codex-proxy/src/responses-stream.ts:34-39 | the chunk that names the role comes at most once and before everything the assistant says, and it comes exactly if a message, a call or a text begins |
| ResponsesStream.ArgumentsExtended | packages/codex-proxy/src/responses-stream.ts:63-68 | an argument delta extends exactly the call its item id refers to |
| ChatCollectors.CollectChatCompletion | packages/codex-proxy/src/proxy.ts:34-76 | the server's collector computes the fold of the chunks |
| ChatCollectors.AggregateChatStream | packages/agent-runtime/src/agent-runtime.ts:114-156 | the client's collector depends only on the complete lines of the whole body, however it is cut |
| ChatCollectors.FramingKeepsChunks | packages/codex-proxy/src/server.ts:78-89 | with any faithful way to write chunks on lines, the framed body gives the client back every chunk in order |
| JsonText.StringifyIsPrefixFree | packages/codex-proxy/src/server.ts:81 | the JSON text of a value, followed by anything that may follow a value, determines the value, whatever its key order |
| JsonText.ObjectText | packages/codex-proxy/src/server.ts:81 | the JSON text of an object is one line in braces |
| ChunkText.ChunkTextIsFaithful | packages/codex-proxy/src/server.ts:78-83 | every chunk is written on one line that reads back as the chunk |
| ChunkText.ResponseReachesTheAgent | packages/agent-runtime/src/agent-runtime.ts:114-156 | for every error-free response, over the JSON lines the server writes, both collectors give the specified text and tool calls |
| StreamAgreement.CollectorsFollow | packages/codex-proxy/src/responses-stream.ts:41-82 | after every prefix of the events both collectors hold the concatenated text deltas and the calls added so far with their arguments |
| StreamAgreement.CollectorsAgree | packages/codex-proxy/src/proxy.ts:34-76 | for every error-free stream and any faithful way to write chunks on lines (ChunkText.ChunkTextIsFaithful), both collectors give the specified text and tool calls, up to how an empty text and a missing finish reason are written |
| StreamAgreement.SplitNamesDisagree | packages/agent-runtime/src/agent-runtime.ts:142-147 | on a tool name in two pieces the collectors differ |
| ChunkAgreement.DeltasAreHeld | packages/codex-proxy/src/proxy.ts:50-58 | after any tool deltas the server holds at every index the last id, the concatenated names and arguments, and the client the last id, the last name and the concatenated arguments in order of first appearance |
| ChunkAgreement.CollectorsAgreeExactly | packages/codex-proxy/src/proxy.ts:34-76 | on any chunks both collect the same text and finish reason, and their messages hold the same tool calls exactly when each call is named at most once and the calls are the same in order of index and of first appearance; with their indices, exactly when indices first appear in increasing order |
| ChunkAgreement.DifferentIdsAgreeExactly | packages/codex-proxy/src/proxy.ts:34-76 | for calls of different ids the messages hold the same tool calls exactly when indices first appear in increasing order and each is named at most once |
| ChunkAgreement.EqualCallsHideTheOrder | packages/agent-runtime/src/agent-runtime.ts:139-154 | two calls that cannot be told apart, in decreasing order of index, that both collectors report alike |
| ChunkAgreement.OrderDisagrees | packages/agent-runtime/src/agent-runtime.ts:154 | on indices that first appear in another order the collectors list the calls differently |
| ServerSentEvents.ParseSSEEvents | packages/codex-proxy/src/sse.ts:19-34 | what is yielded, and whether it fails, depends only on the whole text, not on its split into chunks; which lines carry events is DataOfExactly |
| ServerSentEvents.FramesAreLines | packages/codex-proxy/src/sse.ts:5-34 | frame boundaries never matter: the text fails exactly when one of its lines is malformed, and otherwise yields what its lines yield |
| ServerSentEvents.DataOfExactly | packages/codex-proxy/src/sse.ts:8-15 | a line carries a text exactly if it is `data:` and that trimmed text, with space before, between and after, and the text is neither empty nor `[DONE]` |
| ServerSentEvents.LineYields | packages/codex-proxy/src/sse.ts:8-15 | a line yields the event of the text it carries or is malformed; one that carries none, such as one without the prefix or with a blank payload, yields nothing |
| ServerSentEvents.ServedEvents | packages/codex-proxy/src/sse.ts:5-34 | texts of one line served as `data: ` lines between blank lines and closed by `data: [DONE]` are yielded as their events in order, up to exactly the first that does not parse |
| SchemaSanitizer.CollapsibleTypeMeans | packages/codex-proxy/src/schema-sanitizer.ts:32-37 | a type list is collapsible exactly when one of its types is not `null` and all the others, at least one, are |
| SchemaSanitizer.CollapsibleBranchMeans | packages/codex-proxy/src/schema-sanitizer.ts:41-46 | a union is collapsible exactly when one of its branches is an object other than `null` and all the others, at least one, are `null` |
| SchemaSanitizer.CollapseObjectNode | packages/codex-proxy/src/schema-sanitizer.ts:48-78 | the loops over keys and unions compute the collapsed node |
| SchemaSanitizer.CollapseIsNormal | packages/codex-proxy/src/schema-sanitizer.ts:48-78 | a node with normal children collapses to a normal node exactly when its `type` is not a nullable pair of a nullable pair, even when a branch brings its own unions |
| SchemaSanitizer.CollapseKeepsOwnKeys | packages/codex-proxy/src/schema-sanitizer.ts:67-74 | the node's own annotations win, a surviving branch brings all its other keys, and every new key comes from one |
| SchemaSanitizer.CollapsedUnionIsNullable | packages/codex-proxy/src/schema-sanitizer.ts:53-75 | whatever was collapsed is marked nullable |
| SchemaSanitizer.SanitizeFreesUnions | packages/codex-proxy/src/schema-sanitizer.ts:59-75 | whatever the schema, no nullable union is left at any depth |
| SchemaSanitizer.SanitizeSurviving | packages/codex-proxy/src/schema-sanitizer.ts:48-78 | collapsing a node after sanitizing its children is sanitizing what survives of the node as it was given |
| SchemaSanitizer.NormalExactly | packages/codex-proxy/src/schema-sanitizer.ts:48-86 | the result is in normal form at every depth exactly when, in what survives, no type is again a nullable pair |
| SchemaSanitizer.NormalIsFixed | packages/codex-proxy/src/schema-sanitizer.ts:80-86 | a schema in normal form is left alone |
| SchemaSanitizer.FixedIsNormal | packages/codex-proxy/src/schema-sanitizer.ts:80-86 | a schema that is left alone is in normal form |
| SchemaSanitizer.SanitizeTwice | packages/codex-proxy/src/schema-sanitizer.ts:80-86 | a second pass changes nothing exactly for these schemas |
| SchemaSanitizer.FlatTypesAreClean | packages/codex-proxy/src/schema-sanitizer.ts:32-37 | every schema whose type lists hold no array is one of them |
| SchemaSanitizer.SanitizedParameters | packages/codex-proxy/src/schema-sanitizer.ts:103-105 | for all parameters, the root keeps everything but `allOf`, `anyOf`, `oneOf`, `enum` and `not`, and no nullable union is left anywhere; the result is in normal form, and a second pass changes nothing, exactly when no surviving type is again a nullable pair |
| SchemaSanitizer.NestedTypesNeedTwoPasses | packages/codex-proxy/src/schema-sanitizer.ts:32-37 | a concrete schema that a second pass changes |
| SchemaMeaning.CollapsedAccepts | packages/codex-proxy/src/schema-sanitizer.ts:48-78 | whatever a node accepts it accepts when collapsed, and null if anything was; nothing else is added where merged branches agree with the node |
| SchemaMeaning.CollapseKeepsMeaning | packages/codex-proxy/src/schema-sanitizer.ts:13-15 | a node whose branches agree accepts the same values when collapsed exactly when nothing collapses or it accepts null |
| SchemaMeaning.SanitizeKeepsMeaning | packages/codex-proxy/src/schema-sanitizer.ts:80-86 | a schema that meets these conditions at every depth accepts the same values after it was sanitized |
| SchemaMeaning.ParametersKeepMeaning | packages/codex-proxy/src/schema-sanitizer.ts:103-105 | such parameters still accept what they accepted, and nothing else unless a combinator was dropped from the root |
| SchemaMeaning.OverriddenConstraintIsLost | packages/codex-proxy/src/schema-sanitizer.ts:67-72 | a constraint of the merged branch that the node states differently no longer holds |
| PlanTranslations.ListPlanTexts | packages/ape-testruns/src/plan-translations.ts:4-28 | the loops over keys, groups and nested lists list the specified entries in order |
| PlanTranslations.PathsArePrefixFree | packages/ape-testruns/src/plan-translations.ts:4-28 | paths are distinct, none starts another, and each leads to the text it lists |
| PlanTranslations.EveryTextIsListed | packages/ape-testruns/src/plan-translations.ts:6-25 | every text below a listed field, however deep in lists, is an entry |
| PlanTexts.RootsAreFields | packages/ape-testruns/src/plan-translations.ts:10-26 | the fields searched for texts, by name: the eight of the plan, all of the problem, those of the records of the five groups, and the summary of the completion |
| PlanTexts.ListedExactly | packages/ape-testruns/src/plan-translations.ts:4-28 | a text is listed exactly if it is, or is in the lists of, one of these fields |
| PlanTexts.TranslationsAreEntries | packages/ape-testruns/src/plan-translations.ts:36 | the translations of a plan are the path, source and text of its `translations.entries`, in order |
| PlanTexts.BilingualMeans | packages/ape-testruns/src/plan-translations.ts:30-33 | a plan may have translations only if its language is missing, empty or `en`, and it has a summary and a problem overview |
| PlanTranslations.ValidatePlanTranslations | packages/ape-testruns/src/plan-translations.ts:30-44 | accepts exactly the plans whose translations are one per text, from its current source, and nothing else |
| PlanTranslations.GermanPlan | packages/ape-testruns/src/plan-translations.ts:46-55 | the loop writes every translation at its path, one after the other |
| PlanTranslations.SetChangesOnlyItsLocation | packages/ape-testruns/src/plan-translations.ts:49-52 | writing over a text changes what is seen at that path and nowhere else |
| PlanTranslations.SetAllChangesOnlyTranslated | packages/ape-testruns/src/plan-translations.ts:46-53 | in whatever order the entries come, each path shows its last translation and every other location what it showed |
| PlanTranslations.TranslatedTexts | packages/ape-testruns/src/plan-translations.ts:46-55 | the translated plan lists the same paths in the same order with exactly the translated texts |
| PlanTranslations.OtherFieldsUnchanged | packages/ape-testruns/src/plan-translations.ts:46-55 | every location that no translation names, except the language, is unchanged |
| PlanTranslations.LanguageIsGerman | packages/ape-testruns/src/plan-translations.ts:54 | at the root only the language can be new, and it is `de` |

## Left out

- GrantInterleaving.SpentAtMostOncePerApproval: an inequality, not "at most once per grant", because racing approvals do spend a grant twice (RacingApprovalsSpendTwice).
- GrantSettling.RevivedExactlyByWrites: while an extension of the grant still reads old grants, one direction only (ExtensionRevives), because whether those grants can be approved again depends on further writes in flight and on grants that do not exist yet.
- GrantInterleaving.ReferencesStayBound: says nothing about terminal statuses, which stale writes can leave again; GrantSettling.SettledForGood and RevivedExactlyByWrites say when they do.
- StreamAgreement.CollectorsAgree: the fields id, model, created and type of a chunk, which no collector combines, are parameters of its text (ChunkText.Meta); `JSON.parse` is modelled on the texts that `JSON.stringify` writes.
- SchemaMeaning.SanitizeKeepsMeaning: reads `nullable` as accepting null whatever the other keywords say; type names and the keywords without sub-schemas are parameters, and references between schemas are not modelled. Without its conditions only CollapsedAccepts holds, of one node, since `not` and `oneOf` turn a wider part into a narrower whole.
- WideningSuggestions.SuggestionsIncrease: the exact condition on paths is stated for paths without stars in VariantsMatchPath; which of several path-like keys JavaScript meets first is a parameter. The labels of suggestions are not modelled.
- PlanTranslations.TranslatedTexts: for problem overviews whose keys contain no dot (the four keys of the type do not); the keys of the overview are listed in code-unit order.
- PlanTranslations.GermanPlan: writing to a location that does not exist is an error in the model; validation excludes it.
- GrantStore.InMemoryGrantStore.UpdateStatus: copying of stored objects is not modelled; of an execution context only the facts that bind a shape.
- GrantRuns.StepKeepsInv: assumes that ids from `crypto.randomUUID` are new to the store.
- GrantListing.ReturnedExactlyOnce: for grants whose cursors can be read back, which CursorRoundTrip describes; a grant's id and creation time never change.
- ShapeMatcher.MatchingIsRendering: for operations with declared options; the older option rule is modelled as the other case of the matcher, token by token (CallTokens). Rendering of resource chains and display templates is not modelled.
- ProcessDomain.InspectDomain: one guardian per record path, one listing of a process group is atomic, and descendants of the command stay in its process group; signals, terminals, descriptors and disk crashes are not modelled.
- OwnerLease.MissingAfterOwnerIsFinal: an owner sends heartbeats only; other bytes, which close the lease, are not modelled.
- Sorting keys with `localeCompare` is modelled as code-unit order; only its being a total order is used.
- Texts are sequences of characters; surrogate pairs, the hidden-character and byte-length checks of references, and `TextDecoder` on split bytes are not modelled.
- JSON numbers are integers; `undefined` inside arrays does not occur.
- Delegation checks, batch checks, validation of details, summaries and standing requests, HTTP, tokens, signatures and the database store are not part of this model.
