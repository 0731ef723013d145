# A verified model of Nightseam's protocol cores

Nightseam declares families of types, renders them, and runs them over wires. The parts
whose correctness is hard to see from reading them are modelled here in Dafny and proved,
each in the form its source has:

- **Patterns** (`Pattern*.dfy`): the tree matcher for patterns whose counted repetitions Go's
  engine cannot expand. A set of end positions is advanced through a memo table; a minimum
  width, computed with saturating 64-bit arithmetic, prunes; repetition stops when the set of
  positions stops changing. The meaning is that of section 22.2.2 of ECMA-262 for the subset
  without captures and look-around.
- **Recorded wires** (`RecordProtocol.dfy`, `RecordRuns.dfy`, `RecordProgress.dfy`,
  `WireLog.dfy`): one append loop, bounded admission, followers that replay a log from a cursor and then take a bounded live
  hand-off. A state machine over the interleaved steps of producers, recorder, followers and
  closers.
- **Live scopes** (`LiveOwners.dfy`, `LiveBooks.dfy`, `LiveScope.dfy`, `LiveTombstones.dfy`,
  `LiveHistory.dfy`, `LiveBuilds.dfy`): tables of exports and imports, the lazily linked owner tree, tombstones, and
  nested batches rolled back by identity. A class whose methods are the critical sections of the
  scope's mutex; and what building and publishing a value come to, whatever calls others make
  meanwhile.
- **Declarations** (`Declaration*.dfy`): substitution across families and the flattening of
  inherited fields, from the scope rules of the declaration checks up; what types capture and are
  generic in (least fixed points, why they suffice, and the chains of references that make them
  up); selection from a graph of cyclic
  definitions; canonical decimals.
- **Wires** (`WirePaths.dfy`, `WireTree.dfy`, `WireDispatcher.dfy`, `MountAttachments.dfy`,
  `MountReceives.dfy`, `ThroughAttachments.dfy`, `SelectedAttachments.dfy`): the path codec, sending through
  composed access, longest-prefix dispatch, and the three machines that borrow receive
  attachments and give them back.
- **Logins** (`LoginProtocol.dfy`, `LoginLives.dfy`, `LoginGrants.dfy`, `LoginPacing.dfy`): Begin, Answer and Collect over a
  compare-and-set store, interleaved at each read and write.
- **Audiences** (`AudienceGrammar.dfy`, `Audience.dfy`): a hand-written URL normaliser against
  the grammar of URLs it accepts.

`Wrappers.dfy`, `Strings.dfy` and `DecimalText.dfy` hold what several of these share.
`dafny verify dfyconfig.toml` checks the project.

## How to read the model

A protocol whose steps interleave is a `State`, a `Step` and a function applying one to the
other. `After(schedule)` is the state a sequence of steps leads to, and the main lemmas speak of
every schedule. One step is one critical section, one storage or carrier call, or one callback
made outside the lock; a callback may therefore come between any two steps.

Objects compared by identity carry the number they were made with. Owner states are numbered in
creation order. Counts, admitted Sends and the like that only a proof needs are either ghost or
marked as history.

Three properties turned out not to hold as one would first state them.

- **A collect can answer for another login.** `Collect` reads the record, and when its write
  loses it reads again and returns whatever collected answer is there. If the record's retention
  ended in between and another login was begun over it, answered and collected, that answer is
  the other login's. `CollectCanStraddleTwoLives` gives the schedule. `CollectIsOfItsLifeIff` is the
  exact condition: no Begin was answered with a version past the one first read, up to the one
  answered from. `CollectIsOfItsLifeWhileRetained` is what a caller can know beforehand: as long as
  every login over the record is asked for before the retention of what was read has ended, by the
  clock of whoever asks, the answer is the one read. In the schedule a login is asked for at the
  very second it ends. The comment on `Collect` promises the same bytes to two collectors.
- **A poll can be forgotten.** The comment on `Collect` has a poll sooner than five seconds after
  the last verified one answered SlowDown. An Answer that read the record before a poll was stored
  and writes after it stores the record as it read it, and the poll is gone: `PollCanBeForgotten`
  gives the schedule. `TooSoonIff` says for every schedule when SlowDown is answered: less than
  five seconds after the poll the record carries, which is the last Collect stored, or what the
  Answer stored since had read. Where no two calls overlap that is the last poll let through
  (`PollsAreSpaced`).
- **A plain import loses its inferred family.** The declaration checks let a family with one family
  parameter refer to an imported generic by name alone. `BindExpression` carries that reference
  into the caller's scope unchanged, where another family, or none, is inferred.
  `InferredFamilyIsLost` has four families that pass the checks and a field that means one thing at
  home and another where it is inherited. For one import `PlainImportSafeIff` is the condition on
  the declarations: it has no family slot, or neither side infers a family, or each has one family
  parameter and the caller's is handed on as the source's. For a whole record it is
  `NothingSpoils`: along each inheritance path, with the bindings composed on the way, no field sees
  an import for which that fails, be it written there or in a type argument of an edge before.
  `FlatteningMeansNestedIff` proves that flattening keeps every meaning if and only if nothing
  spoils. Within and across families nothing does where each edge hands the one family parameter
  on (`HandedOnSpoilsNothing`).

## Model

| member | source | states |
|---|---|---|
| PatternWalks.Stabilises | internal/pattern/match.go:164-172 | Iterating a step that moves forward or stays put, from any set of positions, is constant once there have been as many steps as positions |
| PatternWalks.UnchangedForGood | internal/pattern/match.go:139-143 | Leaving a repetition when the set repeats is exact: it repeats for good |
| PatternWalks.ChangedIsEarly | internal/pattern/match.go:136-156 | A set still changing has been advanced at most once per position, so loop work is bounded by the input and not by the declared count |
| PatternWalks.RepeatMatcherIsCounted | internal/pattern/match.go:133-158 | ECMA-262's repetition, which rejects empty iterations, reaches exactly the positions some admissible number of plain iterations reaches |
| PatternWalks.SaturationIsExact | internal/pattern/compile.go:110-113 | Clamping counts to any ceiling past the input length changes no answer |
| PatternTree.JoinNode | internal/pattern/match.go:40-56 | Joins keep every width the computed one; a group of one is that one |
| PatternTree.WidthIsLowerBound | internal/pattern/match.go:58-71 | A node's saturated width never exceeds the length of a match, so the prune drops none |
| PatternMatch.UniquePositions | internal/pattern/match.go:174-174 | Lists the same positions strictly ascending |
| PatternMatch.MatchState.Ends | internal/pattern/match.go:82-162 | For every built tree and start: terminates and returns, strictly ascending, exactly the ends the semantics allows, keeping every memo entry right |
| PatternMatch.MatchState.Advance | internal/pattern/match.go:166-172 | The ends one step from any of a list of positions, strictly ascending |
| PatternMatch.MatchState.RepeatEnds | internal/pattern/match.go:133-158 | Both repetition loops together yield the ends of every admissible count, in rounds bounded by the input |
| PatternMatch.MatchString | internal/pattern/match.go:17-28 | Accepts exactly the inputs with a match at some start |
| PatternBounds.ReversedIsNumeric | internal/pattern/compile.go:107-109 | Comparing stripped texts by length and then by byte refuses exactly the numerically reversed bounds |
| PatternBounds.StrippingKeepsValue | internal/pattern/compile.go:150-156 | Stripping leading zeros keeps the number |
| PatternBounds.ClampingIsExact | internal/pattern/compile.go:110-113 | Ignoring the range error of the 64-bit parse changes no answer on any Go string |
| PatternBounds.ParseQuantifier | internal/pattern/compile.go:73-118 | A counted quantifier carries its clamped bounds and is read to its end, is refused as reversed exactly when they are, and is refused otherwise only where none stands; any other is read as the one character it is |
| PatternClasses.Normalized | internal/pattern/compile.go:223-238 | Sorted separated spans with the same members |
| PatternClasses.Complement | internal/pattern/compile.go:239-253 | Exactly the code points the class leaves out |
| RecordProtocol.StepKeepsInv | duplex/go/record.go:137-411 | Every step of producers, recorder, followers and closers keeps the invariant |
| RecordProtocol.EveryScheduleKeepsInv | duplex/go/record.go:137-411 | It holds in every reachable state |
| RecordRuns.FollowersAreSentAContiguousRun | duplex/go/record.go:312-411 | In every interleaving a follower is sent exactly log[after+1..after+k] for some k: no gap or duplicate at the cut |
| RecordRuns.IdleFollowersAreCaughtUp | duplex/go/record.go:360-411 | Unstopped, replay done, nothing queued or in hand, recorder between appends: sent exactly up to the head |
| RecordRuns.OnlyAnOwedEntryIsMissing | duplex/go/record.go:186-239 | A working follower lags the head by the one entry it is owed and by nothing else, also between a failed offer and the end that follows |
| RecordRuns.OverflowIsIsolated | duplex/go/record.go:279-311 | Erase a follower from a schedule, overflow and all, its request refused instead: the rest can be taken as it was, and ends with the same log, target, heads and other followers |
| RecordRuns.TheLogComesFirst | duplex/go/record.go:186-239 | The log holds Sends in admission order; the target gets a contiguous run; nothing is seen before it is appended |
| RecordRuns.HeadsAreFences | duplex/go/record.go:242-276 | A successful Head is the initial head plus the Sends admitted before it |
| RecordRuns.EndingIsFinal | duplex/go/record.go:163-185 | Histories only grow, and an ended follower sends at most the entry already cleared |
| RecordProgress.OverflowOnlyInFull | duplex/go/record.go:279-291 | A follower about to be ended for overflow was offered that very entry, unstopped, with its hand-off at capacity |
| RecordProgress.OfferHandsOver | duplex/go/record.go:279-291 | In every reachable state an offer hands an unstopped follower the entry if and only if there is room, and else has it ended; a stopped one is left alone |
| RecordProgress.FollowersCatchUp | duplex/go/record.go:360-411 | From every reachable state between appends a follower whose context has not ended has a run of its own worker, nothing failing or ending it, after which it is live with nothing left to do and has been sent exactly up to the head |
| RecordProgress.AttachedIsWorking | duplex/go/record.go:312-358 | A follow up to the head attaches a follower that has not ended, from the cursor asked for, and so can catch up from there |
| RecordProgress.RecorderGetsOn | duplex/go/record.go:186-239 | From every reachable state an open recorder can, while sequences are left, work off all that was admitted without failing: the log then holds every Send, the target has been sent them all, and every Head is answered |
| RecordProgress.RequestsAreServed | duplex/go/record.go:137-185 | A Send or Head just admitted is worked off after what was admitted before it: a Send is then last in the log and the target's, a Head has been answered |
| WireLog.MemoryWireLog.Append | duplex/go/record.go:53-65 | Assigns the next contiguous sequence or leaves the log alone |
| WireLog.MemoryWireLog.Read | duplex/go/record.go:66-80 | Answers the record under a sequence, and refuses what is not there |
| LiveOwners.EndedForGood | live/go/owner.go:75-84 | Ending is terminal however the tree changes afterwards |
| LiveOwners.EndedBelow | live/go/owner.go:75-101 | Releasing an owner ends every state below it, unlinked and pruned ones included |
| LiveOwners.LinkedIffSubtreeOwns | live/go/owner.go:102-134 | A child is linked if and only if its subtree owns something |
| LiveOwners.OwningHangsFromRoot | live/go/owner.go:25-39 | Every owning owner is reached by links from the current root |
| LiveOwners.EndedOwnsNothing | live/go/owner.go:85-101 | An ended owner holds nothing |
| LiveBooks.MadeSinceBegun | live/go/export.go:99-150 | Nothing made before a batch began is ever revoked with it |
| LiveScope.Scope.RootOwner | live/go/owner.go:25-34 | The current root, or a fresh one once the last was released |
| LiveScope.Scope.Child | live/go/owner.go:35-39 | A nested owner that has ended if and only if its parent has |
| LiveScope.Scope.Prune | live/go/owner.go:126-134 | Unlinks empty ancestors and changes nothing else |
| LiveScope.Scope.Forget | live/go/owner.go:121-125 | One owner gives up one id, links staying exact |
| LiveScope.Scope.Record | live/go/owner.go:102-111 | One owner comes to own one id, and it and its ancestors are linked |
| LiveScope.Scope.Allocate | live/go/owner.go:112-119 | An allocation under an active view is listed under its batch, by identity; every batch keeps its parent and stays open, and no other history changes |
| LiveScope.Scope.EndState | live/go/owner.go:85-101 | Ends a subtree, children unlinked as it goes, and collects exactly what it owned, each once |
| LiveScope.Scope.TakeRelease | live/go/live.go:584-620 | Removes one id from tables and tree; while the scope is open leaves a tombstone, held or not, and says whom to tell: of a held id always, of one that was not only the first time |
| LiveScope.Scope.Bury | live/go/live.go:606-617 | The tombstones are the last of those there were and the new one, oldest dropped first, without duplicates |
| LiveScope.Scope.Export | live/go/live.go:292-323 | A fresh id owned by the view's owner and listed under its open batch, all batches and other history as they were; or the refusal in the code's order with nothing changed |
| LiveScope.Scope.Import | live/go/live.go:358-430 | Borrows a local or held binding, else owns a fresh attachment listed under the open batch; batches, tombstones and other history stay; refusals change nothing |
| LiveScope.Scope.ReleaseId | live/go/live.go:548-583 | One id goes, everything else stays; it leaves a tombstone, the oldest going only past the bound, and is told, but for a second release of what is not held, which is silent |
| LiveScope.Scope.ReleaseOwner | live/go/owner.go:60-74 | Revokes exactly the bindings owned in the subtree, each told once and each left a tombstone, the tombstones being the last within the bound of those there were and the revoked; every other binding survives |
| LiveScope.Scope.End | live/go/live.go:257-280 | The tables are emptied, no owner owns anything, and every owner at or below the current root is ended; a second end changes nothing |
| LiveScope.Scope.Begin | live/go/export.go:99-117 | Opens an empty batch, its parent the view's while that is active and none otherwise, every other batch as it was |
| LiveScope.Scope.Discard | live/go/export.go:134-150 | Revokes exactly the listed allocations that are still current, in their order, each told and left a tombstone, the oldest going only past the bound |
| LiveScope.Scope.Close | live/go/export.go:118-127 | Closes one batch and gives back exactly what was made under its view and its committed nested views; committed, that joins a parent still open; the tables and all other batches stay |
| LiveHistory.UnderStays | live/go/export.go:118-126 | What was made under an open batch, its committed nested batches included, stays so whatever is called meanwhile |
| LiveHistory.DiscardingConcludes | live/go/export.go:118-150 | A failed build, its batch closed and discarded in two sections whatever is called between: nothing more comes under a closed batch, and discarding leaves what there was before and was not lost, and of what was made since only what was not made under it |
| LiveBuilds.BuildValue | live/go/export.go:43-133 | Whatever calls come during the build and between closing its batch and discarding, nested builds included: a failed build leaves exactly the entries there were before, less those released meanwhile, plus those made outside its view; a committed one passes its allocations to an open parent |
| LiveBuilds.PublishValue | live/go/export.go:53-65 | With proof that the value was not published exactly the build's still current allocations go, whatever happened meanwhile; otherwise all stay |
| LiveBuilds.FailedOuterBuild | live/go/export.go:118-133 | When an outer build fails, everything a nested build had committed goes with it, whatever is called before its discard |
| LiveBuilds.ExportAndFail | live/go/export.go:43-82 | A build that exports one value and fails leaves both tables as they were, the exported id gone |
| LiveBuilds.ReleaseThenImport | live/go/owner.go:60-74 | What a released owner or one below it held cannot be attached again by anyone: an import that agrees with the reference is refused as released |
| LiveBuilds.DiscardThenImport | live/go/export.go:134-150 | The same of what was discarded |
| DeclarationSubstitution.BindingDenotes | internal/analysis/inheritance.go:52-126 | Substitution lemma: the bound expression denotes for the caller what the source expression denotes at home, in every environment that has what the bindings supply |
| DeclarationSubstitution.RebindingDenotes | internal/analysis/inheritance.go:55-58 | Viewing an expression in its own family with nothing bound changes no meaning, so a supplied argument is not captured again |
| DeclarationSubstitution.FillerDenotes | internal/analysis/inheritance.go:129-143 | Composing an edge's argument with outer bindings keeps what it denotes |
| DeclarationAgreement.AlikeIffHolds | internal/analysis/inheritance.go:52-126 | Where families agree, a bound expression means the same in both scopes if and only if every parameter its meaning holds is filled alike and its plain imports infer alike |
| DeclarationInference.PlainImportSafeIff | internal/analysis/inheritance.go:54-126 | Over every filling of the caller's scope, a plain import keeps its meaning if and only if it has no family slot, or neither side infers a family, or each has one family parameter and the caller's is handed on |
| DeclarationLostFamily.InferredFamilyIsLost | internal/check/check.go:378-411 | Four families the checks accept, the rules for plain imports and unused parameters included, where a field means a frame of the filling family at home and of none where it is inherited, so that the record flattened does not mean what nested evaluation gives |
| DeclarationPaths.EdgeDenotes | internal/analysis/analysis.go:226-230 | The bindings an edge hands on fit its base, and agree with what its arguments denote where they are written exactly where those do not spoil |
| DeclarationPaths.FieldDenotes | internal/analysis/analysis.go:231-234 | A field as flattened denotes what it does in its own record's environment exactly if it does not spoil |
| DeclarationPaths.HandedOnSpoilsNothing | internal/analysis/inheritance.go:129-143 | Where every edge hands the one family parameter on, across families or within, nothing spoils |
| DeclarationFlattening.FlatteningMeansNestedIff | internal/analysis/analysis.go:217-243 | In families the checks accept, a flattened record means under every filling of its scope what nested-environment evaluation gives if and only if nothing spoils |
| DeclarationFlattening.FieldWalk.Walk | internal/analysis/analysis.go:217-236 | The walk ends on cyclic inheritance and adds, in wire order, the fields of each path bound through every edge on it |
| DeclarationFlattening.FlattenedFields | internal/analysis/analysis.go:239-243 | For any families; and in accepted ones the fields returned mean what nested evaluation gives if and only if nothing spoils |
| DeclarationChecks.UsesAreInScope | internal/analysis/parameters.go:50-155 | In accepted families every use found for a type, inherited and applied ones included, is of a parameter in that type's scope: drawn if a family fills it, whole if a type does |
| DeclarationChecks.AcceptedIsChecked | internal/check/check.go:255-520 | What the scope rules accept is all that substitution asks: expressions and edges need only the uses found for their type, and every edge fills all its base uses, each as it is used |
| DeclarationUses.TypeUsesGrow | internal/analysis/parameters.go:50-155 | The equations of parameter use are monotone and bounded by the names declared |
| DeclarationGenerics.LeastIsUnique | internal/analysis/analysis.go:335-361 | There is one least solution at most |
| DeclarationGenerics.Generics | internal/analysis/analysis.go:335-361 | The iteration ends in the least solution of those equations, recursive types and cycles included, which has exactly the uses a finite chain of references leads to |
| DeclarationUseChains.UsesAreLedTo | internal/analysis/parameters.go:50-155 | In the least table a type uses a parameter if and only if some finite chain of references leads to the use, from its own parameters or expressions through what each reference hands on |
| DeclarationCaptures.TypeCapturesGrow | internal/render/declaration.go:483-580 | The capture equations are monotone and capture only names in scope |
| DeclarationCapturedness.CapturesSuffice | internal/render/declaration.go:446-449 | Two ways of filling a type's parameters that agree on what it captures unfold it alike, to every depth |
| DeclarationCaptures.LeastIsUnique | internal/render/declaration.go:446-449 | There is one least solution at most, so the table's order cannot show |
| DeclarationChains.CapturesAreLedTo | internal/render/declaration.go:483-580 | In the least table a type captures a name if and only if some finite chain of references leads from its own expressions to one that writes the name unshadowed, each slot on the way filled by what leads on |
| DeclarationGraph.Graph.ComputeCaptures | internal/render/declaration.go:449-481 | In whatever order the table is walked, the iteration ends in the least solution over exactly the families the root reaches, in which a type captures exactly the names a finite chain of references leads to |
| DeclarationGraph.Graph.Collect | internal/render/declaration.go:455-468 | Visits the families a family reaches by imports and no others, cycles included, listing each type once |
| DeclarationSelection.Select | runtime/go/declaration_identity.go:657-705 | Ends on cyclic definitions; keeps exactly what the root reaches outside nested graphs; fails if and only if that includes an unknown name |
| DeclarationSelection.Selection.Visit | runtime/go/declaration_identity.go:672-700 | What one visit selects is reachable and closed under reference |
| DeclarationSelection.SelectionIsIdempotent | runtime/go/declaration_identity.go:655-705 | Selecting again changes nothing, and a root has one selection |
| DeclarationSelection.SelectionKeepsMeaning | runtime/go/declaration_identity.go:655-705 | Every finite unfolding of the root is the same from the selection as from the source |
| DeclarationDecimals.SpelledAlikeIffEqual | internal/render/declaration.go:702-728 | Two JSON numbers (section 6 of RFC 8259) get one text if and only if they are the same rational |
| DeclarationDecimals.CanonicalIsItsOwnForm | internal/render/declaration.go:699-728 | The text is a JSON number of the same value and its own canonical form |
| DeclarationDecimals.GeneratorAndRuntimeAgree | runtime/go/declaration_identity.go:627-653 | On every JSON number the generator does not panic and the runtime writes the same text |
| WirePaths.EncodePath | duplex/go/wire.go:22-33 | The concatenated pieces of a valid path, or a refusal |
| WirePaths.DecodePath | duplex/go/wire.go:37-66 | Accepts exactly the encodings of valid paths, each as the path it encodes |
| WirePaths.EncodingIsInjective | duplex/go/wire.go:20-33 | No two paths share an encoding |
| WirePaths.EncodingConcatenates | duplex/go/wire.go:20-33 | Encoding turns concatenation of paths into concatenation of texts |
| WirePaths.PrefixIff | duplex/go/wire.go:20-33 | One path is a prefix of another if and only if its encoding is |
| WireTree.SendReachesItsPlace | duplex/go/declared.go:107-122 | In any tree of At, Mount, Declared, Through and Select a send reaches exactly the leaf at the place its path leads to, the keys on the way consumed |
| WireTree.RefusalsHaveTheirCause | duplex/go/wire.go:115-139 | A send is refused as closed only because of what is closed, and otherwise does what it does with nothing closed; of a valid path nothing is refused as a bad one |
| WireTree.SelectionsCompose | duplex/go/wire.go:75-88 | Selecting twice selects the joined path; selecting a mount's key selects its child |
| WireDispatcher.ChoiceIsUnique | runtime/go/dispatcher.go:113-124 | The policy chooses one registration at most, whatever order routes are kept in |
| WireDispatcher.Dispatcher.Match | runtime/go/dispatcher.go:113-124 | Returns the exact route, else the one longest registered prefix |
| WireDispatcher.Dispatcher.Register | runtime/go/dispatcher.go:89-105 | Adds a route under a fresh identity, or refuses in the code's order with nothing changed |
| WireDispatcher.Dispatcher.Detach | runtime/go/dispatcher.go:106-112 | A stale detach removes no later registration |
| WireDispatcher.Dispatcher.Close | runtime/go/dispatcher.go:172-194 | The first closing gives the root attachment back, tells every registration once and closes the endpoint if it is owned; a later one does nothing; no registration is left |
| MountAttachments.StepKeepsInv | duplex/go/wire.go:140-285 | Every critical section and callback keeps each disposer in exactly one place |
| MountAttachments.EveryScheduleKeepsInv | duplex/go/wire.go:140-285 | It holds in every reachable state |
| MountAttachments.EachDisposerIsInvokedOnce | duplex/go/wire.go:140-285 | In every interleaving no disposer is invoked twice or held by an ended attachment, and once that has settled each one obtained has been invoked |
| MountAttachments.ClosedIsToldOnce | duplex/go/wire.go:240-285 | An attachment is told Closed at most once, never after detaching, and exactly if the mount closed or its last child ended |
| MountAttachments.OneActiveAttachment | duplex/go/wire.go:140-160 | One attachment is active at most, none once closed or once all its children have ended |
| MountReceives.ReceiveAsksEachChildOnce | duplex/go/wire.go:140-208 | In every interleaving Receive calls the children in order, each once at most; it returns only once each was called and answered without failing while the attachment was active and the child had not ended; it fails only if the last answer failed or came too late, or the attachment had ended by itself |
| MountReceives.DisposersAreHeldWhileWanted | duplex/go/wire.go:166-192 | Every disposer a child gave is obtained, and while the attachment is active held exactly if the answer was kept and the child has not ended since |
| MountReceives.ActiveUntilEnded | duplex/go/wire.go:210-285 | An attachment is active until it is removed, the mount closes or its last child ends, no longer and no shorter |
| MountReceives.ToldIffEndedByItself | duplex/go/wire.go:240-285 | A listening receiver is told Closed exactly if its attachment ended otherwise than by being removed |
| MountReceives.ReceiveAttaches | duplex/go/wire.go:140-208 | On an open mount without an attachment, children that answer in turn leave it attached to all of them |
| ThroughAttachments.StepKeepsInv | duplex/go/through.go:37-112 | The same for a through endpoint's sections and callbacks |
| ThroughAttachments.EachDisposerIsInvokedOnce | duplex/go/through.go:37-112 | No disposer is invoked twice or retained, each obtained is invoked once its attachment has settled; Closed is told once at most |
| ThroughAttachments.ReceiveHoldsUntilEnded | duplex/go/through.go:37-112 | In every interleaving Receive returns exactly if the origin's did, without failing, while the attachment was current; every disposer given is obtained, and held exactly until release, failure or the ending of the wire; Closed is told exactly if the wire ended on it |
| ThroughAttachments.EndingTellsItsOwn | duplex/go/through.go:90-107 | Ending the wire tells the current receiver unless another attachment's origin ended, and hands its disposer back either way |
| SelectedAttachments.StepKeepsInv | runtime/go/dispatcher.go:226-293 | The same for a selected endpoint |
| SelectedAttachments.EachDisposerIsInvokedOnce | runtime/go/dispatcher.go:226-293 | No route's disposer is invoked twice, each obtained is invoked once its attachment has settled, and a completed Close leaves none |
| SelectedAttachments.ReceiveHoldsUntilRemoved | runtime/go/dispatcher.go:226-293 | In every interleaving Receive returns exactly if its registration did, without failing, while the attachment was current; the disposer is obtained, and held exactly until removal; Closed is told exactly if a closing removed the current attachment |
| LoginProtocol.StepKeepsInv | auth/go/login.go:207-435 | Every read, write and sweep keeps the record linked to its history |
| LoginProtocol.EveryScheduleKeepsInv | auth/go/login.go:207-435 | It stays so in every reachable state |
| LoginLives.OneAnswerPerLife | auth/go/login.go:162-170 | Within a life the version determines the stage, pending to answered to collected, and one answer at most is admitted |
| LoginLives.AnswersAreTimely | auth/go/login.go:162-170 | Nothing is answered once expired, and nothing is handed out that was asked for after the retention read had ended |
| LoginLives.CollectIsOfItsLifeIff | auth/go/login.go:396-432 | An answer handed out is a collected life's; it is that of the life first read if and only if no Begin was answered with a version after the one read, up to the one answered from |
| LoginLives.CollectIsOfItsLifeWhileRetained | auth/go/login.go:396-432 | If every login over the record was asked for before the retention of what was read had ended, the answer handed out is the one read |
| LoginLives.CollectCanStraddleTwoLives | auth/go/login.go:415-427 | A schedule in which a collect returns another login's answer |
| LoginGrants.HandedOnlyIfVerified | auth/go/login.go:396-432 | In every schedule whoever is handed an answer asked for it in a Collect whose proof was verified, against the record it names as read, and has asked for nothing since |
| LoginGrants.WrittenOnlyIfEntitled | auth/go/login.go:207-311 | Every version the store has held was written by the Begin that asked for it, an Answer that was admitted and named the version before it, or a Collect verified against that |
| LoginGrants.RefusalsLeaveNoTrace | auth/go/login.go:256-404 | Leaving every refused Answer and Collect out of a schedule leaves the record, its history, the calls under way and what the others were answered as they were |
| LoginGrants.CollectorsShareTheAnswer | auth/go/login.go:385-432 | While the record is of the login it read, a Collect let through is told to wait if that was pending, and else is handed its answer, at once or on reading again |
| LoginGrants.UncontendedLoginIsHanded | auth/go/login.go:207-432 | A login begun where none is live, answered in time and collected while retained is handed that answer |
| LoginPacing.TooSoonIff | auth/go/login.go:407-410 | SlowDown is answered exactly to a verified Collect of a live record less than five seconds after the poll it carries |
| LoginPacing.PollIsVerified | auth/go/login.go:404-410 | The poll a record carries is one that was verified and let through |
| LoginPacing.PollsAreSpaced | auth/go/login.go:385-410 | Where calls do not overlap, a verified Collect of a live record is answered SlowDown exactly if less than five seconds have passed since the last one of the login that was let through |
| LoginPacing.PollCanBeForgotten | auth/go/login.go:276-310 | A schedule in which an Answer overlapping a poll forgets it, so that the next is let through in the same second |
| Audience.CheckPort | auth/go/audience.go:148-163 | Accepts 1 to 65535 without a leading zero |
| Audience.CheckSegment | auth/go/audience.go:165-189 | Accepts exactly nonempty pchar runs (section 3.3 of RFC 3986) other than the dot segments |
| Audience.ParseAuthority | auth/go/audience.go:94-144 | Yields the folded host and the port, and refuses exactly what names none |
| Audience.Derive | auth/go/audience.go:34-77 | Yields the audience the URL denotes and refuses exactly the URLs that denote none |
| Audience.AudienceIsFixed | auth/go/audience.go:20-34 | An audience denotes itself, and a URL denotes one audience at most |
| AudienceGrammar.ImpliedPortIsDropped | auth/go/audience.go:79-90 | Plain schemes imply port 80 and secure ones 443, sockets as much as not; that port is left out of an audience and the other kept |
| Audience.ConnectionBinding | auth/go/audience.go:193-212 | Binds exactly the audiences some URL denotes, to the role, the length in two bytes with the higher first, and the audience |
| Audience.BindsIsOneToOne | auth/go/audience.go:193-212 | No two audiences are bound alike, and none in two ways |

## Left out

- Patterns: Go's `regexp` as the fast path, the pattern text translated for it, and the parser's recursion over atoms, classes and escapes; the matcher is proved for every tree the constructors build.
- PatternMatch.MatchState.Ends: memo keys compare nodes by value rather than by address, so two equal subtrees share entries; the input is a sequence of code points.
- RecordProtocol: classes and locks are modelled as a state machine over values, which does not capture aliasing. The recorder may run ahead of a stopped follower's pending unregistration, and a refused Send to a target counts as sent. Storage may have kept an entry whose Append failed.
- WireLog.MemoryWireLog.Append: opaque messages are integers; copying of paths and storage stamps is not modelled.
- LiveScope: the owner tree is a sequence of numbered states instead of linked objects. In-flight invocations, their cancellation, and the encoding of references are not modelled. The other side is trusted not to name an id of this scope's nonce that has not been issued.
- LiveBuilds.BuildValue: the payload is not modelled, and a build that panics is one that fails. The calls in between are those listed in `Call`, each with any arguments; a discard by others lists only what is current, the rest of a list not being looked at.
- DeclarationSubstitution.BindingDenotes: asks that plain imports infer the same in both scopes, without which it fails; that drawn members of a supplied family are not generic, and that parameter names differ from type names. internal/check enforces the last two. An application without an argument map is taken to have an empty one.
- DeclarationChecks.AcceptedIsChecked: which tier a declaration or parameter is of, which kinds of type may be drawn, cyclic types, colliding fields, unused parameters and the union rules are not among the rules assumed; built-in members every family carries are taken not to be generic.
- DeclarationFlattening.FieldWalk.Walk: field attributes other than name and type are dropped; types are compared by family and name rather than by address.
- DeclarationGenerics.Generics: uses are compared as sets, the order they are listed in being fixed by declaration order; the key of an entity is looked for among its own fields, and a key, inherited or not, is a primitive where the checks accept it, which uses nothing; the family-wide list derived from the table is not computed.
- DeclarationGraph: only captures; rendering nodes, naming and documents are not modelled. Argument graphs and digests are not compared.
- DeclarationDecimals.GeneratorAndRuntimeAgree: text that is not a JSON number is only covered as far as a failed parse goes.
- WirePaths.DecodePath: a text is at most as long as a Go string can be.
- WireTree: messages, results of asynchronous dispatch, the composing and decomposing of declared nodes, and the zero declared value.
- WireDispatcher: capturing invocations and answering unknown methods; receivers are numbers, and the root attachment and endpoint are whether they are held and owned.
- MountAttachments, ThroughAttachments, SelectedAttachments: objects under a lock are modelled as state machines over values; what a child does in between is left open. A child may be said to have ended before it was asked.
- LoginProtocol: one id, since records of different ids share only the count that bounds them, which is left out. Grant and proof checks, terms and their rendering are answers or numbers. Times do not wrap around at 64 bits. An id is not begun again after a sweep.
- Audience.ConnectionBinding: the signature over the binding.
- Ed25519, Archon possession, grants, OpenTelemetry, sockets, processes, JSON bytes and hashing.
- Liveness analysis of declarations, diagnostics, code emission and the TypeScript runtime.
