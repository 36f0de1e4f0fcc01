# Ticket claims and their neighbours: a Dafny model

The largest part of this project models the ticket-claim mutex of `scripts/claim.py`. Processes share nothing but
the comment log of a ticket. Each command reads a snapshot, decides, and appends a CLAIM, heartbeat or RELEASE
comment, with nothing atomic in between. Who holds the ticket is never stored: `holders()` and `windows()` recompute
it from the log. The model follows the script from the text of a comment to whole runs of the system:

- `Text`, `Markers`: comments as strings, the two regular expressions, what the commands print and how it reads back.
- `Log`: the chronological log, freshness, and the newest-first scan `idle_min`.
- `Holders`, `HolderLaws`: the holder replay as a left fold and as the script's backward loop; what every replay
  guarantees.
- `HolderOrder`: in which order the holder list names its holders.
- `Windows`, `WindowLoop`: the window replay as a left fold and as the loop that updates aliased records in place.
- `Stories`: what each window says about the comments of the log.
- `Agreement`: exactly when the two replays agree, on one lane and across lanes, and how they part.
- `Cuts`, `Vouching`: what both replays make of a log of which only the newest comments are visible, and when the
  window report then still vouches only for what the whole log vouches for.
- `Commands`, `Protocol`: the guards of `main()`, a ticket object with the three commands, and all interleavings of
  commands that decide on snapshots of any age.
- `Guarded`: what the guards add: commands that take turns keep holders and windows together.
- `Inputs`: concrete logs on which the script does not do what its own text promises.

Six smaller modules each model one self-contained piece of the TypeScript side: `Policy`, `Aliases`, `Provision`,
`Escaping`, `Bodies`, `Shutdown`.

`dafny verify dfyconfig.toml` checks everything.

## Conventions

- Times are integers, microseconds since the epoch. Sixty minutes is `STALE`. The script divides a float by 60 and
  compares with 60; on microsecond inputs that comparison is exact. `_stale_end` cuts its result to whole
  milliseconds, and so does `StaleEnd`.
- An infinite idle time, and the `StopIteration` of `next()`, are `None`.
- A log is oldest first; the lists that Linear returns are newest first. `Chronological` turns one into the other.
- `LaneArg`, `RunArg`, `StateArg` describe arguments that print to a readable marker: a lane is non-empty, free of
  white space and of the text `run=`; a run is a non-empty token; a state is one the script accepts.
- `NoLegacyRuns` says that no marker carries a run that starts with `legacy:`. `_id_key` uses plain strings, so such a
  run can be taken for the key of a run-less claim. `Named` says that no run-less marker lacks `lane=`.
- Where the script's own text promises more than its code does, the model follows the code, states when the promise
  holds, and gives a concrete log on which it does not (module `Inputs`).
  - The docstring of `windows` says it applies the same rule as `holder()`. `AgreementExactly` says for which logs the
    two replays agree; `LoserHasWindow` and `ZombieWindow` are logs on which they do not. The second also breaks what
    the docstring of `_stale_end` says about late beats; `TakeoverEndsWindow` says when that docstring is right.
  - The same docstring says that cutting the log to sixty comments fails closed. `FailsClosedExactly` says when that is
    so: the cut hides no open window with a run. `CutCreatesWindow` is a cut to sixty comments that fails open.
    `SafeCut` and `SafeWindowCut` say when a cut changes nothing; `SixtyCommentsHideTheHolder` is one that hides a holder.
  - The module docstring says that release refuses to dissolve a claim whose run the caller does not hold. A release
    without a run can wipe the run-scoped half of a mixed co-hold (`ReleaseVictims`, `RunlessReleaseWipes`), and a
    release whose run is no holder in its snapshot is posted without a run (`ReleaseScope`, `LateReleaseWipes`).
  - A release that moves the state can leave a live holder, because its own text refreshes one (`FreeAfterRelease`,
    `ReleaseRevivesHolder`).

## Model

| member | source | states |
|---|---|---|
| Text.SpacesAre | scripts/claim.py:162-163 | the code points that end a token |
| Text.TokenAfter | scripts/claim.py:162-163 | the search returns the group of the leftmost match, maximal, and fails only if no match exists |
| Markers.ClaimRoundTrip | scripts/claim.py:545-548 | a printed claim parses to exactly its kind, lane and run whatever the note says, and refreshes that identity |
| Markers.BeatRoundTrip | scripts/claim.py:587-591 | the same for a heartbeat, with or without run |
| Markers.ReleaseRoundTrip | scripts/claim.py:619-621 | the same for a release, for every accepted state name; it never reads as a claim |
| Markers.MarkerMeans | scripts/claim.py:154-163 | a comment is a marker exactly when its first line carries a sign, a claim whenever that is the claim sign; lane and run are the first tokens after their keys |
| Markers.LinesPrinted | scripts/claim.py:545-619 | the first line of each of the three comments, character for character |
| Markers.NotesReadBack | scripts/claim.py:545-621 | the caller's text comes back from below the first line; a missing one is the default |
| Markers.StatesAreCanonical | scripts/claim.py:62-128 | an accepted state name lands on a board state: its own, or the one its alias stands for |
| Markers.MarkerHitsItself | scripts/claim.py:151-174 | every comment that parses as a marker with a run or an explicit lane refreshes the identity it parses to |
| Markers.NotesCarryNoRun | scripts/claim.py:154-173 | nothing below the first line can make or change a marker or refresh a run |
| Markers.RefreshesExactly | scripts/claim.py:172-173 | a printed marker refreshes exactly the runs that begin its own or that its own quotes after `run=`; among runs of one length, its own alone |
| Log.IdleMin | scripts/claim.py:177-184 | the newest-first scan from `start` gives the time since the last hit in the older comments, infinite if none |
| Log.IdleIsShortest | scripts/claim.py:177-184 | on sorted logs the idle time is the shortest time since a comment of the identity, infinite exactly when there is none |
| Log.FreshExactly | scripts/claim.py:249-250 | fresh means: some comment of the identity within the stale limit |
| Holders.LiveAt | scripts/claim.py:249-250 | the dictionary comprehension keeps exactly the holders fresh among older comments |
| Holders.ReplayOne | scripts/claim.py:227-259 | one iteration, the live dictionary computed by the newest-first scan, equals one fold step |
| Holders.ReplayLoop | scripts/claim.py:224-259 | the backward loop over the newest-first list equals the left fold over the chronological log, dictionary order included |
| Holders.CurrentHolders | scripts/claim.py:214-266 | the result lists every holder of the log once, with its idle time now, by date, equal dates in dictionary order |
| Holders.HolderListUnique | scripts/claim.py:260-266 | log and moment determine that list |
| Holders.OrderLists | scripts/claim.py:225-258 | the dictionary order lists exactly the holders, each once, on every log |
| HolderOrder.ListOrderExactly | scripts/claim.py:253-265 | of two holders the list names first the one of earlier date and, at equal dates, the one whose comment of entry, the last before which it was no holder, is older |
| HolderOrder.FirstLiveIsEarliest | scripts/claim.py:475-476 | the first live entry of the list is the live holder of earliest date, ties by entry |
| Holders.ReplayKeyed | scripts/claim.py:196-198 | for every log each dictionary key is the identity of its entry |
| HolderLaws.ExclusiveStep | scripts/claim.py:239-259 | from an exclusive state a comment keeps exclusion if and only if it is not an upgrade through a colliding key that changes a lane of a co-hold |
| HolderLaws.MutualExclusion | scripts/claim.py:189-259 | every log without `legacy:` runs has at most one holder, or exactly reviewer-A and reviewer-B |
| HolderLaws.LegacyRunBreaksExclusion | scripts/claim.py:196-247 | a concrete log with a `legacy:` run that ends with two holders on one letter |
| HolderLaws.AtMostTwo | scripts/claim.py:201-259 | no log at all yields more than two holders |
| HolderLaws.HeartbeatKeepsClaim | scripts/claim.py:226-259 | a holder survives any continuation without its own or a run-less release in which it is fresh before each foreign claim |
| HolderLaws.HoldLostExactly | scripts/claim.py:233-259 | the exact ways one comment can take a held run away |
| HolderLaws.HoldsOnlyByClaiming | scripts/claim.py:226-259 | an identity that holds nothing holds nothing later unless it posts a further claim |
| HolderLaws.HoldersAreDated | scripts/claim.py:240-257 | the date of a holder is that of its newest claim or heartbeat |
| HolderLaws.EarliestClaimWins | scripts/claim.py:239-259 | after a state with no live holder a burst of claims by runs, heartbeats and prose in between, leaves exactly the first claimant, plus the first other run on the other letter, each dated by its newest claim |
| Cuts.SafeCut | scripts/claim.py:131-137 | for every number of visible comments: all continuations of that length replay alike from the visible part if and only if nobody held the ticket at the cut; live holders then agree too |
| Cuts.CutHidesHolder | scripts/claim.py:131-137 | if somebody held it at the cut, a time-ordered suffix of any length shows nobody |
| Cuts.SafeWindowCut | scripts/claim.py:320-358 | the scan of the visible part is the rest of the whole scan if and only if no window was open at the cut |
| Cuts.SafeCutOutput | scripts/claim.py:361-364 | the output then only loses windows that had ended before the cut |
| Cuts.CutBeforeClaim | scripts/claim.py:320-358 | cut just before a claim, any number of comments later, the visible part gives it a window, which the whole log gives it exactly when its lane is free or stale |
| Vouching.FailsClosedExactly | scripts/claim.py:320-364 | the report on the newest n comments vouches, for every lane, run and moment, only for what the report on the whole log does, whatever those comments are, if and only if the cut hides no open window with a run (one comment: none that is fresh; no comment: always) |
| Vouching.CutCovered | scripts/claim.py:326-358 | if the open windows at the cut are run-less, every window of the visible part is one of the whole scan with the same lane, run and end, started no later |
| Vouching.HiddenFailsOpen | scripts/claim.py:320-358 | otherwise some visible part of that length vouches for a run that the whole log refuses |
| Windows.OpenInvariant | scripts/claim.py:326-348 | throughout the scan the windows without end are exactly the values of `open_by`, one per lane; open runs have posted |
| Windows.StepPerWindow | scripts/claim.py:327-358 | per window: closed ones stand still, an open one is closed, upgraded, ended or left by its own rule, and which claims add a window |
| Windows.ClosedWindowIsFinal | scripts/claim.py:333-358 | a window closed by release or takeover reads the same in the output for every longer log and later moment |
| Windows.OpenMeansNeverEnded | scripts/claim.py:333-358 | an open window is still open at the end if and only if no later comment was a release of it or a claim by another identity after its run went stale |
| Windows.NullEndExactly | scripts/claim.py:361-364 | a null end means exactly: never released, never taken over, last hit within the limit of now |
| Windows.RaisesExactly | scripts/claim.py:281-287 | `windows` fails if and only if an anonymous run-less window is still open and no comment carries `lane=unknown` |
| Windows.StaleEndIsLastWord | scripts/claim.py:281-287 | a stale end is the whole millisecond up to which some comment of the identity vouches and beyond which none does |
| Stories.OutputExactly | scripts/claim.py:361-364 | window by window: closed ones are shown as they are; one left open has no end while its identity was heard within the limit of now, and otherwise ends with its last word, the whole millisecond up to which some comment of it vouches and beyond which none does |
| Stories.WindowsHaveStories | scripts/claim.py:326-358 | every window started at a claim of its lane, and if closed ended at a release of it, on that comment's date, or at a claim by another identity after its run fell silent, with its last word |
| Windows.TakeoverFindsHit | scripts/claim.py:353-355 | at a takeover `_stale_end` always finds a comment, on every log |
| Windows.ScanOrdered | scripts/claim.py:326-358 | on sorted logs the windows of one lane follow one another, each end at or after its start, stale takeovers included |
| Windows.WindowsOrdered | scripts/claim.py:325-365 | the same of the final output, which exists whenever markers are named |
| WindowLoop.CloseAllRecords | scripts/claim.py:334-337 | the loop over `open_by.values()` closes exactly the open records of the list |
| WindowLoop.CloseOwnRecord | scripts/claim.py:338-342 | a release with a run closes through the alias only its own lane's record |
| WindowLoop.StaleEndOf | scripts/claim.py:281-287 | last hit plus the limit in whole milliseconds, or failure when there is none |
| WindowLoop.TakeOver | scripts/claim.py:353-358 | the stale record is ended in place and a new one opened and aliased |
| WindowLoop.ClaimRecord | scripts/claim.py:344-359 | the claim branch on records matches the fold step |
| WindowLoop.ScanOne | scripts/claim.py:327-359 | one iteration on records equals one fold step and does not raise |
| WindowLoop.ScanLoop | scripts/claim.py:325-359 | the loop over records and aliases equals the left fold; it never raises |
| WindowLoop.CurrentWindows | scripts/claim.py:290-365 | the records returned are the settled windows of the log; it raises exactly when the model says |
| Agreement.AgreementStep | scripts/claim.py:226-358 | from a state in which each holder owns the open window of its lane and each open window is a holder's, one comment keeps that if and only if a condition on the holders before it holds |
| Agreement.ClaimAgreement | scripts/claim.py:239-358 | the same for a claim, all five cases: own identity, upgrade, nobody live, co-hold join, loser |
| Agreement.ReleaseAgreement | scripts/claim.py:233-342 | the same for a release: it keeps agreement unless its run holds under another lane |
| Agreement.AgreementExactly | scripts/claim.py:226-358 | the replays agree after every comment of a log if and only if every comment meets its condition |
| Agreement.RunlessReleaseReunites | scripts/claim.py:234-337 | illustrates AgreementExactly: a run-less release makes the replays agree again |
| Agreement.ReplaysAgree | scripts/claim.py:226-359 | on a log of one lane they always agree and at most one identity holds |
| Agreement.NullEndIsLiveHolder | scripts/claim.py:262-364 | where they agree, a null end is exactly the open window of a holder that is live now, and every live holder has one |
| Agreement.LoserStillOpensWindow | scripts/claim.py:345-358 | illustrates AgreementExactly: a losing claim changes no holder, and exactly when it still opens a window |
| Agreement.SecondWindow | scripts/claim.py:240-348 | illustrates AgreementExactly: a holder's run that claims under a free lane gains a second window |
| Agreement.ReleaseUnderOtherLane | scripts/claim.py:237-342 | a release naming the run under another lane dissolves the holder and leaves its window open |
| Agreement.TakeoverEndsWindow | scripts/claim.py:251-358 | at a takeover the lost holder's window gets its end, where it stopped vouching, if and only if its lane is the taker's; otherwise it stays open as it was |
| Agreement.ZombieStretchesWindow | scripts/claim.py:281-364 | a late heartbeat of the dropped run moves no holder and stretches its window a full stale period past itself |
| Commands.ClaimGuardAgrees | scripts/claim.py:520-529 | the claim command is let through if and only if replaying its comment at that instant makes the caller a holder |
| Commands.AcceptedClaimHolds | scripts/claim.py:201-259 | an accepted claim that lands later still makes the caller a holder, if only prose and heartbeats that refresh holders live at the snapshot came between |
| Commands.BeatGuard | scripts/claim.py:564-586 | a heartbeat is let through if and only if the caller's identity is a current holder |
| Commands.BeatRefreshes | scripts/claim.py:587-591 | an accepted heartbeat changes no holder and keeps its own live for a full stale period |
| Commands.ReleaseScope | scripts/claim.py:594-621 | on any log it lands on, a release whose run its snapshot shows as holder removes that run only; every other accepted one clears the ticket |
| Commands.ReleaseVictims | scripts/claim.py:599-621 | on a current snapshot a live foreign run is dissolved if and only if the release was given no run; never while all live holders are run-scoped |
| Protocol.ReleaseGuard | scripts/claim.py:475-612 | a release is let through if and only if nobody is live, or its run is a holder's, or it has no run and the live holder of earliest date, ties by entry, has none either |
| Commands.MovesOnlyWhenLast | scripts/claim.py:622-636 | the state moves if and only if no holder the release leaves in place was live before it |
| Commands.FreeAfterRelease | scripts/claim.py:172-174 | on the log the release creates nobody is live if and only if the state moved and the release's text refreshes no holder left in place |
| Protocol.Ticket.Claim | scripts/claim.py:520-562 | keeps every run of the system one; let through exactly when it would hold the ticket on what it saw; then it holds it if only harmless comments came since; refused on a current view, it does not |
| Protocol.Ticket.Beat | scripts/claim.py:564-592 | keeps every run of the system one; let through exactly when the caller holds the ticket it saw; on a current view it changes no holder and keeps the caller live for a stale period |
| Protocol.Ticket.Release | scripts/claim.py:594-636 | keeps every run of the system one; when it is let through; on whatever log it lands it removes the caller's run alone, or everybody if its view does not show that run; when the state moves |
| Protocol.Serve | scripts/claim.py:466-636 | any schedule of usable commands on views of any age, driven through a ticket, leaves it safe: one holder or both letters, an ordered window report |
| Protocol.ReachableStatesAreSafe | scripts/claim.py:466-636 | in every state of every interleaving on stale snapshots: mutual exclusion, and a window report without overlaps in a lane |
| Protocol.HolderKeepsTicket | scripts/claim.py:214-266 | against commands on snapshots of any age a holder that posts in time keeps the ticket, if releases name their own held runs |
| Guarded.BehaviourExactly | scripts/claim.py:466-636 | the runs of the system are exactly the time-ordered logs with readable markers, so the safety of reachable states does not rest on the guards |
| Guarded.GuardedStep | scripts/claim.py:520-621 | a command let through on the current log keeps holders and windows together if and only if it does not act for a run under another lane or take over from one; its claim never loses |
| Guarded.TurnsAgree | scripts/claim.py:520-621 | while commands take turns without straying, holders and open windows are the same claims, across lanes |
| Inputs.BareClaimRaises | scripts/claim.py:281-287 | a log of one bare CLAIM on which `windows` raises |
| Inputs.LoserHasWindow | scripts/claim.py:226-358 | two printed claims at one time: the second run is no holder and has an open window |
| Inputs.ZombieWindow | scripts/claim.py:281-358 | a log on which a beat after the takeover stretches the dead window |
| Inputs.SixtyCommentsHideTheHolder | scripts/claim.py:136-136 | a live holder, sixty comments later, is invisible and another claim is let through |
| Inputs.CutCreatesWindow | scripts/claim.py:136-136 | the newest sixty of sixty-one comments give a race loser a window and vouch for it |
| Inputs.ForeignRunKeepsAlive | scripts/claim.py:172-173 | run `a`, silent for a hundred minutes, is live because the refused run `ab` posted |
| Inputs.LateReleaseWipes | scripts/claim.py:594-621 | a release decided on an empty ticket wipes the live claim that came in between |
| Inputs.RunlessReleaseWipes | scripts/claim.py:599-621 | a run-less release wipes the live run of a mixed co-hold |
| Inputs.ReleaseRevivesHolder | scripts/claim.py:172-636 | the state moves although the release's note makes a stale run-less holder live |
| Policy.MergeBatch | apps/generic-node/src/admin-router.ts:6901-6912 | fails if and only if the document is invalid or unreadable or a rule before the last does not parse; else stores exactly the old rules, live or parked, whose ids the batch does not use and the batch's last rule of each id, with the enabled flag preserved |
| Policy.StoredOrder | apps/generic-node/src/admin-router.ts:1444-1455 | old rules keep their order and come first, the batch's rules follow in theirs |
| Policy.ReadBack | apps/generic-node/src/admin-router.ts:1096-1101 | the stored text reads back as the same rules and flag, or as invalid when the last rule does not parse |
| Policy.MergeTwiceIsOnce | apps/generic-node/src/admin-router.ts:7812-7824 | merging a batch twice stores what merging it once stores |
| Policy.NormalFormStep | apps/generic-node/src/admin-router.ts:1421-1455 | filtering out one id and appending the rule keeps the normal form: untouched old rules, then last occurrences |
| Policy.OthersSurvive | apps/generic-node/src/admin-router.ts:935-949 | a batch stamped for one implementer leaves the others exactly the rules whose ids it does not use; all of them if and only if no id is shared |
| Policy.SharedIdOverwrites | apps/generic-node/src/admin-router.ts:1449-1450 | a rule of another implementer with the same id is dropped |
| Aliases.FirstIsLongest | vitest.aliases.ts:34-48 | with distinct entries, first match is longest match for every import if and only if no entry is a prefix of a later one |
| Aliases.SortFacts | vitest.aliases.ts:64 | the sort is a permutation into descending length |
| Aliases.PackageResolvesLongest | vitest.aliases.ts:49-65 | the list built from a manifest resolves every import to its longest matching entry |
| Aliases.ExportResolves | vitest.aliases.ts:53-65 | importing the package, or its name and `/` and the path of an export below `./`, resolves to an entry of exactly that text with that export's target |
| Aliases.WorkspaceResolvesLongest | packages/consumer-example/vitest.config.ts:17-21 | so does the concatenation for several packages, no name being a prefix of another |
| Aliases.WorkspaceExportResolves | packages/consumer-example/vitest.config.ts:17-21 | so does every such import of any package of a workspace |
| Provision.WithPsqlRetries | vitest.global-setup.ts:99-124 | runs up to the first non-transient answer, at most five times, sleeping 250 * (2^(n-1) - 1) ms in all |
| Provision.FindReachableTarget | vitest.global-setup.ts:171-179 | first reachable target, else the last contended one, else absent |
| Provision.Classify | vitest.global-setup.ts:47-82 | an error is absence exactly when it shows an unreachable server and neither contention nor a cut connection; transient exactly when it shows one of these |
| Provision.SaysExactly | vitest.global-setup.ts:55-72 | an error says a phrase exactly when some spelling of it, in any case of its ASCII letters, stands in its text |
| Provision.CaseDoesNotMatter | vitest.global-setup.ts:55-72 | errors that differ only in case get the same class and the same already-there verdict |
| Provision.RefusedIsAbsent | vitest.global-setup.ts:65-78 | any spelling of a refused connection, without contention or a cut connection, is absence |
| Provision.DuplicateIsThere | vitest.global-setup.ts:230-240 | the duplicate-key wording on one line counts as already there |
| Provision.LastAnswerExactly | vitest.global-setup.ts:99-124 | the answer that decides is the first that cannot be retried, or the fifth |
| Provision.ProvisionTestDatabase | vitest.global-setup.ts:181-251 | skips silently if and only if nothing is pinned, every server looks missing and Postgres is not required; provisions the first reachable server if and only if some CREATE call succeeds or finds its database there after calls that could be retried, and names that call |
| Escaping.EscapeIsSimultaneous | apps/generic-node/src/pay-page.ts:42-49 | the five passes equal one substitution per character |
| Escaping.OrderMatters | apps/generic-node/src/pay-page.ts:42-49 | any order of the five passes is right on every string if and only if `&` is first |
| Escaping.UnescapeEscape | apps/generic-node/src/pay-page.ts:42-49 | reading the entities back recovers every input |
| Escaping.EscapedIsInert | apps/generic-node/src/pay-page.ts:42-49 | no raw angle bracket or quote is left |
| Escaping.SafeJsonIsSimultaneous | apps/generic-node/src/pay-page.ts:51-56 | the three passes equal one substitution and leave no `<`, `>` or `&` |
| Escaping.SafeJsonReadsTheSame | apps/generic-node/src/pay-page.ts:51-56 | a JSON parser reads the same strings and structure from the replaced text if and only if the three characters occur in strings only |
| Escaping.StringIsSafe | apps/generic-node/src/pay-page.ts:51-56 | each string literal decodes to the same UTF-16 code units after the replacements |
| Bodies.ReadBoundedBody | apps/generic-node/src/runtime-listener.ts:441-457 | the exact body within the cap, else a prefix over the cap by at most the crossing chunk |
| Bodies.CaptureBody | apps/generic-node/src/http-adapter.ts:121-141 | refuses exactly the bodies over the cap, returns the others unchanged, keeps at most the cap |
| Bodies.ReadersAgree | apps/generic-node/src/runtime-listener.ts:437-457 | for any two ways to cut a body the readers agree on the verdict and, within the cap, on the bytes |
| Shutdown.GracefulStop.HandleSignal | apps/generic-node/src/stage1-shutdown.ts:77-101 | no signal exits; after it the deadline runs exactly while the race over the whole history is undecided |
| Shutdown.GracefulStop.Happen | apps/generic-node/src/stage1-shutdown.ts:77-111 | after any event the recorded exits are the verdict of the whole history, once, or none |
| Shutdown.Race | apps/generic-node/src/stage1-shutdown.ts:75-112 | the closure driven through any schedule exits with the verdict of the schedule, once, or not at all |
| Shutdown.SingleExit | apps/generic-node/src/stage1-shutdown.ts:75-112 | for every schedule: at most one exit, present exactly when a deadline or settlement followed the first signal, with code 0 exactly when fulfilment came first |

## Left out

- MutualExclusion: is stated for logs without `legacy:` runs, because it is false with them; ExclusiveStep gives the exact condition and LegacyRunBreaksExclusion an input.
- ExportResolves: the target of an export is given; its choice among import conditions and the rewriting of `dist/` to `src/` and `.js` to `.ts` are not modelled.
- FirstIsLongest: entries match by plain prefix, as the file documents; the bundler's own rule about path boundaries is not modelled.
- MergeBatch: is stated for a non-empty batch, which both routes guarantee; whether one rule's fields parse is a given flag of the rule.
- ProvisionTestDatabase: the answers of psql are inputs; the list of targets, the URL with its credentials, the message texts and the teardown are not modelled.
- SafeJsonReadsTheSame: starts from the text that JSON.stringify returned; a text is read as strings and the characters between them, not as a value tree.
- SingleExit: `stop()` throwing before it returns a promise, and a logger or `exit` that throws, are not modelled.
- The network client, ticket lookup and workflow-state lookup of `scripts/claim.py`: an append to the log and an assignment of the state name.
- `check`, `holder`, `selftest`, `split_run`, `parse_identifier` and all message texts: printing and finite checks.
- Fetching only the newest 60 comments is not built into the loops; SafeCut, SafeWindowCut and FailsClosedExactly say what such a cut does.
- EarliestClaimWins: is stated for bursts within the stale limit of their first claim; longer ones are HeartbeatKeepsClaim.
- FailsClosedExactly: is stated for logs in time order without `legacy:` runs and a visible part whose markers are named; a window vouches for the exact run and up to its end; the abbreviated runs and the grace minutes of `scripts/release-targets-verdict-evidence.mjs` are not modelled.
- AgreementExactly: is stated for logs without `legacy:` runs, on which mutual exclusion holds.
- The rest of `admin-router.ts`, the mutation executor, `main.ts`, cryptography and the user interface: not part of this model.
