# Clustarr, modelled and proved

A Dafny model of five parts of Clustarr, a media-library operator, and proofs of what they promise.

- **Audio alignment** (`Complex`, `Dft`, `Eval`, `Inverse`, `Fft`, `Correlate`, `Windows`, `Runs`, `Drift`, `Boundary`,
  `Segments`, `Graft`, `Align`): the in-place radix-2 transform is the discrete Fourier transform; the correlator built
  on it is the sliding dot product; windows become runs, runs become segments, and segments say which donor frame plays at which target time.
  The arithmetic is over exact reals. The twiddle table is any table that starts at 1, has a unit second entry and obeys
  the power law with the sign change past its end.
- **The dispatch ledger** (`Slots`, `Lanes`, `Wakes`, `Ledger`, `LedgerRuns`, `LedgerBudget`, `LedgerAudit`): `Lanes` says what
  each operation makes of one durable's book, waiting marks and claims; the class `Ledger` does it in place and is
  verified against that; the runs are over any steps on a clock that never goes back.
- **Bookkeeping** (`Delivery`, `Attendance`, `ArtCache`): the delivery book, the detection of durables nobody attends,
  and the byte-bounded cache of artwork, each against what it means over a whole history.
- **The candidate inbox** (`Inbox`, `InboxProtocol`): the inbox as a class, and handlers and passes interleaved on it with
  a channel per parked entry.
- **The remediation loop** (`IoExecutor`, `IoProtocol`, `Effects`, `PlannerPass`, `ItemSets`, `ItemPass`): the I/O pool and its breaker,
  a file's pass of isolated planners, and an item's pass of merged stages and chained applies.

Clocks, reads and answers from outside (status reads, applies, presence, what a planner or stage decides) are parameters,
so every theorem is over all of them. Each operation under a lock is one step; the audit is two. `Options`, `Seqs` and
`Clock` hold what the parts share.

## Where the code and its comments differ

The model follows the code. For each of these the exact condition under which the comment holds is proved, a run that
breaks it is given, or both.

- `Answered` looks at the head only: a slot at or below the seq under a newer reservation survives it
  (`LedgerRuns.AnsweredClears`, `LedgerAudit.AnsweredComesBack`).
- `Published` under a newer reservation is dropped (`LedgerRuns.PublishRecorded`, `LedgerAudit.PublishLost`).
- A failed read keeps the last verdict except that an absence already seen goes on ageing (`Attendances.FailedReadsKeep`,
  `Attendances.FailedReadsKeepHistory`, `Attendances.FailedReadCrosses`).
- `boundary` can return `hi`, outside its `[lo, hi)` (`Boundaries.BoundaryBelowHi`, `Segments.BoundaryAtHi`).
- A cut where the lag falls by more than the gap leaves the gap; when that loses a run, the runs either side of it can
  cross on the target, though never on the donor (`Segments.CutKeepsGap`, `Segments.LostExactly`, `Segments.PlacedExactly`,
  `Grafts.NoRoomRefused`).
- Accepted segments can be played back on the donor: only their starts are compared, and a segment may lie inside an
  earlier one (`Grafts.PlaysForwardExactly`, `Grafts.PlacedRead`, `Grafts.AcceptedGoesBack`).
- More than one trial call can be in flight through a half-open breaker (`IoProtocol.AtMostOneThroughRun`,
  `IoProtocol.OneTrialThroughRun`, `IoProtocol.TwoTrials`).
- A settled candidate is not always acked (`InboxProtocol.SettledNakedExactly`, `InboxProtocol.SettledYetNaked`).

The delivery book's state does not depend on the order of its advisories; the attempts beside it, of which the code
promises nothing, do, and `Deliveries.AttemptsOrderFree` says exactly when.

## Model

| member | source | states |
|---|---|---|
| Ffts.RevInvolution | pkg/audioalign/fft.go:33-39 | reversing the low m bits of an index twice gives the index back, for every index of a power-of-two array |
| Ffts.ReverseShifted | pkg/audioalign/fft.go:33-35 | the 64-bit reversal shifted right is the m-bit reversal of the index |
| Ffts.BitReverse | pkg/audioalign/fft.go:33-39 | the swap-when-j>i pass in place leaves exactly the bit-reversed permutation of the array |
| Ffts.Butterflies | pkg/audioalign/fft.go:42-52 | one stage in place: every block is replaced by the butterfly of its halves under the stage's root, forward or conjugated |
| Dfts.Radix2 | pkg/audioalign/fft.go:43-51 | entries k and k+n/2 of a transform are the sum and difference of the half-size transforms of the even and odd entries, the odd one turned |
| Ffts.StageStep | pkg/audioalign/fft.go:41-53 | a stage over blocks holding half-size transforms leaves blocks holding transforms of twice the size, at every depth |
| Ffts.Fft | pkg/audioalign/fft.go:28-54 | for every power-of-two length up to 2^64 and every input the array ends as its discrete Fourier transform (the conjugate root's for the inverse), exactly |
| Dfts.SumIsDft | pkg/audioalign/fft.go:26-27 | the transform is entry by entry the sum over j of x[j] w^(jk) |
| Ffts.TableRootIsRoot | pkg/audioalign/fft.go:58-69 | a table with the power law holds the powers of a root whose half turn is -1 |
| Inverses.RoundTrip | pkg/audioalign/fft.go:26-27 | the forward transform followed by the unscaled inverse is the length times the original, for every power of two |
| Ffts.NextPow2 | pkg/audioalign/fft.go:71-77 | the doubling loop returns a power of two |
| Ffts.CeilLog2Least | pkg/audioalign/fft.go:71-77 | that power is the least one not below n |
| Correlators.EvalCorr | pkg/audioalign/align.go:125-131 | the correlation theorem: conj(D) times T is the transform of the circular correlation |
| Correlators.CorrIsDot | pkg/audioalign/align.go:120-131 | wherever the window fits, the circular correlation is the linear one: no wraparound |
| Correlators.NewTarget | pkg/audioalign/align.go:97-110 | every band is padded to a power of two at least the target plus one window, and transformed |
| Correlators.Correlate | pkg/audioalign/align.go:112-142 | the scores are, at every valid position, the mean over bands and window frames of donor times target; none when the target is shorter than a window |
| Windows.ReadWindow | pkg/audioalign/align.go:172-197 | the peak is the first highest score, the ratio how far it stands above the best score outside the guard, and the window is confident exactly when it is high enough and half again above every such score |
| Windows.WindowsOf | pkg/audioalign/align.go:144-170 | the windows are scored at every stride and their starts strictly increase |
| Runs.GroupPartitions | pkg/audioalign/align.go:320-334 | grouping keeps every confident window in order and cuts exactly where the lag jumps |
| Runs.MergeKeepsWindows | pkg/audioalign/align.go:335-346 | merging drops only runs of one window |
| Runs.MergeJoins | pkg/audioalign/align.go:335-346 | each run left joins consecutive runs that begin at one offset, and together they join all but those of a single window |
| Runs.ConfidentExactly | pkg/audioalign/align.go:320-333 | what is grouped is exactly what is confident |
| Runs.MergeSeparates | pkg/audioalign/align.go:335-346 | every run left has two windows or more and starts at an offset the run before does not share |
| Runs.SegmentRunsInOrder | pkg/audioalign/align.go:316-347 | window starts strictly increase within each run and from run to run |
| Runs.SegmentRuns | pkg/audioalign/align.go:319-347 | the two loops compute those runs |
| Drift.DriftSlope | pkg/audioalign/align.go:281-314 | the loop fits the first longest smooth run of confident windows, or reports no slope |
| Drift.LongestIsFirstLongest | pkg/audioalign/align.go:284-299 | the run chosen is the first of the longest |
| Drift.DenPositive | pkg/audioalign/align.go:303-312 | two windows at different places make the denominator strictly positive (Cauchy-Schwarz over the sums) |
| Drift.SlopeKnown | pkg/audioalign/align.go:300-312 | so with increasing starts the slope is unknown only for fewer than four windows |
| Drift.LineSlope | pkg/audioalign/align.go:281-313 | lags exactly on a line give that line's slope |
| Drift.SlopeIsLeastSquares | pkg/audioalign/align.go:281-313 | no line fits the run with a smaller squared error than one of the returned slope |
| Boundaries.ScoreProbe | pkg/audioalign/align.go:413-428 | a probe's score is the sum over bands and its 250 frames of donor times target, frames outside either recording left out |
| Boundaries.BandFitIsDot | pkg/audioalign/align.go:413-428 | a band's part of it is the dot product of what both recordings have of the probe, whichever of them the probe is laid on |
| Boundaries.FitIsSum | pkg/audioalign/align.go:413-428 | and the score the sum of these over the bands |
| Boundaries.FitsAreSums | pkg/audioalign/align.go:430-436 | the probes lie a second apart from lo on, each ending by hi, and each is so scored over every band |
| Boundaries.GainRanksFit | pkg/audioalign/align.go:437-446 | the signed sum accumulated is twice the total fit less a constant, so it ranks splits as the total fit does |
| Boundaries.Boundary | pkg/audioalign/align.go:411-451 | the search returns the boundary function of the recordings, the interval and the two offsets |
| Boundaries.BoundaryIsBestSplit | pkg/audioalign/align.go:430-449 | that is the middle of the first probe whose split has the highest total fit: offset A before it, offset B from it on |
| Boundaries.BoundaryWithin | pkg/audioalign/align.go:408-451 | it lies in [lo, hi] when lo is at most hi, and between hi and lo otherwise |
| Boundaries.BoundaryBelowHi | pkg/audioalign/align.go:408-410 | the half-open [lo, hi) of the comment holds exactly when lo < hi and the range is not the one frame [hi-1, hi) with hi at most 0 |
| Segments.SortSorts | pkg/audioalign/align.go:362-367 | the lags sorted are ascending and the same multiset |
| Segments.LagOfWindow | pkg/audioalign/align.go:361-368 | a run's lag is the lag of one of its windows |
| Segments.LagIsMedian | pkg/audioalign/align.go:361-368 | at most half a run's windows have a lag below it, and fewer than half one above: the median, the upper one of an even count |
| Segments.MedianLag | pkg/audioalign/align.go:361-368 | lagOf returns the middle of the sorted lags, the upper one of an even count |
| Segments.CutMeets | pkg/audioalign/align.go:374-385 | every cut ends one run no later than the next begins, on the donor and on the target; a growing cut loses no donor, a shrinking one no target |
| Segments.CutKeepsGap | pkg/audioalign/align.go:377-384 | a cut stays between the middles of the windows beside it if and only if the lag falls by no more than they are apart |
| Segments.CutIsBest | pkg/audioalign/align.go:374-385 | with a probe in the gap a cut is the middle of the first probe where playing the run before at its own lag up to it and the run after at its own lag from it on fits best in all, on the donor for a growing lag and on the target for a shrinking one; without a probe it is halfway |
| Segments.PlaceSegments | pkg/audioalign/align.go:357-406 | the two loops compute the clipped segments of the cuts |
| Segments.PieceHas | pkg/audioalign/align.go:386-405 | a run plays exactly those donor frames between its cuts, or the donor's ends, that the target has at its lag |
| Segments.PiecesApart | pkg/audioalign/align.go:374-405 | with room or without, run lost or not, no run plays donor that a later one plays |
| Segments.PlacedExactly | pkg/audioalign/align.go:349-406 | every run becomes a segment if and only if none is lost; the segments are ordered and disjoint on both timelines if and only if no two runs cross on the target over lost ones; with room at every cut none is lost, and with none lost none cross |
| Segments.PlacedInOrder | pkg/audioalign/align.go:349-406 | the segments are always ordered and disjoint on the donor, nonempty and inside both recordings, so apart exactly when they do not overlap on the target; when no run is lost each becomes one at its own lag and they are apart |
| Segments.PlacedWithin | pkg/audioalign/align.go:386-405 | with room or without, every segment is nonempty and inside both recordings |
| Segments.CutForced | pkg/audioalign/align.go:374-384 | a cut without room is fixed by the lags and window starts alone, whatever the recordings hold |
| Segments.LostExactly | pkg/audioalign/align.go:386-405 | a run with no room at either side is lost if and only if its two forced ends, clipped, leave nothing |
| Segments.ForcedEndDecides | pkg/audioalign/align.go:374-405 | a run forced at its end only is kept when the forced end is past its first window's middle, and lost when it is not past the window before |
| Segments.ForcedStartDecides | pkg/audioalign/align.go:374-405 | a run forced at its start only is kept when the forced start is before its last window's middle, and lost when it is not before the next window |
| Segments.BoundaryAtHi | pkg/audioalign/align.go:377-384 | a lag that falls by just the gap leaves an empty range: the boundary is hi, on any recordings |
| Grafts.InDonorOrder | pkg/audioalign/accept.go:139-154 | it sorts the segments by target and accepts exactly those whose donor starts then never fall: never any whose starts go back, and where ties agree exactly those whose starts do not |
| Grafts.NeverFalls | pkg/audioalign/accept.go:148-152 | the loop accepts exactly the segments no two of which fall, though it compares neighbours |
| Grafts.OrderDecided | pkg/audioalign/accept.go:144-154 | the starts of accepted segments never go back on the donor as those on the target go forward, and where ties agree exactly those are accepted, however the unstable sort leaves ties |
| Grafts.AcceptedExactly | pkg/audioalign/accept.go:144-154 | of segments in order on the donor every sort is accepted if and only if their target starts strictly rise, and some sort if and only if they never fall |
| Grafts.PlacedAccepted | pkg/audioalign/accept.go:144-154 | so for all segments placed, runs lost or not; when they are apart, as with no run lost, every sort is accepted |
| Grafts.NoRoomRefused | pkg/audioalign/align.go:380-384 | without room: three runs whose segments, on any recordings long enough, lose a run, cross on the target and are refused under every sort |
| Grafts.NoRoomFound | pkg/audioalign/align.go:319-347 | those, and the ones accepted and yet played back, are the runs the grouping and merging make of six confident windows |
| Grafts.DonorSeconds | pkg/audioalign/accept.go:73-87 | the search returns the donor time of the last covering segment |
| Grafts.LastCovering | pkg/audioalign/accept.go:63-87 | the last covering segment decides, and there is no donor time exactly where none covers |
| Grafts.DonorTimeIs | pkg/audioalign/accept.go:73-87 | times the rate, or 1 unless that is positive, the donor time is as far into the last covering segment's donor as the target time is into the segment, to the nanosecond; and there is none exactly where no segment covers |
| Grafts.RateAdvances | pkg/audioalign/accept.go:63-67 | a second on the target is 1/rate on the donor |
| Grafts.OnlyCovering | pkg/audioalign/accept.go:73-87 | over segments apart from each other any one that covers the time decides it |
| Grafts.DonorForward | pkg/audioalign/accept.go:73-87 | over segments apart from each other a later target time plays a strictly later donor time |
| Grafts.PlaysForwardExactly | pkg/audioalign/accept.go:139-142 | over segments in order on the donor, later target times play strictly later donor times if and only if no segment is the last to cover the later of its own start and the end of one after it |
| Grafts.AcceptedGoesBack | pkg/audioalign/accept.go:139-154 | three runs whose segments every sort accepts, and whose donor is played at 1300 s and then, a minute later on the target, at 160 s |
| Grafts.Transform | pkg/audioalign/accept.go:89-108 | each sample is the donor interpolated at its donor time, silence where there is none or off the donor's end |
| Grafts.ReadAtIs | pkg/audioalign/accept.go:89-100 | sample i reads the donor, times the rate, as many samples into its segment |
| Grafts.InterpolatedIs | pkg/audioalign/accept.go:100-105 | between two donor samples the value moves in a straight line, at one it is that sample, off the donor it is silence |
| Grafts.UncoveredSilent | pkg/audioalign/accept.go:92-99 | a sample no segment covers is silence |
| Grafts.ItselfCopied | pkg/audioalign/accept.go:89-108 | a recording aligned with itself at rate 1 is copied |
| Grafts.ReadsForward | pkg/audioalign/accept.go:92-105 | where later times play later donor, later samples never read an earlier place |
| Grafts.ReadForwardExactly | pkg/audioalign/accept.go:89-108 | over segments of whole frames in order on the donor the samples read strictly forward if and only if no segment plays on past the end of one after it |
| Grafts.PlacedRead | pkg/audioalign/accept.go:89-108 | so for all segments placed, runs lost or not, and always when they are apart |
| Alignment.WindowsPlaceable | pkg/audioalign/align.go:255-257 | the windows of two recordings give runs that fit both |
| Alignment.AlignAt | pkg/audioalign/align.go:211-217 | from features to segments at the chosen rate: an error exactly for a recording shorter than a window; otherwise every window at its stride, scored from the recordings, the runs of those windows, and their segments: in order on the donor and inside both, apart, accepted and played forward each exactly under its condition, and all three when no run is lost |
| Slots.ChainShape | app/dispatch/ledger.go:135-147 | a key's chain is reservations with strictly falling seq, each lapsing no later than the one above, over at most one published slot |
| Slots.LapseUncovers | app/dispatch/ledger.go:544-560 | a lapse keeps the head, or uncovers the published dispatch at the bottom, or leaves nothing |
| Ledgers.Ledger.LapseLocked | app/dispatch/ledger.go:544-560 | every slot of the book is lapsed, no other durable changes, and the waiters for the slots freed are woken |
| Ledgers.Ledger.Admit | app/dispatch/admit.go:52-122 | the new lane and the decision are those of the admission function on the lapsed lane, for both Admit and AdmitFirst |
| LedgerBudget.AdmittedWhen | app/dispatch/admit.go:65-122 | rebuilt and in the topology, a key is admitted if and only if it holds a dispatch as new, or the slots of others, and for a routine one the live claims of others, are fewer than twice the durable's MaxAckPending; otherwise the refusal says why |
| LedgerBudget.AdmitLeaves | app/dispatch/admit.go:86-121 | the mark of a key admitted goes, other keys keep what a lapse leaves them, and an earlier refusal touches nothing |
| LedgerBudget.RefusedClaims | app/dispatch/admit.go:103-107 | a refused AdmitFirst leaves the key's claim seen now, in the place it had or else now, every other as it was; a refused Admit forgets the expired claims and no other |
| LedgerBudget.AdmittedClaims | app/dispatch/admit.go:87-121 | a slot written takes the key's own claim, for a routine dispatch the expired ones of others too, and a dispatch held already takes none |
| Ledgers.Ledger.Published | app/dispatch/ledger.go:396-413 | the published slot is recorded with its expiry (none when rebuildable) unless a newer slot stands |
| LedgerRuns.PublishLeaves | app/dispatch/ledger.go:396-413 | a publish covered by a newer slot does nothing; any other writes its own slot, over nothing, takes its own mark and leaves every other key alone |
| Ledgers.Ledger.Answered | app/dispatch/ledger.go:415-425 | the head at or below seq goes with its whole chain, and its waiters are woken |
| LedgerRuns.AnswerLeaves | app/dispatch/ledger.go:415-425 | an answer takes its key at or below the seq and nothing else |
| Ledgers.Ledger.ForgetGone | app/dispatch/ledger.go:427-457 | every sub of the item leaves every rebuildable durable, book, waiting marks and claims, and each durable wakes a legal pick for the slots it freed, one after the other in some order |
| LedgerRuns.GoneLeaves | app/dispatch/ledger.go:427-457 | a key of the item is nowhere, any other where it was |
| Ledgers.Ledger.Forget | app/dispatch/ledger.go:487-503 | the key leaves every durable, and each rebuildable one that held it wakes a legal pick |
| LedgerRuns.ForgetLeaves | app/dispatch/ledger.go:487-503 | a key forgotten is nowhere, every other where it was |
| Ledgers.Ledger.Holds | app/dispatch/ledger.go:459-471 | true exactly when an Answered at that seq would release the key |
| Ledgers.Ledger.MarkWaiting | app/dispatch/ledger.go:473-485 | the key is marked waiting with its reason and the time |
| LedgerRuns.WaitLeaves | app/dispatch/ledger.go:473-485 | the latest reason given stands, with its time, and nothing else changes |
| LedgerRuns.MarkStays | app/dispatch/ledger.go:562-568 | a mark nothing else touches goes exactly when a tick or a count of the marks finds it five minutes old |
| LedgerRuns.MarkLasts | app/dispatch/ledger.go:473-485 | so it stays, as it was, through every run of less |
| Ledgers.Ledger.WaitingCount | app/dispatch/ledger.go:505-512 | the marks younger than five minutes are kept and counted |
| Ledgers.Ledger.OutstandingCount | app/dispatch/ledger.go:514-521 | the book is lapsed and counted, a legal pick woken for what lapsed |
| Ledgers.Ledger.LapseAll | app/dispatch/unattended.go:103-110 | the tick lapses every durable that has a book, its waiting marks with it, each waking a legal pick for what lapsed |
| Ledgers.FreedCounts | app/dispatch/wake.go:109-120 | the slots freed that a forget or a lapse counts are those the durable's book lost |
| Ledgers.Ledger.Rebuild | app/dispatch/ledger.go:235-266 | only if every source answered, each rebuildable durable's book becomes what its source names and the ledger counts as rebuilt |
| LedgerRuns.RebuiltNewest | app/dispatch/ledger.go:250-257 | a rebuilt book names exactly the keys status names, each at its newest seq |
| LedgerRuns.RebuiltPublished | app/dispatch/ledger.go:250-257 | each slot of it is published, stamped now, without expiry and over nothing |
| LedgerRuns.RebuiltHolds | app/dispatch/ledger.go:235-266 | it holds a dispatch if and only if status names one of its key as new |
| Ledgers.Ledger.AuditDue | app/dispatch/ledger.go:278-294 | the snapshot is the published slots stamped more than twenty minutes ago |
| Ledgers.Ledger.AuditRelease | app/dispatch/ledger.go:307-318 | the recheck releases exactly the slots due, unchanged and not in flight |
| LedgerRuns.StepGood | app/dispatch/ledger.go:235-266 | every step keeps every slot a chain, no slot stamped in the future, and published slots of a rebuildable durable unexpiring |
| LedgerRuns.RunGood | app/dispatch/admit.go:86-121 | so does every run on a clock that never goes back |
| LedgerRuns.HeldThroughStep | app/dispatch/ledger.go:396-425 | a published dispatch held on a rebuildable durable is still held after a step if and only if the step is not an answer at or above its head, a forget, a rebuild that omits it or an audit that releases it |
| LedgerRuns.HeldThroughRun | app/dispatch/ledger.go:396-425 | so it is held through every run without such a step |
| LedgerRuns.PublishedHeld | app/dispatch/ledger.go:135-147 | in particular through any admissions, publishes, lapses and ticks, and answers of it below its seq |
| LedgerRuns.PublishRecorded | app/dispatch/ledger.go:396-413 | a publish is recorded if and only if no newer slot covers the key, or it was held already |
| LedgerRuns.PublishHeldUntil | app/dispatch/ledger.go:386-413 | on a durable without a source a publish no newer slot covers is held for AckWait times MaxDeliver of its spec, for good when it has none |
| LedgerRuns.HeldUntilThroughStep | app/dispatch/ledger.go:544-560 | it is still held after a step if and only if the step is not an answer at or above its head, a forget, or a lapse once it and every reservation over it are past their expiry |
| LedgerRuns.PublishedHeldUntil | app/dispatch/ledger.go:386-413 | so it is held through every run before its expiry that neither answers it at or above its seq nor forgets it, a newer publish included |
| LedgerRuns.LapsesExactly | app/dispatch/ledger.go:544-560 | a tick, a count or another key's admission then drops the key if and only if it and every reservation over it are past their expiry |
| LedgerRuns.BookFirstKeeps | app/dispatch/ledger.go:535-542 | every step keeps that a durable the ledger has made no book for holds nothing, so the tick passes by nothing that could lapse |
| LedgerRuns.AnsweredClears | app/dispatch/ledger.go:415-425 | Answered at a leaves no slot at or below a if and only if the key holds none, its head is at or below a, or its oldest slot is above a |
| LedgerAudit.AnsweredComesBack | app/dispatch/ledger.go:415-425 | a run in which an answered dispatch under a newer reservation comes back when the reservation lapses |
| LedgerAudit.AnsweredStays | app/dispatch/ledger.go:415-425 | and it then stays through any steps but an answer at or above its head, a forget, a rebuild that omits it or an audit that releases it |
| LedgerAudit.PublishLost | app/dispatch/ledger.go:400-404 | a run in which a publish landing under a newer reservation is dropped, and the ledger ends holding nothing of it |
| LedgerAudit.AuditRemovesOver | app/dispatch/ledger.go:277-328 | over any steps between its two looks the audit removes a key if and only if it was published and stale at the snapshot, status does not show it in flight, no step between published, answered, forgot, rebuilt or released it, and no reservation is over it |
| LedgerAudit.AuditRemoves | app/dispatch/ledger.go:307-318 | it removes a key if and only if both looks saw the same published seq, stale, and status did not show it in flight |
| LedgerAudit.RepublishedSurvives | app/dispatch/ledger.go:309-316 | a key republished and recorded since the snapshot survives the recheck through whatever follows |
| LedgerBudget.GrantedExactly | app/dispatch/admit.go:86-121 | an admission is granted if and only if the key holds the dispatch already or a slot is written, and the slot written is a reservation over an older one, the key's marks cleared |
| LedgerBudget.AdmissionFits | app/dispatch/admit.go:92-121 | an admission that writes leaves the book within the budget, and a routine one leaves a free slot for every live claim of another key |
| LedgerBudget.OnlyGrowth | app/dispatch/admit.go:86-121 | only an admission within the budget, a publish for a key with no slot or a rebuild makes a book larger |
| LedgerBudget.RunFits | app/dispatch/ledger.go:374-384 | over every run without a rebuild the book stays within the budget, or where it began, but for one slot for each publish that found none |
| LedgerBudget.ClaimServed | app/dispatch/admit.go:56-65 | while no one else claims and nothing publishes unadmitted, a live AdmitFirst claim keeps a slot: whenever the claimer asks again it is admitted |
| LedgerBudget.RefusedServed | app/dispatch/admit.go:56-65 | refused, an AdmitFirst leaves its claim; once a slot frees, and whatever routine dispatches ask, while no one else claims and nothing publishes unadmitted, asking again it is admitted |
| Ledgers.Ledger.FirstWaitingLocked | app/dispatch/wake.go:61-75 | the live claims of other keys are counted and the expired ones forgotten |
| Ledgers.Ledger.FreedLocked | app/dispatch/wake.go:109-145 | the keys woken are a legal pick for the slots freed, on rebuildable durables only |
| Wakes.PrefixPicked | app/dispatch/wake.go:122-143 | the sorted claims then the sorted rest, cut at twice the slots freed and at the room left, are such a pick |
| Wakes.ClaimsWokenFirst | app/dispatch/wake.go:54-59 | a key refused for budget is woken only when every claim is, and no key before one of its kind that has waited longer |
| Wakes.WokenWaited | app/dispatch/wake.go:109-145 | only keys claiming or refused for budget are woken, at most twice the slots freed, and all of them when that leaves room |
| Deliveries.DeliveryBook.Retrying | app/dispatch/delivery.go:66-91 | the book after a nak, a later or dead-lettered dispatch left alone |
| Deliveries.DeliveryBook.DeadLettered | app/dispatch/delivery.go:102-116 | the book after a term, the attempts and last nak of the same dispatch carried over |
| Deliveries.DeliveryBook.Lookup | app/dispatch/delivery.go:118-127 | the state of the dispatch at exactly that seq, or nothing |
| Deliveries.BookIsMaximum | app/dispatch/delivery.go:70-116 | after any advisories a key's (seq, kind) is the lexicographic maximum of theirs, dead-lettered above retrying, and it has an entry exactly when one named it |
| Deliveries.OrderIrrelevant | app/dispatch/delivery.go:44-48 | two sequences with the same advisories, in any order and number, say the same of every key |
| Deliveries.DeadLetteredStays | app/dispatch/delivery.go:66-79 | dead-lettered is absorbing at its seq |
| Deliveries.AttemptsAre | app/dispatch/delivery.go:66-116 | whatever the advisories, the attempts shown of a dispatch are the deliveries of its last nak before its first term, or 0 |
| Deliveries.AttemptsCounted | app/dispatch/delivery.go:82-115 | the nak counted is the one with no term before it and none but naks after a term later, wherever it stands |
| Deliveries.AttemptsOrderFree | app/dispatch/delivery.go:66-116 | every order of the advisories shows the same attempts if and only if no nak of the dispatch counts deliveries, or none is terminated and they all count the same |
| Deliveries.AttemptsDependOnOrder | app/dispatch/delivery.go:109-115 | a nak before and after its term: with any nonzero count the two orders show different attempts |
| Deliveries.EntryIs | app/dispatch/delivery.go:80-115 | whatever the advisories, the newest dispatch keeps the time of the nak counted and of its last term, and the nak's reason and last-try message until a term clears them |
| Deliveries.KeptCounted | app/dispatch/delivery.go:66-116 | that nak is the last before the first term, and that term the last |
| Deliveries.ForgetClears | app/dispatch/delivery.go:129-137 | Forget removes the key's entry at or below seq and nothing else |
| Deliveries.Clamp | app/dispatch/delivery.go:182-191 | the loop computes the clamped prefix |
| Deliveries.ClampWholeRunes | app/dispatch/delivery.go:182-191 | a text too long keeps as many whole runes as fit: none is split and the next would not fit |
| Deliveries.Render | app/dispatch/delivery.go:139-180 | the destination and delivery after the table, everything else of the dispatch unchanged |
| Deliveries.ShownFromAdvisories | app/dispatch/delivery.go:139-180 | a dispatch shows dead-lettered (or retrying) exactly when it is in flight, not refused, and that is the highest of the advisories about its key at its seq |
| Deliveries.ShownOtherwise | app/dispatch/delivery.go:139-180 | waiting, with the reason and message it was refused for, exactly when refused; nothing exactly when answered and not refused; and in flight with nothing newest at its seq, claimed as it was if it was, published if not |
| Deliveries.ShownFitted | app/dispatch/delivery.go:139-180 | what the book says of a dispatch in flight is shown as it stands, and a refusal with its own texts and nothing else; each text whole if it fits and else from its beginning |
| Attendances.Watch.Detect | app/dispatch/unattended.go:132-219 | one detection: the new attendance, a durable without a domain judged on its state alone and an unserved domain counting as absent; the domain's mark; and one record exactly when the verdict turns unattended |
| Attendances.StalledExactly | app/dispatch/unattended.go:169-174 | over any history stalled holds if and only if the last successful read shows pending work nobody pulls and it and one at least two minutes older agree on the lag with every successful read between |
| Attendances.LagIs | app/dispatch/unattended.go:169-174 | the lag kept is what the last successful read found undelivered and unanswered together |
| Attendances.NoAgentExactly | app/dispatch/unattended.go:175-185 | no agent if and only if an unbroken run of observed absences with lag is two minutes old |
| Attendances.UnattendedExactly | app/dispatch/unattended.go:132-140 | the verdict is exactly one of the two |
| Attendances.FailedReadsKeepHistory | app/dispatch/unattended.go:175-187 | over any history, two failed reads keep the verdict if and only if it was unattended or no unbroken run of absences is two minutes old by then |
| Attendances.FailedReadsKeep | app/dispatch/unattended.go:132-140 | two failed reads keep the verdict if and only if it was unattended, or the absence seen, if any, is not two minutes old yet |
| Attendances.FailedStateKeeps | app/dispatch/unattended.go:132-174 | with only the consumer's state unread its half is kept, and the whole exactly when an absence seen again keeps it or presence takes nothing back |
| Attendances.FailedPresenceKeeps | app/dispatch/unattended.go:175-187 | with only presence unread the absence seen is kept, and the whole exactly when a stall says what it said or, without one, that absence does |
| Attendances.FailedReadCrosses | app/dispatch/unattended.go:175-185 | one absence followed by failed reads alone turns the verdict |
| Attendances.Watch.ObserveRequest | app/dispatch/unattended.go:59-82 | no responder marks the domain, an answer of any kind clears it, a timeout changes nothing |
| Attendances.UnservedExactly | app/dispatch/unattended.go:84-99 | a look finds the domain unserved if and only if its last request but timeouts found no responder, within four minutes |
| Attendances.LookDrops | app/dispatch/unattended.go:84-99 | such a look keeps the mark as it was and any other drops it |
| ArtCaches.ArtCache.Get | ui/artcache.go:50-64 | the body is returned exactly when the digest is kept, and its entry is then in front |
| ArtCaches.ArtCache.Add | ui/artcache.go:66-91 | list and map agree, used is the sum of the sizes kept and within the budget, and the order is the specified one |
| ArtCaches.KeepLongest | ui/artcache.go:79-88 | what eviction leaves is the longest prefix of the recency order that fits |
| ArtCaches.EvictsExactly | ui/artcache.go:66-91 | a new entry evicts exactly those whose bytes, with all more recent ones and its own, exceed the budget |
| ArtCaches.LeastRecentLast | ui/artcache.go:25-91 | after every sequence of gets and adds the entries stand in the order of their last use, each with a body it was added with |
| ArtCaches.UsedAllFits | ui/artcache.go:25-31 | after every sequence of gets and adds: no digest twice, within the budget, nothing over a quarter of it |
| Inboxes.Inbox.Park | app/intake/inbox.go:166-183 | the entry is parked and the superseded one, if any, handed back to be closed |
| Inboxes.ParkGood | app/intake/inbox.go:166-183 | parking keeps the invariant, and refuses if and only if the message is new and the inbox full: a redelivery never is |
| Inboxes.Inbox.SettleLocked | app/intake/inbox.go:132-146 | the entry leaves, its handler is returned to be sent the outcome, and the settlement is remembered |
| Inboxes.SettleGood | app/intake/inbox.go:132-146 | settling keeps the invariant: at most 1024 settlements, once each, this one among them |
| Inboxes.RememberedExactly | app/intake/inbox.go:132-146 | a settlement forgets nothing but, when new to a full ring, the oldest; it is the newest then, and otherwise keeps its place |
| Inboxes.SettlementLasts | app/intake/inbox.go:132-146 | a settlement is remembered while those since, with it, are no more than the ring holds |
| Inboxes.Inbox.Drop | app/intake/inbox.go:185-202 | an entry that gave up leaves, and only that entry |
| Inboxes.Inbox.Take | app/intake/inbox.go:108-120 | exactly the owner's parked candidates, in the order they were parked |
| InboxProtocol.NextKeeps | app/intake/inbox.go:132-202 | every step of every interleaving keeps the invariant of the inbox and of each entry's life |
| InboxProtocol.NeverFaults | app/intake/inbox.go:77-91 | in every interleaving no send blocks or hits a closed channel, no channel is written twice, at most max are parked, and byID and order hold the same entries once each |
| InboxProtocol.EveryEntry | app/intake/candidates.go:75-116 | every entry leaves exactly once; a handler acks only with the outcome its own entry was settled with; one waiting on an entry that left can receive or is about to be sent to |
| InboxProtocol.SettledNakedExactly | app/intake/candidates.go:75-116 | in every interleaving a settled candidate whose handler has finished is naked if and only if its timer fired while it waited, and acked otherwise |
| InboxProtocol.SettledYetNaked | app/intake/candidates.go:99-115 | a handler whose timer fires as its candidate is settled naks a candidate that was taken |
| IoExecutors.IoExecutor.RecordTimeout | app/remediation/io.go:176-195 | the filter in place and the trip compute the breaker after a timeout |
| IoExecutors.IoExecutor.Admit | app/remediation/io.go:161-174 | a call is let in exactly when the breaker is closed or open long enough with no trial, which it then sets |
| IoExecutors.OpensOnFifth | app/remediation/io.go:184-194 | outside a trial a timeout opens the breaker if and only if it is the fifth inside thirty seconds |
| IoProtocol.PoolKeeps | app/remediation/io.go:111-159 | every step keeps busy equal to the workers claimed, at most the pool |
| IoProtocol.HandOffNeverBlocks | app/remediation/io.go:104-125 | in every interleaving the jobs queued are at most busy, at most the workers, so a hand-off has room |
| IoProtocol.OwnedKeeps | app/remediation/io.go:161-212 | a trial flag that is set belongs to a call still inside run |
| IoProtocol.RunKeeps | app/remediation/io.go:111-212 | in every interleaving busy counts the workers claimed, a trial belongs to a call inside run, and the timeouts kept are those inside the window |
| IoProtocol.NeverStuck | app/remediation/io.go:197-212 | with no call inside run the breaker is closed or admits the next call once open long enough |
| IoProtocol.ShutForAMinute | app/remediation/io.go:161-174 | once open, with no trial under way, the breaker lets no call in for a minute, whatever the calls inside run come to |
| IoProtocol.EndDecides | app/remediation/io.go:176-212 | under a trial a call that finishes closes the breaker and the next is let in, one that times out opens it anew, one that gives up leaves it to another trial; under none only a timeout changes it |
| IoProtocol.OpeningNeedsFive | app/remediation/io.go:176-195 | in every run a timeout outside a trial opens the breaker if and only if it is the fifth of those since the last such opening inside the window |
| IoProtocol.OneTrialKept | app/remediation/io.go:161-212 | every step keeps that a trial in flight is the one the flag stands for if and only if it does not clear the flag for another call while that trial is out; any step that ends a call may: a timeout, a finish, a cancel, giving up saturated |
| IoProtocol.OneTrialThroughRun | app/remediation/io.go:161-212 | the flag stands for every trial in flight at every point of a run if and only if none of its steps is such a one |
| IoProtocol.AtMostOneKept | app/remediation/io.go:161-174 | a step keeps at most one trial in flight if and only if it is not a call let through the half-open breaker while another's trial is inside run |
| IoProtocol.AtMostOneThroughRun | app/remediation/io.go:104-212 | at most one trial is in flight at every point of a run if and only if no call of it is let in so |
| IoProtocol.TwoTrialsNeedStray | app/remediation/io.go:161-174 | two trials are out at once only in a run with a step that cleared the flag for another call |
| IoProtocol.SecondTrial | app/remediation/io.go:161-174 | after any such step that leaves the breaker open, the next call once it has been open long enough is a second trial beside the first |
| IoProtocol.TwoTrials | app/remediation/io.go:104-212 | a run that reaches two trials in flight at once |
| PlannerPasses.Gate | app/remediation/reconciler.go:545-557 | exactly the planners after the first probe planner are gated |
| PlannerPasses.PlanAll | app/remediation/reconciler.go:238-297 | the gather and plan loops compute the drafts and results of the pass |
| PlannerPasses.PlannerIsolates | app/remediation/reconciler.go:265-297 | case by case: after the probe a planner keeps the stored value while the draft's probe is pending, or asks again when only the stored one was; past that its fields are cleared if it does not apply, keep the stored value with nothing of its result if its Gather or Plan fails, and else are its own |
| PlannerPasses.FieldsOf | app/remediation/reconciler.go:260-264 | no other planner's write reaches its fields: they end as its own turn left them |
| PlannerPasses.FieldsOfNone | app/remediation/planner.go:60-62 | a field of no planner keeps its stored value: no write outside a planner's fields reaches the draft |
| PlannerPasses.PlannerIsolated | app/remediation/reconciler.go:265-297 | what a planner other than the probe does changes no field outside any set that holds its fields and those of every planner that reads one of the set |
| PlannerPasses.GateHolds | app/remediation/reconciler.go:238-241 | every planner after the probe meets the same answer to whether the probe is current |
| PlannerPasses.Finish | app/remediation/reconciler.go:308-386 | effects run exactly when the main apply landed or was not needed and the status landed or was unchanged on a view not stale; otherwise the pass ends as the first answer that did not land, the pace or the stale view says |
| PlannerPasses.EachBatchRuns | app/remediation/reconciler.go:371-386 | then every planner's batch runs, whatever came of those before it |
| PlannerPasses.EffectsOwed | app/remediation/reconciler.go:371-386 | an effect that runs was emitted by a planner that planned successfully, past its gate; the main apply was answered done or not needed, and the status landed or was unchanged on a view not stale |
| Effects.RunBatch | app/remediation/effects.go:147-172 | a batch runs up to and including its first failure |
| Effects.TriedPrefix | app/remediation/effects.go:147-172 | what runs is the batch from its start, all but the last succeeding, and the whole of it unless the last failed |
| ItemSets.MergeSets | app/remediation/itemstage.go:223-240 | the loops merge the parts, or fail |
| ItemSets.MergedUnion | app/remediation/itemstage.go:223-240 | merging fails if and only if two parts give one manager one field, and otherwise each manager has exactly the union of its parts |
| ItemSets.OrderedSets | app/remediation/itemstage.go:242-256 | every merged set once: the named managers in their order, then the others by name |
| ItemSets.PrecedesIs | app/remediation/itemstage.go:242-256 | the order is grabs, metadata, artwork, then every other manager by name |
| ItemSets.BeforeIsBytes | app/remediation/itemstage.go:250-254 | names are ordered at their first difference, a prefix first |
| ItemPasses.RunStages | app/remediation/items.go:176-214 | the stage loops gather, in stage order, what the stages that apply make |
| ItemPasses.InOrderExactly | app/remediation/items.go:176-180 | the stages run are exactly those that apply |
| ItemPasses.InOrderInTurn | app/remediation/items.go:176-180 | each after those of every name before its own |
| ItemPasses.GatheredUnion | app/remediation/items.go:197-203 | the pass panics if and only if two stages that succeeded set one field; otherwise the item's fields are the union of theirs |
| ItemPasses.StageKept | app/remediation/items.go:184-214 | a successful stage comes in the order of effects behind those before it, and its result is kept |
| ItemPasses.ApplySets | app/remediation/items.go:230-245 | every answer logged is the server's to that set at that resourceVersion; the sets due are applied in order, each at the resourceVersion the one before was answered with, all of them or up to the first the server did not land, which decides conflict or refusal |
| ItemPasses.DueExactly | app/remediation/items.go:233-236 | a set is due if and only if no failed stage declares its manager and some field of it differs from the status |
| ItemPasses.EqualChangesNothing | app/remediation/items.go:234 | a set skipped as equal is one that, laid over the status, leaves every field as it is |
| ItemPasses.Staged | app/remediation/items.go:161-265 | the pass ends by panic exactly on a shared field, at the item exactly when the item's pass on the merged fields does not land, and otherwise as the server's answers to the sets decide; effects run exactly when it landed every set due, and nothing is applied in the cases before |
| ItemPasses.WritesOfPass | app/remediation/itemstage.go:130-137 | the sets written are in order and of different managers, none of a manager a failed stage declares, each the union of what the successful stages give it, the first at the item's resourceVersion and each next at the one the server answered |
| ItemPasses.FinishedWrites | app/remediation/items.go:226-246 | when the pass finishes, wherever a successful stage gives a manager's field a value the status has not, and no failed stage declares the manager, the server landed a set with it |
| ItemPasses.PrecedesOnce | app/remediation/itemstage.go:242-256 | no manager precedes itself, so none is written twice |
| ItemPasses.EffectsOfPass | app/remediation/items.go:248-266 | an effect that runs is a successful stage's, and only once the item landed and the server landed every set due |
| ItemPasses.EachBatchRuns | app/remediation/items.go:248-266 | every stage's batch runs, whatever came of those before it |

## Left out

- Floating-point rounding, and the cosines and sines of the twiddle table: the arithmetic is over exact reals. `frames` is 20 ms a frame exactly.
- Feature extraction and `stretch`; the choice of rate by median peaks and its refinement around `driftSlope`; `Accept`'s thresholds, `DonorAt` and `Verify`: bounds and medians over what is modelled.
- The parallel loop over windows is sequential: each window is independent of the others.
- `sort.Ints`, `sort.Slice`, `slices.Sorted` and `slices.SortFunc` are modelled by what they leave; where ties are left in any order, every order is covered for `inDonorOrder` and for the wakes.
- The ledger reads the clock once a step, where `Published` and `rebuild` read it more than once.
- A decision's message and how soon to ask again (the retry spread by a hash of the key); metrics, logs and Kubernetes Events.
- LedgerAudit.AuditRemovesOver: how status answers which keys are in flight, key by key or from one list, is a parameter.
- Wake delivery after the channel: a wake is a key appended to the buffer of 512, read by nobody in the model.
- The delivery book's answers are values, so the deep copies that keep a caller from sharing them are not modelled.
- The artwork cache's list elements: the map holds the body where the code's holds the element, and a nil cache is not modelled.
- The inbox's wakes, and messages discarded before they are parked (undecodable, without an owner or an id).
- The context's end counts as the handler's timer in the inbox, and as a cancel in the I/O executor; scheduling is any interleaving.
- Planners, stages, sequence numbers (`records.NextSeq`), rendering and clamping of a status, conditions, actuators and requeue times: the loop's contracts with them only. A status is a map of fields.
- PlannerPasses.PlanAll: a planner's Plan is a function of the draft it is given, as its contract asks; one that wrote the shared view is not modelled.
- ItemPasses.Staged: a stage's result is what this pass met, so what later stages read of earlier ones (`NewEntries`, `Downloads`) is inside it.
- The limiter's pacing of status writes is a yes or no, and the item's owner-gone path is not modelled beyond `ForgetGone`.
- Handlers, templates and settings of the web interface, the command line, and the cluster and bus clients.
