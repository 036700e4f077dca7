# Verification of the streaming service's algorithmic cores

Dafny models of the parts of the media server whose behaviour is hardest to see
from one function: what storage enforcement evicts, how the desktop server's
lifecycle and its data-directory move interleave, what reaches the tracker and
the clients, and how torrent metadata, byte ranges, configuration, logs and
routes are read and written. `dafny verify dfyconfig.toml` checks all of it.

## How the models are built

Code that changes state is modelled as a class, or as methods with the source's
loops, and proved equal to a function; the theorems are about that function.
Threads are modelled as machines that take one step at a time in any order, and
the theorems are about every list of steps. Everything outside the modelled code
(repository, engine, clock, network, file system, the caller giving up) is an
argument: a function from the number of the question asked to its answer, so
that a theorem for all such functions holds for every behaviour of the outside.

| file | models |
|---|---|
| `Sorting`, `EvictionOrder`, `Survey`, `Retention`, `Enforcement`, `RetentionRun`, `StorageService` | storage retention and download admission: the rule order, the survey, the evict-and-survey loop as a function of all outside answers, what it amounts to in terms of the outside answers alone, its exact outcome over storage that holds still, and the service's loops over its rows |
| `Lifecycle`, `LifecycleRuns`, `LifecycleEnds` | the supervisor's Start, Stop and run and ChangeDataDir, as interleaved threads with program counters; runs that mark the limits of the guarantees; where undisturbed calls end |
| `Limiter` | the tracker client's sliding window, compacted in place |
| `Bencode`, `Manifest` | the metadata reader, a printer for it, safe paths, file offsets |
| `Ranges`, `Streaming` | the Range header, piece waits, chunked streaming of a growing file |
| `Workers`, `EventBus` | the two semaphores of the job workers; the event fan-out |
| `Lines`, `ConfigMerge`, `ConfigGlue`, `ConfigAnyText`, `LogTail` | the configuration merge, on terminated texts, on unterminated ones and on all; the incremental log tail |
| `MediaState` | library states folded over sources, episodes, seasons and packs |
| `Reconcile`, `PortalSync` | the clients' download list and portal mirror |
| `Percent`, `Routes` | percent-encoding and the web client's URLs |
| `Text`, `Wrappers` | decimal text, splitting, Option |

A byte is a `char` below 256 wherever the source works on bytes. Times are
integers. Progress is a real number.

## What the proofs turned up

Each of these is stated by a lemma named here; the model follows the code.

- ChangeDataDir documents that a move failing before the data leaves restarts
  the server it stopped (bindings.go lines 383-385). The guard is still set when
  it calls Start, so that Start is always refused: `Lifecycle.ResumeNeverStarts`.
- The guard covers starting, not closing: a server whose serving failed may
  still be closing inside the directory that is moved
  (`LifecycleRuns.FailedServerMayCloseDuringMove`); nothing else can be open there
  (`WindowOpenExactlyPendingCloses`). Two moves at once defeat the guard
  (`TwoMovesBreakTheGuard`), and only another move does
  (`GuardLostOnlyByAnotherMove`). After a move that failed half way a Start serves
  the directory the data has left (`StrandedStartServesOldDirectory`);
  `Lifecycle.StrandedExactlyBy` says which failures lead there.
- A serve error is attributed by state alone. One that takes the lock after a
  Stop and a new Start marks the new instance failed and leaves it serving with
  nobody to close it (`StaleFailureHappens`); this is the only way an instance is
  lost (`OwnershipLostOnlyByStaleFailure`).
- Admission evicts before it knows whether the download can fit: a refusal has
  by then evicted every unprotected torrent
  (`RetentionRun.RefusedIffProtectedTooBig`).
- Evicting one release of a title can make a sibling release count as never
  watched (`Survey.SiblingEvictionMovesFacts`), because the facts are rebuilt
  from the rows that are left: they stay exactly when the release played last does
  (`LatestStaysExactly`, `OneTitleFactsStayExactly`, `RetentionRun.PinnedExactly`).
- A Range header whose last position exceeds 64 bits is refused although RFC 9110
  accepts it (`Ranges.HugeLastPositionIsRefused`).
- A torrent dictionary that announces a string length near 2^63 gets past the
  bounds check, whose sum wraps around, and panics the reader
  (`Bencode.HugeLengthCrashes`, `Manifest.HugeLengthCrashesLayout`). Nothing else
  does (`Bencode.CrashIsHuge`), and `Bencode.LengthOutcome` says for which lengths.
- A client that asks for a replay of events can miss one that is published
  between the replay and its subscription (`EventBus.AnEventSlipsThrough`), and
  live events can arrive out of journal order (`EventBus.OrderMayDiffer`), exactly
  when one overtakes another between numbering and fan-out
  (`LogInvertedExactlyWhenOvertaken`).
- `merge_config` glues the first missing setting to an unterminated last line
  when the file ends inside its first [Preferences] section
  (`ConfigGlue.GluesExactlyWhen`). These are exactly the files on which merging
  twice is not merging once (`ConfigAnyText.MergingTwice`).
- The log tail loses a whole line that would fit when the cap cuts exactly on a
  line boundary (`LogTail.CutLineIsDropped`), and a line longer than the
  window makes the next call begin in its middle (`LogTail.NextIsBoundary`).
- An empty season keeps a show from counting as downloaded or watched
  (`MediaState.SeasonsOrEpisodes`, `AnEmptySeasonHidesTheDownload`).
- A field that disappears from an incoming download row stays visible
  (`Reconcile.KeptShowsNext`, `AClearedFieldStays`). With the rows this server sends,
  which always carry the optional ones, it does not happen (`CompleteRowsAreShown`).
- Two portal recoveries at once let an older fetch overwrite an accepted event
  (`PortalSync.OverlapOverwritesAnEvent`): events are accepted again as soon as one
  of them ends (`AcceptedWithRecoveryInFlight`).

## Model

| member | source | states |
|---|---|---|
| EvictionOrder.RuleComparesKeys | internal/application/retention.go:116-135 | each rule name compares one key per route (completion, activity, watched, size; newest, most recent and largest reversed; an unknown name counts as oldest-completed) |
| EvictionOrder.RankIsOrder | internal/application/retention.go:99-110 | for any rule list the whole comparison is antisymmetric and transitive, and ties only between equal engine ids |
| EvictionOrder.FirstTellingRuleDecides | internal/application/retention.go:99-110 | the first rule that tells two routes apart decides; if none does the older download goes first, then the lesser engine id |
| EvictionOrder.KeyIsMeasured | internal/application/retention.go:114-156 | the key of each rule is what it measures: the oldest row's time, the last playback or for a never-played route its oldest row's time, the watched flag, or the size |
| EvictionOrder.CmpStringMeaning | internal/application/retention.go:108 | an engine id precedes another when it is less where they first differ, or is a proper prefix |
| EvictionOrder.BeforeMeansLeads | internal/application/retention.go:99-156 | for any rule list, one route comes before another exactly when the first rule measuring them differently says so, or all measure the same and it is older, or as old and first by engine id |
| EvictionOrder.EvictionIsStrictTotalOrder | internal/application/retention.go:99-156 | for any rule list the eviction comparison is a strict total order on routes with distinct engine ids |
| EvictionOrder.VictimIgnoresInputOrder | internal/application/retention.go:99-111 | every permutation of the candidates is brought into the same order, although the sort is unstable |
| EvictionOrder.VictimIsFirst | internal/application/retention.go:316-317 | the first route of the order is a candidate and comes strictly before every other candidate |
| EvictionOrder.ApplyEvictionRules | internal/application/retention.go:99-111 | the in-place sort leaves exactly the order that the rule list determines |
| EvictionOrder.AnySortGivesTheOrder | internal/application/retention.go:99-111 | whatever the sorting algorithm does, any arrangement of candidates with distinct ids that the comparison finds in order is this order |
| Sorting.SortInPlace | internal/application/retention.go:100-110 | sorting in place leaves an ordered arrangement of the old contents, the reference sort; where only equal elements tie, as among candidates, another algorithm would leave the same one |
| Sorting.SortIgnoresInputOrder | internal/application/retention.go:100-110 | when only equal elements tie, sorting forgets the order of its input |
| Survey.FactsMeaning | internal/application/retention.go:260-281 | a route is a favourite, or watched, exactly when one of its rows' known titles is |
| Survey.LastPlayedMeaning | internal/application/retention.go:260-281 | a route's last playback is the latest one of its titles, and zero only if none was played |
| Survey.LatestMeaning | internal/application/retention.go:243-251 | a title has a latest playback exactly when a managed release of it was played, and none of its playbacks is later |
| Survey.LatestIsFirst | internal/application/retention.go:236-251 | of a title's latest playbacks the first listed is the one it is known by |
| Survey.SurveyMembers | internal/application/retention.go:171-204 | surveyed routes have distinct engine ids, hold all and only their own rows, and carry the engine's own status |
| Survey.SurveyIsComplete | internal/application/retention.go:176-201 | every managed row whose torrent the engine can describe is in a surveyed route with that status and the household's facts |
| Survey.SurveyWithout | internal/application/retention.go:171-253 | with one unchanged sample, a survey after routes have gone finds the other routes unchanged and in order if each of these holds the last played releases of its titles |
| Survey.LatestStaysExactly | internal/application/retention.go:236-251 | when managed rows go, a title's latest playback stays the same exactly when the release played last is still managed under it |
| Survey.FactsStay | internal/application/retention.go:216-281 | a route keeps its facts if, for each of its titles, the release played last stays managed or the title was never played |
| Survey.OneTitleFactsStayExactly | internal/application/retention.go:216-281 | a route of a single title keeps its facts exactly then, when no two playbacks of a title carry the same time |
| Survey.SiblingEvictionMovesFacts | internal/application/retention.go:216-253 | where the condition fails: evicting one release makes its sibling count as never watched, by a concrete pair of rows |
| Retention.DeleteFacts | internal/application/service.go:1619-1644 | a deletion that succeeds removes exactly the route's rows; one that fails touches no other row |
| Retention.DeletionOutcome | internal/application/service.go:1619-1644 | a deletion goes through unless the engine or the repository refuses; refused half way it has deleted just the route's rows that came before |
| Retention.EveryEvictionIsSafe | internal/application/retention.go:286-397 | whatever the outside calls answer: every eviction was called for by a limit, took an unprotected route, the first in rule order; the loop ends for one of its reasons; and evictions plus remaining rows never exceed the rows there were |
| Retention.RowsAfterRun | internal/application/retention.go:306-323 | after any run no row of an evicted route is left and every other row is, in order, also when the last deletion fails half way |
| Retention.RunEndsOnSurvey | internal/application/retention.go:371-395 | the plan a run stops on is the survey of the very rows it leaves |
| Enforcement.StepIsSurveyed | internal/application/retention.go:306-395 | every eviction acted on the survey of the rows then left, answered by that look's own sample |
| Enforcement.LimitsDecide | internal/application/retention.go:283-300 | every eviction happened with stored bytes over the cap or known free bytes below the reserve; a run that ends because storage fits keeps both; one that ends with nothing to evict does not, and names the cap exactly when that is exceeded |
| Enforcement.BytesAddUp | internal/application/retention.go:196-203 | what a survey counts as stored is the sizes the engine reports, added up |
| Enforcement.ProtectionMeaning | internal/application/retention.go:51-95 | a surveyed route is protected exactly when, with the matching toggle, the engine or a row is incomplete, a row is being streamed, a title is a favourite, or no title's latest playback was watched; all in terms of the rows and the sample |
| Enforcement.VictimsWereUnprotected | internal/application/retention.go:306-323 | with the matching toggle every victim was complete, not being streamed, no favourite, and watched |
| Enforcement.WhatIsLeftIsProtected | internal/application/retention.go:306-397 | a run that ends with nothing to evict leaves only torrents that are protected in that sense |
| Enforcement.VictimsLead | internal/application/retention.go:99-156 | every victim leads, by what the rules measure, every other surveyed torrent that was not protected |
| Enforcement.FirstRulePutsVictimFirst | internal/application/retention.go:114-156 | so under the first rule no such torrent is larger, smaller, older, newer, longer unused or more recently used than the victim, as the rule says |
| RetentionRun.TitlesApartPins | internal/application/retention.go:216-281 | routes that share no title keep their facts through every eviction |
| RetentionRun.LastPlayedAtHomePins | internal/application/retention.go:216-281 | so do routes that share titles, if each surveyed route holds the last played releases of its titles |
| RetentionRun.PinnedExactly | internal/application/retention.go:216-281 | for routes of one title each and distinct playback times that is exact: the facts survive every eviction exactly under this condition |
| RetentionRun.RunEvictsShortestPrefix | internal/application/retention.go:352-397 | with telemetry and facts fixed, a run evicts exactly the shortest prefix of the rule-ordered unprotected routes that ends the breach, or all of them |
| RetentionRun.RunConservesBytes | internal/application/retention.go:371-396 | freed bytes are stored bytes before minus stored bytes after |
| RetentionRun.AdmissionMeaning | internal/application/service.go:945-984 | under any outside answers the gate fails exactly when a survey or a deletion did; refuses exactly when nothing is left to evict and the download does not fit the cap beside what was last surveyed, reporting its size, the cap minus those bytes, and the cap; and admits everything else, a reserve breach among it |
| RetentionRun.RefusedIffProtectedTooBig | internal/application/service.go:945-984 | over storage that holds still a download is refused exactly when it does not fit beside the protected routes alone, and by then every unprotected route has been evicted |
| StorageService.Service.RetentionHousehold | internal/application/retention.go:216-253 | the loops over rows, favourites and playback build the household facts of the reference |
| StorageService.Service.RouteFacts | internal/application/retention.go:260-281 | the loop over a route's rows computes the facts that FactsMeaning and LastPlayedMeaning describe |
| StorageService.Service.GroupByRoute | internal/application/retention.go:176-186 | rows are grouped by route in order of first appearance, every row in its own group |
| StorageService.Service.RetentionSurvey | internal/application/retention.go:171-204 | the survey loop yields the reference survey of the current rows, routes without a status skipped |
| StorageService.Service.ForgetEngineRows | internal/application/service.go:1630-1644 | row by row deletion leaves the rows the reference deletion leaves, wherever it is cut short |
| StorageService.Service.RemoveTorrent | internal/application/service.go:1619-1628 | the engine is asked once, a refusal leaves the rows alone, and a torrent it no longer knows counts as removed |
| StorageService.Service.EvictNext | internal/application/retention.go:306-323 | the victim is the reference victim of the plan, exactly it is deleted, and without a candidate nothing changes |
| StorageService.Service.RunRetention | internal/application/retention.go:352-397 | the loop is the reference run: same rows, same evictions, same end, freed bytes added up, and the engine removals in that order |
| StorageService.Service.EnsureAllocationRoom | internal/application/service.go:945-984 | the gate is the reference run with the incoming bytes added, terminates, and answers: failed, refused with size, free bytes and capacity, or admitted, as AdmissionMeaning says; a zero cap admits without a look |
| Lifecycle.StepKeepsCoherent | internal/gui/supervisor.go:178-264 | every step of every thread keeps: starting exactly while one thread builds, stopping exactly while one tears down, an app exactly while running or stopping |
| Lifecycle.RunIsCoherent | internal/gui/supervisor.go:178-264 | the same in every interleaving of any number of Start, Stop, Restart and ChangeDataDir calls |
| Lifecycle.StepKeepsGuard | internal/gui/bindings.go:422-518 | with one move under way, every step keeps the guard up over the window and the server idle in it |
| Lifecycle.RunKeepsGuardUp | internal/gui/bindings.go:393-399 | the guard invariant holds in every run with one ChangeDataDir at a time |
| Lifecycle.MoveWindowIsQuiet | internal/gui/bindings.go:433-518 | from the state check, or the completed Stop, until the guard drops the server is stopped or failed, no app is held, built or torn down, and no Start is past the guard |
| Lifecycle.ServesWhereTheDataIs | internal/gui/runner.go:169-200 | the app held and any app being built belong to the directory the holder names; while the server is not idle the data lies there exactly unless a move stranded it |
| Lifecycle.HolderNamesTheDataUnlessStranded | internal/gui/bindings.go:466-518 | outside the steps between relocation and swap, the holder names the directory the data lies in exactly when no move has stranded it |
| Lifecycle.StrandedExactlyBy | internal/gui/bindings.go:466-518 | a step strands the data exactly when it fails after the data has left the holder's directory and before the swap |
| Lifecycle.ResumeNeverStarts | internal/gui/bindings.go:452-462 | the Start that a failed move calls never gets past the guard, which is still set: the stopped server stays stopped |
| LifecycleRuns.OwnershipLostOnlyByStaleFailure | internal/gui/supervisor.go:218-232 | a step leaves an instance that nobody will close exactly when it is a serve failure arriving while another instance is running |
| LifecycleRuns.EveryInstanceIsOwned | internal/gui/supervisor.go:199-264 | in every run without such a failure each open instance is the held one or about to be closed by its goroutine |
| LifecycleRuns.StaleFailureHappens | internal/gui/supervisor.go:218-230 | such a run exists: the new instance serves on while the supervisor reports failed and holds no app |
| LifecycleRuns.FailedServerMayCloseDuringMove | internal/gui/supervisor.go:223-229 | a failed server may still be closing in the directory that is being moved |
| LifecycleRuns.WindowOpenExactlyPendingCloses | internal/gui/bindings.go:433-518 | in the window of a move the open instances are exactly the failed servers whose Close is still pending, so the directory is free of open instances exactly when there is none; for runs with one move and no stale failure |
| LifecycleRuns.TwoMovesBreakTheGuard | internal/gui/bindings.go:424-431 | two moves at once: one clears the flag the other relies on, and a server runs during the relocation |
| LifecycleRuns.GuardLostOnlyByAnotherMove | internal/gui/bindings.go:422-431 | with any number of moves, a step takes the guard from a move that relies on it exactly when another move clears the flag |
| LifecycleRuns.GuardStaysUp | internal/gui/bindings.go:393-431 | in every run without such a step every move in its window finds the guard up |
| LifecycleRuns.StrandedStartServesOldDirectory | internal/gui/bindings.go:476-490 | after a move that fails between relocation and swap, a Start serves the directory the data has left |
| LifecycleEnds.UndisturbedCallEnds | internal/gui/bindings.go:410-524 | a call made at rest that nothing disturbs and no outside call fails, however its steps interleave with the goroutines, ends so: Start and Restart with the server running, Stop with it down and nothing open, a move in the new directory with the server as before; the guard down, and the instance held a new one |
| LifecycleEnds.UndisturbedCallCanEnd | internal/gui/supervisor.go:178-272 | from wherever such a call is it can go on to that end |
| LifecycleEnds.RunsSettle | internal/gui/supervisor.go:178-272 | every run with one move at a time and no stale serve failure that comes to rest is a state such calls may be made in, unless a move has stranded the data |
| LifecycleEnds.MovesRemember | internal/gui/bindings.go:433-522 | in every interleaving, from the relocation to the dropping of the guard a move's flag says whether its own Stop was completed, and it calls Start only if it was |
| LifecycleEnds.RefusedStartChangesNothing | internal/gui/supervisor.go:178-193 | a Start refused by CanStart leaves everything but the lock as it was |
| LifecycleEnds.FailedBuildFails | internal/gui/supervisor.go:199-208 | a server that cannot be built leaves the supervisor failed and nothing more open |
| LifecycleEnds.ServeErrorFails | internal/gui/supervisor.go:216-232 | a serve error while running makes it failed without an app, and the instance is closed by its goroutine; during a Stop it does nothing |
| LifecycleEnds.CloseEndsTheGoroutine | internal/gui/supervisor.go:226-229 | then it closes its own instance and is done, and nothing else changes |
| LifecycleEnds.FailedMoveGivesUp | internal/gui/bindings.go:452-522 | a move that fails after the check gives the guard up without a restart, or tries the Start that the guard refuses |
| Limiter.YoungerIsSuffix | internal/adapters/filelist/client.go:126-133 | on sorted stamps the compaction cuts off a front part: all of it old, none of the rest |
| Limiter.CallKeepsSound | internal/adapters/filelist/client.go:125-153 | any timely call keeps the stored stamps a suffix of all admissions, at most 140, and keeps both rate limits |
| Limiter.EveryHistoryIsSound | internal/adapters/filelist/client.go:125-153 | over every history on a clock that does not run backwards: admissions at least 750 ms apart, and the one 140 places later at least an hour later |
| Limiter.RetryAtIsExact | internal/adapters/filelist/client.go:134-138 | a refusal names exactly the first instant at which a call gets past the ceiling |
| Limiter.CallIsAnswered | internal/adapters/filelist/client.go:125-153 | a timely call is refused exactly when 140 admissions lie within the last hour, until the oldest of them is an hour old; else it gives up exactly when its caller does while the last admission is less than 750 ms ago; else it is admitted |
| Limiter.EveryCallIsAnswered | internal/adapters/filelist/client.go:125-153 | the same for the next call after every history |
| Limiter.Client.DropOlder | internal/adapters/filelist/client.go:127-133 | the in-place compaction leaves exactly the young stamps, in order |
| Limiter.Client.Request | internal/adapters/filelist/client.go:125-153 | one call answers and changes the window as the history model says, a cancelled wait included |
| Bencode.ReadBNode | internal/application/torrentmeta.go:85-144 | the recursive reader with its loops computes the reference reading, errors and the wrapped bounds check included |
| Bencode.ReadNode | internal/application/torrentmeta.go:85-144 | a successful read advances and stays inside the data |
| Bencode.FaultsAreNamed | internal/application/torrentmeta.go:85-144 | which error is reported: nothing there, an integer, list or dictionary without its end, a string without its colon, a length that is none |
| Bencode.LengthOutcome | internal/application/torrentmeta.go:139-144 | what an announced string length leads to, exactly: it is read if it fits the data, refused if it does not but the sum of the bounds check fits 64 bits, and panics the slice otherwise |
| Bencode.PrintedLengthOutcome | internal/application/torrentmeta.go:130-144 | the same for a printed length anywhere in the data: the reader panics exactly when position, prefix and length exceed 64 bits together |
| Bencode.CrashIsHuge | internal/application/torrentmeta.go:85-144 | a whole read, through any nesting of lists and dictionaries, panics only if a string length whose end exceeds 64 bits stands at or behind its start |
| Bencode.SafeExactlyWithoutHuge | internal/application/torrentmeta.go:85-144 | no start from a position on panics the reader exactly when no such length stands there; one can be looked for before reading |
| Bencode.HugeKeyCrashes | internal/application/torrentmeta.go:112-144 | a dictionary whose first key announces such a length panics the reader, whatever follows |
| Bencode.HugeLengthCrashes | internal/application/torrentmeta.go:112-144 | twenty-one bytes that open a dictionary, with anything behind them, are a concrete case |
| Bencode.RoundTrip | internal/application/torrentmeta.go:85-144 | reading the bencoding of any value, wherever it stands and whatever follows, gives that value and stops exactly at its end (BEP 3) |
| Bencode.ReadIsLocal | internal/application/torrentmeta.go:85-144 | a read depends only on the bytes it consumed: the same bytes anywhere else are read as the same node |
| Bencode.NoEncodingExtendsAnother | internal/application/torrentmeta.go:85-144 | no text that is read to its end is a proper prefix of another one |
| Bencode.EncodingIsUnambiguous | internal/application/torrentmeta.go:85-144 | of two values none is encoded as a proper prefix of the other, and equal encodings mean the same node |
| Text.ParseDecimal | internal/application/torrentmeta.go:139-140 | a printed number reads back as itself up to the 64-bit limit and is refused beyond |
| Text.ParseSigned | internal/application/torrentmeta.go:139-140 | with a sign in front it reads as the signed number, the limit for negative ones being one more; a bare sign is refused |
| Manifest.SafePathIsContained | internal/application/torrentmeta.go:153-164 | an accepted path has no backslash, no outer slash and no part that is empty, a dot or two dots, and is accepted again unchanged |
| Manifest.OrdinaryPathIsKept | internal/application/torrentmeta.go:153-164 | a path joined from ordinary names is accepted unchanged and splits into the same names |
| Manifest.ReadRows | internal/application/torrentmeta.go:50-66 | the loop stops at the first bad row, length before path, and otherwise accumulates the offsets of the reference with 64-bit wrap-around |
| Manifest.ReadLayout | internal/application/torrentmeta.go:40-78 | single and multi file metadata, and each error, give the reference layout |
| Manifest.FirstBadRow | internal/application/torrentmeta.go:50-66 | the first row with a bad length or an unsafe path decides, its length first |
| Manifest.ProblemsAreNamed | internal/application/torrentmeta.go:40-78 | for metadata that can be read: no info, a bad length, or an unsafe path, each exactly when it is so |
| Manifest.LayoutCrashIsHuge | internal/application/torrentmeta.go:40-78 | laying out metadata panics only if a string length in it ends beyond 64 bits |
| Manifest.HugeLengthCrashesLayout | internal/application/torrentmeta.go:40-43 | metadata that opens with such a key panics before anything else is looked at |
| Manifest.FilesAreGood | internal/application/torrentmeta.go:50-66 | files are numbered in row order, with lengths in range and safe paths |
| Manifest.RowsTile | internal/application/torrentmeta.go:48-66 | the files tile the torrent without gap or overlap exactly when the last one begins at an offset that fits 64 bits |
| Manifest.WrittenTorrentIsLaidOut | internal/application/torrentmeta.go:40-66 | metadata written for any list of ordinary files, with anything behind it, is laid out as exactly those files |
| Manifest.WrittenFileIsLaidOut | internal/application/torrentmeta.go:67-77 | metadata written for a single file is laid out as that file, or refused exactly when its name is no safe path |
| Ranges.ParseRange | internal/adapters/httpapi/api.go:1257-1296 | whatever is served lies inside the file; it is the whole file without a header, and counts as a part exactly with one |
| Ranges.PrintedRangeIsUnderstood | internal/adapters/httpapi/api.go:1257-1296 | a printed range is answered as section 14.1.2 of RFC 9110 says, exactly unless it is satisfiable and the number behind the dash does not fit 64 bits |
| Ranges.HugeLastPositionIsRefused | internal/adapters/httpapi/api.go:1283-1289 | a last position past 64 bits is such a case: valid by the standard, refused here |
| Streaming.ReadyMeansEveryByte | internal/application/service.go:1979-1992 | the piece arithmetic is exact: the range is ready exactly when every byte of it, at its global offset, lies in a piece that is there |
| Streaming.CompleteMeans | internal/application/service.go:1970-1989 | a byte's piece is there when, with the engine's piece size or else the recorded one, it is in the list and in state 2 |
| Streaming.WaitEndsAtFirstReady | internal/application/service.go:1960-2001 | a wait ends well exactly at the first poll that has every byte, if no poll before it failed and the caller stayed |
| Streaming.WaitRange | internal/application/service.go:1960-2001 | the polling loop is that wait |
| Streaming.ReadableRangePath | internal/application/streaming.go:42-114 | a path is handed out exactly when the complete file is still long enough where it lies, or the wait for the pieces and the probing of the path end well; it is the recorded path or one the engine reported, and at the last tick it opened with the range's last byte there |
| Streaming.ProbePath | internal/application/streaming.go:79-106 | the probing ends at the first tick at which the path last reported opens with the byte there, if the caller stays that long |
| Streaming.CopyRange | internal/adapters/httpapi/api.go:1061-1094 | the buffered copy writes the file's bytes from the offset in order, never more than asked; it succeeds, with all of them, exactly when the file opens and for every buffer the caller is there, the file holds it and it is taken |
| Streaming.UnhinderedIsGranted | internal/application/streaming.go:30-114 | a range in which nothing is in the way is granted |
| Streaming.ChunkLowersBound | internal/adapters/httpapi/api.go:1030-1054 | each chunk of the adaptive loop lowers the bound on chunks still needed |
| Streaming.DoublingsIsLog | internal/adapters/httpapi/api.go:1052 | the number of doublings is the logarithm of read-ahead over first chunk, rounded up |
| Streaming.Stream | internal/adapters/httpapi/api.go:1030-1058 | whatever fails, the written bytes are the file's own from start on; a completed stream wrote all of them, and it completes when nothing is in the way; chunks are contiguous, each was backed when awaited, and there are at most ceil(log2(R/F)) + ceil(len/R) |
| Streaming.Serve | internal/adapters/httpapi/api.go:969-1058 | status, announced length and body agree: 416 exactly for a refused range, 503 exactly when the first slice is not granted, no body on errors and HEAD; and when nothing is in the way, for a complete file or one whose pieces are there, the answer is 200 or 206 and the body is exactly the range's bytes |
| Workers.StepKeepsSound | internal/application/service.go:98-122 | every step, cancelled waits included, keeps tokens in the channels equal to their holders and within capacity |
| Workers.GivingBackNeverWaits | internal/application/service.go:117-122 | a release never blocks |
| Workers.EveryRunIsSound | internal/application/service.go:98-122 | in every interleaving at most `limit` job bodies, one tracker body and one synchronization are under way |
| Workers.SomeoneCanProceed | internal/application/service.go:98-115 | no deadlock: while a worker is busy some busy worker can step without giving up |
| Workers.WorkIsFinite | internal/application/service.go:151-197 | however they are scheduled, busy workers stop after a bounded number of steps when no new job comes |
| Workers.JobsCanAllFinish | internal/application/service.go:344-350 | from every reachable state all jobs can finish with nobody giving up, and then every token is back |
| Workers.JobRunsOnceUnlessGivenUp | internal/application/service.go:98-122 | a worker that has a job runs its body exactly once before it is idle again, unless it gave up waiting for a token, and then not at all |
| EventBus.EveryRunIsSound | internal/application/service.go:199-245 | in every interleaving of publishing, subscribing, receiving and cancelling no channel is closed twice or sent to after closing, and what a subscriber was sent is a gap-free piece of the fan-out from where it joined |
| EventBus.DropsExactlyTheSlow | internal/application/service.go:212-219 | a fan-out closes exactly the subscribers with 32 unread events, and the first event such a one misses is this one; every other subscriber is sent it and nobody else's channel is touched |
| EventBus.PanicsOnClosedChannels | internal/application/service.go:212-244 | what would panic: a send on, or a close of, a channel that is closed already |
| EventBus.MissedBetweenReplayAndSubscription | internal/adapters/httpapi/api.go:616-623 | an event passes a replaying client by exactly when it was fanned out before the client subscribed and was not newer than the last one seen, not yet journaled, or over the limit, when the replay was answered |
| EventBus.AnEventSlipsThrough | internal/adapters/httpapi/api.go:616-623 | this happens, by a concrete run of three steps |
| EventBus.OrderMayDiffer | internal/application/service.go:206-210 | numbering happens outside the mutex, so a subscriber may get two events out of journal order, by a concrete run |
| EventBus.LogInvertedExactlyWhenOvertaken | internal/application/service.go:199-221 | a run's fan-out is out of journal order exactly when some event was fanned out while a lower number that is fanned out by now was still pending |
| EventBus.SubscriberSeesInversion | internal/application/service.go:206-236 | what a subscriber was sent is out of order exactly when one of its events was overtaken in this way after it joined |
| EventBus.Hub.Deliver | internal/application/service.go:212-219 | the loop over the subscriber map, in any order, is the reference fan-out and never panics |
| EventBus.Hub.Leave | internal/application/service.go:237-244 | cancelling closes a subscribed channel once and otherwise changes nothing |
| ConfigMerge.MergeConfig | tools/qbittorrent_config.py:48-96 | the line loop with its nested inserter computes the reference merge |
| ConfigMerge.MergeMeaning | tools/qbittorrent_config.py:73-96 | for a newline-terminated configuration: every managed line of every [Preferences] carries the managed value, the first [Preferences] has every key, and all other lines keep their bytes and order, one header added if there was none |
| ConfigMerge.MergeInsertsOneBlock | tools/qbittorrent_config.py:64-96 | the merged lines are the original ones, managed ones rewritten in place, with one block put among them: missing settings, behind a header if there was no section |
| ConfigMerge.ReplacementKeepsKeyAndEnding | tools/qbittorrent_config.py:81-87 | a rewritten line sets the same key, carries the managed value and keeps its line ending |
| ConfigMerge.HeaderMeaning | tools/qbittorrent_config.py:74-78 | a header is a name, possibly empty, between brackets |
| ConfigMerge.NewlineMeaning | tools/qbittorrent_config.py:58 | added lines end with a carriage return and line feed exactly when these stand somewhere in the text |
| ConfigMerge.FixedExactlyWhenSettled | tools/qbittorrent_config.py:73-96 | the merge changes nothing exactly when the configuration already says all that |
| ConfigMerge.MergeIsIdempotent | tools/qbittorrent_config.py:48-96 | merging twice is merging once, for a newline-terminated configuration |
| ConfigGlue.GluesExactlyWhen | tools/qbittorrent_config.py:64-96 | with an unterminated last line the written lines stay lines exactly unless the text ends inside its first [Preferences] with a key missing and an unmanaged last line |
| ConfigGlue.BareHeaderGlues | tools/qbittorrent_config.py:89-90 | an unterminated header alone is such a text |
| ConfigAnyText.MergeAppends | tools/qbittorrent_config.py:88-96 | without a [Preferences] section, however the text ends, the merge keeps it byte for byte and appends a terminator if one is missing, a header and every setting |
| ConfigAnyText.MergeSettlesExactly | tools/qbittorrent_config.py:48-96 | for every text the merged one says all that MergeMeaning promises exactly unless the text glues, and behind a section the unmanaged lines keep their bytes |
| ConfigAnyText.FixedExactlyWhenSettledAlready | tools/qbittorrent_config.py:48-96 | for every text the merge changes nothing exactly when it already says all that |
| ConfigAnyText.MergingTwice | tools/qbittorrent_config.py:48-96 | for every text merging twice is merging once exactly unless the text glues |
| Lines.SplitOfJoin | tools/qbittorrent_config.py:57 | lines that stay apart are found again in their concatenation, under all of Python's line separators |
| LogTail.ReadLogTail | internal/gui/bindings.go:636-685 | narrowing and splitting the buffer gives the reference tail; a missing file is an empty tail |
| LogTail.LooksAtTheLastQuarterMebibyte | internal/gui/bindings.go:645-672 | a new part of at most 256 KiB is taken as it is; a longer one is cut to less than that |
| LogTail.FollowerSeesEveryLine | internal/gui/bindings.go:636-685 | a follower of a growing file that keeps within the cap gets every complete line exactly once, in order and unsplit |
| LogTail.BlockOfWholeLines | internal/gui/bindings.go:653-675 | one call from a line boundary returns a block of new whole lines up to the last complete one, and skips lines exactly when the cap cuts in, unless one line fills the window |
| LogTail.CappedBlock | internal/gui/bindings.go:653-675 | when the cap cuts in and the window holds a line feed, from any offset: the block starts on a line boundary and is the last whole lines of the file, up to the last complete one |
| LogTail.NextIsBoundary | internal/gui/bindings.go:664-684 | the next offset is a line boundary again exactly unless one line fills the window |
| LogTail.CutLineIsDropped | internal/gui/bindings.go:664-671 | under the cap the file's complete lines are those before the cut, one line that is not shown, and those shown; the unshown one lies whole inside the window exactly when the cut falls on a boundary |
| MediaState.AggregateMediaStates | internal/application/catalog.go:398-448 | the counting loop computes the reference aggregate |
| MediaState.AggregateMeaning | internal/application/catalog.go:398-448 | a group that needs all members is downloaded (watched) exactly when all are, one that does not when any is; it counts as absent (unwatched) exactly when all are |
| MediaState.FurthestAndMostUrgent | internal/application/catalog.go:405-420 | a group shows its greatest progress, named by the first member that has it, and the most urgent transfer state among its members |
| MediaState.UrgencyOrder | internal/application/catalog.go:451-457 | idle, complete, paused, waiting, active, failing: from least to most urgent |
| MediaState.SeasonsOrEpisodes | internal/application/catalog.go:382-448 | aggregating seasons of aggregated episodes equals aggregating all episodes exactly when no season is empty or the show is neither fully downloaded nor fully watched; transfer, progress and download id always agree |
| MediaState.AnEmptySeasonHidesTheDownload | internal/application/catalog.go:382-448 | a concrete case: a finished season beside an empty one counts as partly downloaded and partly watched |
| MediaState.PackSourceState | internal/application/catalog.go:221-286 | the loops over a pack's episodes and sources compute the reference pack state |
| MediaState.PackProgressIsBetween | internal/application/catalog.go:244-266 | a pack's weighted progress lies between its least and greatest file progress |
| MediaState.PackDownloadMeaning | internal/application/catalog.go:268-284 | a pack is downloaded exactly when all its files are, else failed when one is, else loading, else waiting when one is, and absent exactly when none is managed |
| MediaState.PackWatchMeaning | internal/application/catalog.go:241-243 | it counts as watched exactly when all its files are, as unwatched when none was started, and shows their aggregate transfer state |
| MediaState.ChosenAddsUp | internal/application/catalog.go:221-240 | a pack consists of the sources of its release, in order, each weighing its size, or one if that is unknown |
| MediaState.PackIdMeaning | internal/application/catalog.go:249-251 | the download named is the last one among the furthest files that has one; it is empty only if none has |
| Reconcile.ReconcileDownloads | clients/shared/src/index.ts:19 | the loops compute the reference reconciliation |
| Reconcile.ReconciledIds | clients/shared/src/index.ts:19 | from a list with distinct ids the result has exactly the distinct incoming ids once each, new ones first in incoming order, kept ones in their old order |
| Reconcile.ReconciledRows | clients/shared/src/index.ts:18-19 | a new row is the incoming one, a kept row the old one or its spread; it shows what the incoming row shows exactly unless a shown field lingers |
| Reconcile.LooksAlike | clients/shared/src/index.ts:18 | two rows look alike exactly when they agree in each of the thirty-five shown fields, listed one by one |
| Reconcile.KeptShowsNext | clients/shared/src/index.ts:18-19 | a field lingers when the newer row no longer has it and the older one fills it |
| Reconcile.LeftOutFieldStays | clients/shared/src/index.ts:18-19 | a shown field that the newer row leaves out goes on being shown, whatever the rows are otherwise |
| Reconcile.AClearedFieldStays | clients/shared/src/index.ts:15-19 | a concrete case with every field a download must have: an error the newer row no longer has stays |
| Reconcile.CompleteRowsAreShown | clients/shared/src/index.ts:18-19 | if every incoming row carries every shown field and the parsed release, as the server's rows do (api.go line 1254), every row of the result shows what its incoming row shows |
| Reconcile.ReconcileIsIdempotent | clients/shared/src/index.ts:19 | reconciling again with the same list changes nothing |
| PortalSync.Mirror.AbsorbEvent | clients/shared/src/index.ts:145-155 | an event changes the mirror and is reported applied as the reference says |
| PortalSync.EveryRunIsFaithful | clients/shared/src/index.ts:128-173 | in every run the mirror shows what was last written by an accepted event or a successful fetch; nothing at or below the highest number at the last disconnect is accepted afterwards; nothing is refused but during a refetch or as stale |
| PortalSync.NoEventCrossesADisconnect | clients/shared/src/index.ts:145-161 | an event accepted after a disconnect has a higher number than every event accepted before it |
| PortalSync.NothingDuringTheRefetch | clients/shared/src/index.ts:162-172 | with one recovery in flight at a time nothing is accepted between the beginning of a refetch and its end |
| PortalSync.AcceptedExactlyWhenOpenAndFresh | clients/shared/src/index.ts:145-172 | in every run an event is accepted exactly when no refetch is open and its number, if any, is above the highest one at the last disconnect |
| PortalSync.AcceptedWithRecoveryInFlight | clients/shared/src/index.ts:145-172 | with recoveries still in flight it is accepted exactly when another one has ended since the last began and the number is fresh |
| PortalSync.OverlapOverwritesAnEvent | clients/shared/src/index.ts:162-172 | with two in flight an accepted event is overwritten by an older fetch, by a concrete run |
| Percent.DecodeOfEncode | clients/shared/src/routes.ts:42-57 | percent-decoding inverts percent-encoding (section 2.1 of RFC 3986) on all bytes |
| Percent.FormDecodeOfEncode | clients/shared/src/routes.ts:45-62 | reading form text inverts writing it, and also inverts the component encoding the search URL uses |
| Percent.KeepsJustThese | clients/shared/src/routes.ts:55-62 | the characters each encoder leaves as they are, listed |
| Percent.HexDigitsAre | clients/shared/src/routes.ts:42-62 | escapes are written with the sixteen upper-case digits and read in either case |
| Routes.ParseOfBuild | clients/shared/src/routes.ts:36-68 | parsing the URL of a canonical route gives the route |
| Routes.ParsedIsCanonical | clients/shared/src/routes.ts:36-53 | every path and query parses to a canonical route |
| Routes.ParseBuildParse | clients/shared/src/routes.ts:36-68 | parse, build, parse equals parse for every path and query |
| Routes.TrailingSlashIsIgnored | clients/shared/src/routes.ts:37 | a slash at the end of a path other than the root makes no difference |
| Routes.FixedUrls | clients/shared/src/routes.ts:55-68 | a view without an id or a query has its fixed URL, an unknown one the root |

## Left out

- RetentionRun.RunEvictsShortestPrefix: requires the surveyed facts of the remaining routes to survive every eviction (`Pinned`), because the order itself changes when they do not; LastPlayedAtHomePins and PinnedExactly say when they survive, and the safety theorems of Retention need no such condition.
- StorageService.Service.RunRetention: job records, log entries and published events are not part of the state; the engine removals are. The sample of one look is read once, so rows that other requests insert or delete while a run is under way are not modelled.
- StorageService.Service.EnsureAllocationRoom: the incoming torrent's size is an argument; how it is looked up is not modelled.
- Retention.DeficitAt: caps are in bytes; the conversion from gibibytes is floating point and not modelled. Stored bytes are summed without 64-bit wrap-around.
- EvictionOrder.CompareRule: the normalized rule list is an argument; normalizing it belongs to the configuration package.
- Sorting.SortInPlace: straight insertion stands in for the library's sort. How it arranges tied elements is not the library's business; candidates for eviction never tie (AnySortGivesTheOrder).
- Survey.OneTitleFactsStayExactly: for a route of several titles only the sufficient half, FactsStay, is stated, because a favourite or watched flag, or a later playback, of one title can hide the loss of another.
- Lifecycle.RunIsCoherent: the change callbacks, the listen address and log lines are not modelled, and a call into the outside either returns or fails; one that never returns is a thread that takes no further step.
- Lifecycle.StrandedExactlyBy: relocation moves the data or leaves it, as the outside answers, and refuses a target that already holds it; copying in part is not modelled.
- Lifecycle.MoveWindowIsQuiet: is stated for one ChangeDataDir at a time, because the flag is a plain boolean; TwoMovesBreakTheGuard shows that this is needed.
- LifecycleEnds.UndisturbedCallEnds: is about calls made at rest with no other call in between; what interleaved calls end in is not claimed beyond the invariants, because it depends on their order.
- LifecycleEnds.UndisturbedCallCanEnd: says that such a call can come to its end; that the scheduler lets it is not claimed.
- Limiter.Client.Request: credentials, and retries on the wire after admission, are not modelled; the limits are on admissions.
- Bencode.ReadBNode: the panic of a slice out of range is an outcome of its own, `Crash`, that ends the reading; nothing behind it is modelled.
- Bencode.CrashIsHuge: goes one way, because the same bytes inside a string's content are skipped; LengthOutcome is exact for a length the reader reaches, and SafeExactlyWithoutHuge over all starts.
- Bencode.RoundTrip: the data is no longer than a Go slice can be, 2^63 - 1 bytes.
- Manifest.ReadLayout: whether a file is playable, the size limit on the metadata, and the manifest cache are not modelled.
- Streaming.Serve: asks that the read-ahead setting is at least one byte, without which the loop does not advance; conditional requests, content types, flushing and looking the source up are not modelled.
- Streaming.Stream: the bytes are the file's own under the hypothesis that the engine is honest, which `Honest` spells out: a piece it reports as there is read correctly from then on.
- Streaming.ReadableRangePath: the choice and containment of the content path are an answer of the outside; the deadline is a number of tries.
- Workers.JobsCanAllFinish: says that the jobs can finish, and WorkIsFinite that they stop; fairness among waiting workers is not claimed.
- EventBus.EveryRunIsSound: one fan-out is one step of the machine. Receiving in the middle of it only touches the receiver's own channel and is the same as receiving just before or just after.
- ConfigMerge.MergeConfig: decoding the file, reading a template and the command line are not modelled; keys and values are clean as the shipped ones are, that is, without line breaks, and keys without an equals sign and not starting like a comment or a header.
- ConfigAnyText.MergeSettlesExactly: where the text glues it says only that the result is not settled, not what the glued line is.
- LogTail.ReadLogTail: the file is one snapshot for each call; a file that shrinks between its size being read and its content being read is not modelled.
- MediaState.PackProgressIsBetween: real arithmetic, without rounding.
- Reconcile.ReconcileDownloads: the fingerprint is the list of texts; the separator that joins them does not occur in a field. Sorting the list is not modelled.
- PortalSync.EveryRunIsFaithful: change listeners and the contents of the snapshots are not modelled.
- Routes.ParseOfBuild: the platform's reading and printing of numbers and its repair of malformed query text are arguments with the three laws of `Regular`; text that cannot be encoded as UTF-8 does not occur.
- Subtitles, probing, playback sessions, adapters for qBittorrent, TMDB and SQLite, the portal hub, updates, the Tizen and desktop user interfaces: mostly calls to the outside or single branches.
