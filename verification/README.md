# Verified models of Zed's automation scripts and small protocol cores

This Dafny project models eleven self-contained pieces of the Zed repository and proves properties of
them over all inputs, all runs or all interleavings. Loops and objects of the originals are methods and
classes here, each proved equal to a specification function; what the code promises is then proved about
those functions. Most modules have a companion (`GuildRules`, `SlateRules`, `ReportRules`, `EtwStory`, ...) that
says what the operations do in terms of the inputs' own fields alone: the labels, days, limits and messages in
its statements are written out.

| module | models |
|---|---|
| `GuildBoard`, `GuildSweep`, `GuildRules`, `GuildPromise`, `GuildCheckIns`, `GuildProgress` | the stale-assignment sweep: nudge after 14 quiet days, clear 7 days later. An issue carries its comments and its assignment timeline, a run interleaves sweeps with everything people do, and guild membership may differ from one event to the next. |
| `DuplicateMagnets`, `MagnetRoundTrip`, `ReportRules` | the duplicate-magnet report: the script that prints it as markdown and the script that reads it back (with `Text`, `StableSort` and `Seqs`). |
| `TriageQueue` | the triage board's business-day window and the sync that keeps the board equal to it. |
| `CandidateSelection`, `SelectionOrder`, `MatchPipeline`, `SlateRules` | the duplicate finder: quota allocation, the filter for issues the author already mentions, resolution of the model's answer, and the second opinion. The model's answers are arbitrary. |
| `SkillSlug`, `SlugLaws`, `Frontmatter`, `FrontmatterRules` | skill names and the scanner for the end of a skill's YAML frontmatter (with `Utf8` and `Utf8Scalars`). |
| `ExcerptRanges`, `TerminalOutput` | merging of excerpt ranges, and truncation of terminal output. |
| `LegacyThread`, `UpgradePlaces` | the upgrade of stored threads from version 0.1.0. |
| `EtwRecorder`, `EtwStory`, `EtwProgram` | the protocol between the editor and the elevated ETW recorder, as a transition system of two processes. |
| `TriageDerivation` | the triage status cascade and the aging anchor. |
| `ReleaseNotes` | the line state machine that turns release notes into list markup. |

`dafny verify dfyconfig.toml` checks everything. Every lemma carries `{:induction false}`: no proof rests on
an induction hypothesis that is not written out in it.

## Where the code and its descriptions differ

The model follows the code. Each difference is a lemma.

- **Guild sweep.** The check-in is not tied to an assignee, every sweep asks anew who is in the guild, and
  a reply with the check-in's own timestamp does not count as a reply. So the 21-day promise holds when a
  sweep that acts finds one guild member assigned, nobody joins the guild while assigned, and no comment or
  assignment has the timestamp of the check-in before it (`ClearedOnlyAfterThreeQuietWeeks`); other events
  may share timestamps. No condition can be dropped: a second assignee is unassigned a day after commenting
  (`SecondAssigneeClearedEarly`), someone the cohort takes in between check-in and clearing after eight
  days (`JoinerClearedEarly`), and the only member there ever is a week after a reply in the instant of the
  check-in (`SameInstantReplyIgnored`). Apart from such ties, the promise is kept exactly by a guild of at
  most one person (`PromiseExactlyForOne`); with them, by no guild that has a member
  (`PromiseWithTiesExactlyForNobody`).
- **Triage window.** "Eligible once a full business day has elapsed" fails for exactly one family: on a
  Tuesday, issues of the weekend just past (`ElapsedRuleExactlyWhen`, `SundayIssueWaits`).
- **Triage sync.** The search stops at 1000 results; the board equals the queue if and only if no more
  match (`RetrievesAllIff`). "Added at most once while open" holds over all runs whose searches match at
  most n issues if and only if n is at most 1000 (`AddsOnlyOnceExactlyUpTo`); with one more, an issue is
  added, dropped and added again on the same day (`CrowdedIssueIsReadded`).
- **Duplicate report.** The areas of a magnet come back unchanged exactly when each is nonempty, without
  white space at its ends and not the placeholder (`AreasComeBackExactlyWhen`); the label `area: x` comes
  back as `x` (`PaddedLabelIsStripped`), and a magnet all of whose areas are blank is not read back at all
  (`LostExactlyWhenBlank`, `BareLabelLosesMagnets`).
- **Candidate quotas.** The reserved places are honoured for every list if and only if the limit is at
  least six (`ReservationsHonouredIff`).
- **Slugs.** The documentation gives "no ASCII alphanumeric character" as an example of having no slug;
  an input with `&` has one, since `&` becomes `and` (`NoSlugExactlyWhen`).
- **Triage status.** "No non-staff reply since" overlooks a reply if staff or a bot had the last word after
  it, or if it has no timestamp or that of the question; it is right exactly when nobody replied or the
  last comment is a reply timed after the question (`AwaitingUserIsRightExactlyWhen`, `ThanksHidesReply`,
  `UntimedReplyIsOverlooked`).
- **Thread upgrade.** A tool-result message overwrites results that its predecessor already has
  (`SecondRoundOverwrites`), and any text it has is dropped; the exact conditions for losing nothing are
  `ResultsConservedExactlyWhen` and `NothingSaidIsLostExactlyWhen`.
- **ETW recorder.** The editor reads `Started` through a buffered reader and takes the reader apart, so a
  status buffered with it is lost and a saved trace can be reported as a failure (`BufferedStatusIsMissed`).
  The outcome is told exactly when that does not happen (`OutcomeIsToldExactlyWhen`).
- **Release notes.** A line that is both list item and code fence, and a body that ends on a list line in
  an open fence, can break the nesting; the exact condition is `WellNestedExactlyWhen`, said of the lines
  alone in `WellNestedWithoutClash` and `WellNestedAfterClash`.

## Model

| member | source | states |
|---|---|---|
| GuildBoard.LastActivityIsLatest | script/github-guild-board.py:172-186 | The activity clock is the latest moment at which the assignee was assigned or commented; it is missing only if the timeline has no assignment event. |
| GuildBoard.LatestCheckInIsMax | script/github-guild-board.py:427-433 | The check-in clock is the latest check-in on the issue, and is missing only if there is none. |
| GuildSweep.Board.ScanComments | script/github-guild-board.py:620-634 | The single pass over the comments yields both clocks. |
| GuildSweep.Board.SweepItem | script/github-guild-board.py:595-675 | One item is left, nudged, cleared or raised on as decided from its own logs, and no other item changes; what is decided is said of the fields in the `GuildRules` rows. |
| GuildSweep.Board.RunStale | script/github-guild-board.py:591-677 | A sweep treats every item independently and in order up to the first that raises; the printed counts are the numbers of items nudged and of items cleared. |
| GuildBoard.StepShape | script/github-guild-board.py:436-491 | Comments, assignments, handlers and sweeps only append to the logs, and only a sweep writes a check-in. |
| GuildRules.SweepKeepsHandsOff | script/github-guild-board.py:595-616 | A sweep leaves an issue exactly as it is that is archived, no issue, not In Progress, has an open closing pull request, the label `guild hold` among its first twenty, or no guild member among its first ten assignees. |
| GuildRules.SweepActsExactlyWhen | script/github-guild-board.py:618-675 | On any other issue, exactly: with no check-in since the first guild assignee was last active, that assignee is nudged after 14 days; with one, all listed guild assignees are unassigned and the issue moved to its type's column once every check-in is 7 days old; otherwise nothing changes. |
| GuildRules.SweepRaisesExactlyWhen | script/github-guild-board.py:172-186 | A sweep fails on an issue exactly if it may act on it and the assignee it looks at has no assignment on the timeline. |
| GuildRules.SweepsKeptAway | script/github-guild-board.py:591-616 | If at every sweep of a run something keeps it away, the run ends as it would without its sweeps. |
| GuildRules.PauseIsInvisible | script/github-guild-board.py:609-616 | Putting on a hold, linking a pull request, archiving or moving an issue away, any number of sweeps, and undoing it leaves the issue as it was. |
| GuildRules.TakenAndGivenBack | script/github-guild-board.py:436-491 | Assigning an open issue to a guild member moves it to In Progress and unassigning them moves it back to its type's column, unless a bot did it; only the timeline entry remains. |
| GuildRules.HandlersMoveNothingElse | script/github-guild-board.py:436-491 | The handlers move nothing for people outside the guild, on closed issues, for bots, or from another column or type. |
| GuildRules.HandlersSeeTheIssue | script/github-guild-board.py:436-491 | The handlers go by the issue as it is then: one just closed is not moved, and one just given another type is moved by that. |
| GuildPromise.ClearedOnlyAfterThreeQuietWeeks | script/github-guild-board.py:591-657 | Over every run in order of time, with guild membership asked anew at every sweep: if sweeps that act find one guild member assigned, nobody joins the guild while assigned, and no comment or assignment has the timestamp of the check-in before it, whoever a sweep unassigns has been inactive for at least 21 days. |
| GuildPromise.FirstAssigneeKeepsGracePeriod | script/github-guild-board.py:618-657 | With any number of assignees, the one the sweep looks at has been inactive for at least the seven days of grace. |
| GuildPromise.SecondAssigneeClearedEarly | script/github-guild-board.py:618-657 | For any two people in a fixed guild, a run unassigns the second assignee one day after their comment. |
| GuildPromise.JoinerClearedEarly | script/github-guild-board.py:148-162 | For any two people, a run with never more than one guild member assigned, in which one leaves the guild and the other joins, unassigns the latter eight days after their comment. |
| GuildPromise.SameInstantReplyIgnored | script/github-guild-board.py:636-657 | For any one person, alone in the guild and alone assigned, a run unassigns them seven days after a reply that has the timestamp of the check-in. |
| GuildPromise.PromiseExactlyForOne | script/github-guild-board.py:604-657 | Over everything that can happen to any issue, but for activity with the timestamp of the check-in before it, while guild membership stays within a set of people, the 21-day promise holds if and only if the set has at most one member. |
| GuildPromise.PromiseWithTiesExactlyForNobody | script/github-guild-board.py:604-657 | With such activity allowed, it holds if and only if the set is empty. |
| GuildCheckIns.EveryCheckInIsEarned | script/github-guild-board.py:620-650 | Over every run, each check-in comes at least 14 days after an activity of its addressee that is later than all earlier check-ins. |
| GuildCheckIns.NudgesAreRare | script/github-guild-board.py:636-650 | Over every run, n check-ins need n - 1 full check-in windows, however often sweeps run. |
| GuildBoard.SweepNeverRaises | script/github-guild-board.py:172-186 | Over every run that starts with logged assignees, no sweep fails for want of an assignment event. |
| GuildProgress.AbandonedIsClearedInTime | script/github-guild-board.py:595-675 | If sweeps are at most `gap` apart, people leave an abandoned issue as it is and its sweeps find one guild assignee, it is cleared and back in its type's column: from any time on, within a week of an outstanding check-in plus one gap, and otherwise within 21 days plus two gaps of the last activity, counting from that time what has already passed. |
| TriageQueue.WindowEndsTwoBusinessDaysBack | script/github-triage-queue-board.py:87-100 | Every window is nonempty and ends on the business day before the business day before the effective day, which is today or the Friday before a weekend. |
| TriageQueue.EligibleOnlyOnceABusinessDayElapsed | script/github-triage-queue-board.py:97-99 | Nothing is eligible before a full business day has elapsed since its creation. |
| TriageQueue.ElapsedRuleExactlyWhen | script/github-triage-queue-board.py:97-99 | The stated rule and the window's end agree except for weekend issues on the Tuesday after, and disagree for those. |
| TriageQueue.SundayIssueWaits | script/github-triage-queue-board.py:97-99 | A Sunday's issue is not eligible on Tuesday although all of Monday has elapsed. |
| TriageQueue.WindowStartsPriorThursday | script/github-triage-queue-board.py:94-96 | The window starts on the Thursday before the week of today. |
| TriageQueue.WindowIsMonotone | script/github-triage-queue-board.py:87-100 | Both ends of the window are monotone in the date. |
| TriageQueue.EligibleDaysAreARun | script/github-triage-queue-board.py:87-100 | For every creation day, the days on which it is eligible are one nonempty contiguous run, with its first and last day given. |
| TriageQueue.EligibleIssues | script/github-triage-queue-board.py:103-118 | Paging returns the first thousand results, all of them if there are fewer. |
| TriageQueue.RetrievesAllIff | script/github-triage-queue-board.py:116-118 | The search retrieves every match if and only if at most 1000 match. |
| TriageQueue.Project.AddMissing | script/github-triage-queue-board.py:191-195 | The issues of the board become those it had and the eligible ones; every earlier item stays. |
| TriageQueue.Project.RemoveStale | script/github-triage-queue-board.py:197-201 | Exactly the listed issue items that are not eligible leave the board. |
| TriageQueue.Project.SyncProject | script/github-triage-queue-board.py:182-201 | A sync makes of the board what adding the missing and then removing the stale makes of it: exactly the retrieved issues, which for a complete search are exactly the open issues created in the window; items without issue content are untouched; a dry run changes nothing. |
| TriageQueue.OnBoardExactlyWhen | script/github-triage-queue-board.py:103-118 | After a complete sync of a run, an open issue is on the board exactly on the days from its first to its last eligible day. |
| TriageQueue.AddedAtMostOnce | script/github-triage-queue-board.py:182-201 | Folding the sync step over any chronological run of complete searches, an issue that stays open is added at most once. |
| TriageQueue.NeverReadded | script/github-triage-queue-board.py:182-201 | In such a run, an issue that a sync has taken off while open is never put back. |
| TriageQueue.CrowdedIssueIsReadded | script/github-triage-queue-board.py:116-118 | With one match above the cap, an open and eligible issue is added, dropped and added again by three syncs of one day. |
| TriageQueue.AddsOnlyOnceExactlyUpTo | script/github-triage-queue-board.py:103-201 | "Added at most once while open" holds for all runs whose searches match at most n issues if and only if n is at most 1000. |
| CandidateSelection.SelectSearchCandidates | script/github-check-new-issue-for-duplicates.py:613-638 | The selection loops compute the selection the lemmas below speak of. |
| CandidateSelection.SelectionIsFull | script/github-check-new-issue-for-duplicates.py:613-638 | For every limit and list: no key twice, nothing invented, and min(limit, number of distinct keys) candidates. |
| CandidateSelection.QuotasFit | script/github-check-new-issue-for-duplicates.py:617-623 | The five quotas sum to at most the limit if and only if the limit is at least six. |
| CandidateSelection.ReservationsFitFromSix | script/github-check-new-issue-for-duplicates.py:613-638 | From limit six on, each channel's first `quota` matches are all on the slate. |
| CandidateSelection.ReservationsFailBelowSix | script/github-check-new-issue-for-duplicates.py:613-638 | Below six, a concrete list of six candidates loses a reserved one. |
| CandidateSelection.ReservationsHonouredIff | script/github-check-new-issue-for-duplicates.py:614-638 | The reservations are honoured for every list if and only if the limit is at least six. |
| SelectionOrder.SelectedInOrder | script/github-check-new-issue-for-duplicates.py:613-638 | The selection is the first `limit` candidates with distinct keys, in order, of: the first max(2, limit/3) semantic matches, max(1, limit/10) error-pattern ones, max(1, limit/6) title ones, max(1, limit/5) popular-area ones, max(1, limit/6) area-label ones, then all. |
| SelectionOrder.FirstOfEachExactly | script/github-check-new-issue-for-duplicates.py:625-628 | Of the offers with one key, the one that comes first is taken. |
| MatchPipeline.SlateIsFull | script/github-check-new-issue-for-duplicates.py:831-855 | The slate is the first ten magnets, as many as thirty open and ten closed non-magnet issues with distinct keys, and the first ten open discussions, each part short only for want of candidates. |
| SlateRules.FirstTenMagnets | script/github-check-new-issue-for-duplicates.py:833-851 | A magnet with fewer than ten magnets before it is on the slate, at that very place. |
| SlateRules.FirstTenDiscussions | script/github-check-new-issue-for-duplicates.py:845-855 | An open discussion with fewer than ten before it is on the slate. |
| SlateRules.IssuesOffered | script/github-check-new-issue-for-duplicates.py:835-854 | Of the keys of open issues that are no magnet's, as many are offered as there are, or thirty; of closed ones, or ten. |
| SlateRules.IssueIsOffered | script/github-check-new-issue-for-duplicates.py:835-854 | An open or closed issue whose key is no magnet's is offered, unless thirty other open ones, or ten closed ones, are. |
| SlateRules.NothingElseIsOffered | script/github-check-new-issue-for-duplicates.py:831-855 | At most sixty candidates are offered, all of them given, and no closed discussion but a magnet. |
| MatchPipeline.ResolveMatches | script/github-check-new-issue-for-duplicates.py:1042-1059 | The resolving loop computes the resolution the next lemma speaks of. |
| MatchPipeline.ResolveIsExact | script/github-check-new-issue-for-duplicates.py:1042-1059 | Every resolved match names an offered candidate in the expected state, with a root cause if it is an open issue; no key is resolved twice; no key with an acceptable match is lost. |
| MatchPipeline.ProposedIsDistinct | script/github-check-new-issue-for-duplicates.py:1061-1071 | The likely and possible matches are repetition-free and disjoint. |
| MatchPipeline.ProposedIsComplete | script/github-check-new-issue-for-duplicates.py:1061-1071 | Every key with an acceptable match is proposed: as likely if the model said so anywhere, and otherwise as possible. |
| MatchPipeline.ClosedIsApart | script/github-check-new-issue-for-duplicates.py:1063-1065 | The related closed matches are closed offered candidates, repetition-free and disjoint from the open matches. |
| MatchPipeline.CritiqueProposedMatches | script/github-check-new-issue-for-duplicates.py:1129-1189 | A likely match is kept, downgraded or dropped by its verdict; a possible one is kept or dropped; order is preserved. |
| MatchPipeline.JudgedIsDistinct | script/github-check-new-issue-for-duplicates.py:1129-1189 | Whatever the verdicts, judging distinct matches leaves distinct matches. |
| MatchPipeline.GivenExactly | script/github-check-new-issue-for-duplicates.py:1171-1186 | A match is kept or downgraded exactly by its own verdict. |
| MatchPipeline.FindMatches | script/github-check-new-issue-for-duplicates.py:573-593 | Whatever the model answers: a proposed match is shown exactly if its own verdict allows it, and where that verdict says; the three lists are repetition-free and disjoint, hold only offered candidates the author did not mention, in the right state and with root causes, and nothing merely possible is promoted. |
| MatchPipeline.NothingKeptIsLost | script/github-check-new-issue-for-duplicates.py:1040-1189 | If every verdict is to keep, every key with an acceptable match is shown, as likely if so answered. |
| SlateRules.MatchIsShown | script/github-check-new-issue-for-duplicates.py:1040-1071 | An open candidate on the slate that the model matches, with a root cause if it is an issue, is proposed, and if the second opinion keeps everything, shown: as likely if the model said so. |
| SlateRules.RelatedIsShown | script/github-check-new-issue-for-duplicates.py:1063-1065 | A closed candidate on the slate that the model relates is shown as related, root cause or not. |
| SlateRules.FirstMatchCounts | script/github-check-new-issue-for-duplicates.py:1046-1056 | Of several acceptable matches for one key the first is resolved. |
| SlateRules.ResolvedInOrder | script/github-check-new-issue-for-duplicates.py:1046-1056 | The resolved matches keep the order in which the model gave them. |
| DuplicateMagnets.ExtractDuplicateInfo | script/github-find-top-duplicated-bugs.py:79-100 | A magnet results exactly from two or more distinct numbers marked as duplicate and CLOSED, with their number as its count and at least one area. |
| DuplicateMagnets.FileUnder | script/github-find-top-duplicated-bugs.py:157-159 | Filing a magnet under an area keeps the groups, the totals and the order of areas those of the entries filed so far. |
| DuplicateMagnets.GroupByArea | script/github-find-top-duplicated-bugs.py:154-159 | The two dictionaries hold, for each area, its magnets in order and their summed counts. |
| DuplicateMagnets.PrintSections | script/github-find-top-duplicated-bugs.py:161-176 | The nested loops print one section for each area, its magnets by descending count. |
| DuplicateMagnets.BuildMarkdownBody | script/github-find-top-duplicated-bugs.py:148-178 | The printer computes the report of the round trip. |
| DuplicateMagnets.ParseDuplicateMagnets | script/github-check-new-issue-for-duplicates.py:487-524 | The parser's loop computes the reading of the round trip. |
| ReportRules.ParsedByDupes | script/github-check-new-issue-for-duplicates.py:522 | Whatever the body, magnets are read back by descending number of duplicates. |
| ReportRules.NoiseIsIgnored | script/github-check-new-issue-for-duplicates.py:493-500 | A line that is no header, and no list item or without `/issues/`, can be put anywhere in a body without changing what is read. |
| ReportRules.SectionByDupes | script/github-find-top-duplicated-bugs.py:161-176 | A printed section is its heading and one line for each magnet that has the area, and for no other, by descending number of duplicates. |
| ReportRules.ReportByTotals | script/github-find-top-duplicated-bugs.py:154-167 | The report is its first line and one section for each area of some magnet, by descending sum of the duplicates listed under it. |
| ReportRules.OneMagnetReport | script/github-find-top-duplicated-bugs.py:161-178 | A report of one magnet, character by character after its first line, with the count padded to two. |
| ReportRules.AreaOfLabel | script/github-find-top-duplicated-bugs.py:93 | A label `area:` and a name stands for the area of that name, a label that does not start so for none. |
| ReportRules.IssueAddress | script/github-find-top-duplicated-bugs.py:170-175 | Any address of the form of the repository's issue addresses meets the round trip's requirement on addresses. |
| MagnetRoundTrip.DupesRead | script/github-check-new-issue-for-duplicates.py:504 | The count printed on a line is the count read from it, for every count. |
| MagnetRoundTrip.NumberRead | script/github-check-new-issue-for-duplicates.py:505 | The issue number in a line's address is the number read from it. |
| MagnetRoundTrip.ReportRead | script/github-check-new-issue-for-duplicates.py:493-520 | Reading a whole report records exactly the printed entries, in the printed order. |
| MagnetRoundTrip.PrintedIsPermutation | script/github-find-top-duplicated-bugs.py:154-176 | The report lists every magnet under each of its areas, as often as it has the area. |
| MagnetRoundTrip.PrintThenParse | script/github-find-top-duplicated-bugs.py:148-178 | For distinct issue numbers, addresses whose first `/issues/` is followed by the number, and any one-line areas: parsing the printed report gives back the number, the count and the areas (stripped, without blank ones and `(unlabeled)`) of exactly the magnets with a non-blank area, each number once, in descending order of count. |
| ReportRules.OrdinaryReportComesBack | script/github-find-top-duplicated-bugs.py:148-178 | If all areas are nonempty, without white space at their ends and not `(unlabeled)`, printing and parsing gives back each magnet once with its number, its count and its areas, and nothing else, by descending count. |
| MagnetRoundTrip.LostExactlyWhenBlank | script/github-check-new-issue-for-duplicates.py:493-500 | A magnet is not read back exactly when all its areas are blank. |
| MagnetRoundTrip.ExtractedIsPrintable | script/github-find-top-duplicated-bugs.py:92-100 | Every magnet extracted from an issue with one-line labels meets the requirements of the round trip. |
| MagnetRoundTrip.BareLabelLosesMagnets | script/github-find-top-duplicated-bugs.py:92-98 | Magnets whose only label is a bare `area:` are not read back. |
| MagnetRoundTrip.AreasComeBackExactlyWhen | script/github-check-new-issue-for-duplicates.py:493-520 | The areas of a magnet survive printing and parsing, in some order, exactly when each is nonempty, has no white space at either end and is not `(unlabeled)`. |
| MagnetRoundTrip.PaddedLabelIsStripped | script/github-find-top-duplicated-bugs.py:92-98 | A magnet whose label is `area: x` has the area ` x` and is read back with the area `x`. |
| MagnetRoundTrip.UnlabeledComesBackEmpty | script/github-check-new-issue-for-duplicates.py:509-520 | A magnet comes back without areas exactly when each of its areas is `(unlabeled)` or blank. |
| Text.SplitJoin | script/github-find-top-duplicated-bugs.py:178 | Splitting joined lines at newlines gives the lines back. |
| Text.ParseIntDecimal | script/github-find-top-duplicated-bugs.py:175 | Reading the decimal form of a number gives the number. |
| StableSort.SortDescending | script/github-check-new-issue-for-duplicates.py:522 | Sorting orders by descending key. |
| StableSort.SortStable | script/github-find-top-duplicated-bugs.py:166-167 | Sorting keeps the order of elements with equal keys. |
| SkillSlug.SlugifySkillName | crates/agent_skills/agent_skills.rs:450-490 | On every string the one-pass loop with its flag computes the seven documented passes. |
| SkillSlug.SlugIsValid | crates/agent_skills/agent_skills.rs:449-490 | Every slug passes the validator, and has no two dashes in a row. |
| SkillSlug.FixedPointsAreCleanNames | crates/agent_skills/agent_skills.rs:432-527 | The strings slugifying leaves alone are exactly the valid names without a double dash. |
| SkillSlug.SlugIsIdempotent | crates/agent_skills/agent_skills.rs:450-490 | Slugifying a slug changes nothing. |
| SkillSlug.NoSlugExactlyWhen | crates/agent_skills/agent_skills.rs:428-490 | There is no slug exactly when the input has no ASCII letter, no digit and no `&`. |
| SlugLaws.SlugObeysLaws | crates/agent_skills/agent_skills.rs:427-490 | Capitals count as small letters, a space as a dash, `&` as `-and-`, two dashes as one, dashes at the ends and characters without meaning as nothing; a plain name is its own slug, cut to 64 characters or to 63 if a dash would be last. |
| SlugLaws.LawsDetermineSlug | crates/agent_skills/agent_skills.rs:427-490 | Any function that obeys these laws computes the slug of every string. |
| SlugLaws.ValidExactlyWhen | crates/agent_skills/agent_skills.rs:508-527 | A name is valid exactly if it has 1 to 64 small letters, digits and dashes and no dash at either end, and which error is given otherwise. |
| Frontmatter.Scan | crates/agent_skills/agent_skills.rs:358-386 | The byte loop collects the candidates the next lemma speaks of, each within the text. |
| Frontmatter.ScanFindsDelimiterLines | crates/agent_skills/agent_skills.rs:350-386 | The candidates are exactly the ends of the lines after the first that are precisely `---`, in order, for the division of the text into lines. |
| Frontmatter.CutsAreBoundaries | crates/agent_skills/agent_skills.rs:399-405 | In valid UTF-8 every cut is a character boundary with valid text on both sides. |
| Frontmatter.ExtractFrontmatter | crates/agent_skills/agent_skills.rs:343-413 | The extraction loop computes the extraction the lemmas below speak of, errors included. |
| Frontmatter.ExtractSucceedsExactlyWhen | crates/agent_skills/agent_skills.rs:343-413 | It succeeds exactly when the trimmed file opens with `---` and some candidate prefix parses. |
| Frontmatter.ExtractTakesLeastAccepted | crates/agent_skills/agent_skills.rs:392-408 | It takes the first accepted candidate; prefix and body together are the trimmed file. |
| Frontmatter.AppendingExtendsBodyOnly | crates/agent_skills/agent_skills.rs:343-413 | After a newline-terminated choice, appending to the file changes neither cut nor metadata and lands at the end of the body. |
| Frontmatter.TrimStartKeepsValid | crates/agent_skills/agent_skills.rs:344 | Trimming white space leaves valid UTF-8. |
| FrontmatterRules.TrimStartExactly | crates/agent_skills/agent_skills.rs:344 | In valid UTF-8, exactly the characters at the front whose code points have the property White_Space are trimmed. |
| FrontmatterRules.CutsAreDashLines | crates/agent_skills/agent_skills.rs:350-386 | The cuts tried are, in order, the ends of all lines after the first whose bytes are `---` and then a line feed, a carriage return and line feed, or nothing more. |
| FrontmatterRules.FailsExactlyWhen | crates/agent_skills/agent_skills.rs:343-413 | Each failure exactly: the opener is missing; no line closes; no prefix holds a document; or else the error of the last rejected prefix. |
| Utf8.BoundaryCutsValidly | crates/acp_thread/src/terminal.rs:566-572 | In valid text, Rust's boundary test holds exactly where both pieces are valid text. |
| Utf8.BoundaryIsNear | crates/acp_thread/src/terminal.rs:567-569 | A boundary is at most three bytes back from anywhere. |
| Utf8Scalars.CharacterIsScalar | crates/agent_skills/agent_skills.rs:399-405 | Each byte sequence taken for a character is the encoding of a code point that is no surrogate. |
| Utf8Scalars.ScalarIsCharacter | crates/agent_skills/agent_skills.rs:399-405 | The encoding of every code point that is no surrogate is taken for one character, of that length. |
| ExcerptRanges.Absorb | crates/acp_thread/src/diff.rs:364-371 | The inner loop takes the touching ranges into the current one. |
| ExcerptRanges.MergeAdjacent | crates/acp_thread/src/diff.rs:360-375 | The merging loops compute the merge the lemmas below speak of. |
| ExcerptRanges.PendingDiff.CollectExcerptRanges | crates/acp_thread/src/diff.rs:340-376 | The excerpt ranges are the merged hunks and revealed ranges. |
| ExcerptRanges.PendingDiff.RevealRange | crates/acp_thread/src/diff.rs:256-259 | Revealing adds one range to the list and shows the merged result. |
| ExcerptRanges.MergedIsCanonicalUnion | crates/acp_thread/src/diff.rs:358-375 | The merged ranges are sorted with strict gaps and cover exactly what the given ranges cover, ends included and excluded. |
| ExcerptRanges.CanonicalIsUnique | crates/acp_thread/src/diff.rs:358-375 | Such a list is determined by what it covers. |
| ExcerptRanges.MergedIgnoresOrder | crates/acp_thread/src/diff.rs:342-358 | The result does not depend on the order of collection, so the unstable sort is harmless. |
| ExcerptRanges.MergedFixedPoints | crates/acp_thread/src/diff.rs:360-375 | Merging is idempotent, and its fixed points are exactly the canonical lists. |
| ExcerptRanges.RevealingNeverLosesCoverage | crates/acp_thread/src/diff.rs:256-259 | Revealing a range keeps all coverage and adds exactly the range. |
| TerminalOutput.Terminal.TruncatedOutput | crates/acp_thread/src/terminal.rs:557-576 | The backing-up loop computes the cut the lemmas below speak of. |
| TerminalOutput.Terminal.Finish | crates/acp_thread/src/terminal.rs:476-486 | The end of the command saves the truncated output and the length before truncation. |
| TerminalOutput.Terminal.CurrentOutput | crates/acp_thread/src/terminal.rs:537-555 | While running or finished, the response is the truncated content, flagged exactly when the content exceeded the limit. |
| TerminalOutput.CutWithinLimit | crates/acp_thread/src/terminal.rs:563-573 | The cut never exceeds the limit, and something is cut exactly when the content exceeds it. |
| TerminalOutput.BacksUpAtMostThree | crates/acp_thread/src/terminal.rs:566-569 | On valid text the loop steps back at most three times. |
| TerminalOutput.TruncationIsValidAndLongest | crates/acp_thread/src/terminal.rs:563-573 | The result is a valid prefix that ends before the last newline that fits, or, when none fits, the longest valid prefix within the limit. |
| TerminalOutput.TruncatedOutputIsFrozen | crates/acp_thread/src/terminal.rs:557-576 | Once the limit is exceeded, appending changes nothing. |
| LegacyThread.Upgrade | crates/agent/src/legacy_thread.rs:88-112 | The loop computes the upgrade the lemmas below speak of, and keeps the other fields. |
| LegacyThread.ResultsConservedExactlyWhen | crates/agent/src/legacy_thread.rs:93-105 | The sequence of tool results is kept exactly when no tool-result user message after the first directly follows a message that has tool results. |
| LegacyThread.SecondRoundOverwrites | crates/agent/src/legacy_thread.rs:100-101 | Of two rounds of results for one assistant message only the second is kept. |
| LegacyThread.OtherMessagesKept | crates/agent/src/legacy_thread.rs:93-105 | On every thread the messages that are not folded are kept in order with role and content. |
| LegacyThread.NothingSaidIsLostExactlyWhen | crates/agent/src/legacy_thread.rs:94-102 | Whatever counts as saying nothing, the upgrade keeps everything said exactly when the messages it folds away say nothing. |
| LegacyThread.UpgradeTwiceExactlyWhen | crates/agent/src/legacy_thread.rs:93-105 | A second upgrade changes no message exactly when no tool-result user message follows a user message, other than the first, without tool results. |
| LegacyThread.WellFormedUpgrade | crates/agent/src/legacy_thread.rs:94-102 | If every later tool-result message follows an assistant message without results, all results are kept and upgrading is idempotent. |
| UpgradePlaces.UpgradeByPlaces | crates/agent/src/legacy_thread.rs:88-112 | For every thread, place by place: the messages stay, in order, that are first, not a user's or without tool results, each as it was but with the tool results of the message just before the next that stays. |
| EtwRecorder.Process.RecordEtwTrace | crates/etw_tracing/etw_tracing.rs:441-536 | The recorder program makes only calls the protocol allows, in the order it allows, and ends as the protocol run on alone does, for every first line and every outcome of its calls. |
| EtwProgram.EndOfEveryRun | crates/etw_tracing/etw_tracing.rs:441-565 | That end: if started and every call on the way succeeds, the session is cancelled for a cancel on the first line and saved otherwise, and Cancelled, Stopped (for a save) or TimedOut (for nothing readable) is reported after Started; otherwise the guard tries to cancel what was started, and an error is reported. |
| EtwRecorder.Process.RecordGuarded | crates/etw_tracing/etw_tracing.rs:490-536 | From a started session the program ends either reported or failing, by allowed calls only. |
| EtwRecorder.Process.ReceiveCommand | crates/etw_tracing/etw_tracing.rs:538-565 | A failed timeout setting fails; otherwise one line decides, an unreadable one as a timed-out save. |
| EtwRecorder.Process.CarryOut | crates/etw_tracing/etw_tracing.rs:502-533 | The session is saved or cancelled as commanded, and a failure leaves the guard armed. |
| EtwRecorder.EveryRunKeepsInv | crates/etw_tracing/etw_tracing.rs:441-536 | Every interleaving of both processes, with any status lost that was buffered with `Started`, keeps the protocol invariant. |
| EtwRecorder.SessionIsNeverForgotten | crates/etw_tracing/etw_tracing.rs:490-530 | Once the recorder has exited, a started session was saved, cancelled, or had its guard try to cancel it, and exactly one of these. |
| EtwRecorder.StatusesFollowTheProtocol | crates/etw_tracing/etw_tracing.rs:457-536 | At most one status follows `Started`, final or error, and none follows that. |
| EtwRecorder.NoticesAreTrue | crates/etw_tracing/etw_tracing.rs:205-216 | What the user is told about the outcome is what the recorder did, and why. |
| EtwRecorder.OutcomeIsToldExactlyWhen | crates/etw_tracing/etw_tracing.rs:203-216 | Over every interleaving, an editor that has stopped listening to a recorder that delivered two statuses has told the outcome of the second (saved for Stopped, saved on timeout for TimedOut, cancelled for Cancelled, ended unexpectedly for any other) exactly when no status was lost with the first reader. |
| EtwStory.StoryOfEveryRun | crates/etw_tracing/etw_tracing.rs:83-229 | Over every interleaving, the notices about the recording are, in order and with none besides: none while waiting; that it failed to start; or that it started and, once over, exactly the outcome delivered second, or that completing it failed if that was never delivered or lost. |
| EtwStory.CommandsAreAnswered | crates/etw_tracing/etw_tracing.rs:121-169 | Over every interleaving, each answer to a command of the user is shown exactly if the user did what calls for it in that stage. |
| EtwStory.FirstWriteDecides | crates/etw_tracing/etw_tracing.rs:500-565 | Over every interleaving, what was read is the first command that reached the socket; a session is cancelled only if that was a cancel, and told saved on command only if it was a save. |
| EtwRecorder.BufferedStatusIsMissed | crates/etw_tracing/etw_tracing.rs:203-209 | A concrete run saves the trace and reports a failure, the status having been buffered with `Started`. |
| EtwRecorder.FirstLineDecides | crates/etw_tracing/etw_tracing.rs:500-532 | Over every interleaving, a session is cancelled only if the first line the editor wrote was a cancel, and reported saved on command only if it was a save. |
| EtwRecorder.ReadIsFirstWritten | crates/etw_tracing/etw_tracing.rs:557-564 | What the recorder read is the first line ever written to it. |
| EtwRecorder.ReadOnlyOnce | crates/etw_tracing/etw_tracing.rs:500 | The decision, once read, is never changed by anything later. |
| EtwRecorder.RecorderIsNeverStuck | crates/etw_tracing/etw_tracing.rs:441-536 | Until it exits the recorder has a call to make. |
| EtwRecorder.RecorderProgresses | crates/etw_tracing/etw_tracing.rs:441-536 | Every call, however it turns out, brings the exit closer. |
| EtwRecorder.ExitedRecorder | crates/etw_tracing/etw_tracing.rs:441-565 | For a recorder run to its end against a given socket: a started session is never left unguarded, and the first line fixes the outcome. |
| TriageDerivation.FindReporterCutoff | script/triage_project_sync.py:329-336 | The loop computes the reporter's latest activity. |
| TriageDerivation.ReporterActivityIsMax | script/triage_project_sync.py:329-336 | It is the latest of the creation time and the reporter's timed comments. |
| TriageDerivation.DeriveStatusByScan | script/triage_project_sync.py:345-437 | The cascade with its forward and backward scans computes the status and rule that the next rows say of the labels, assignees and comments. |
| TriageDerivation.StatusExactlyWhen | script/triage_project_sync.py:345-437 | Each of the twelve statuses, with its rule, exactly when: from the closing, the five labels in their order of strength, the assignees, whether staff spoke in substance, whether a user answered that last, and whether staff answered the reporter last. |
| TriageDerivation.SubstantiveExactlyWhen | script/triage_project_sync.py:300-326 | A comment is substantive exactly if a human of the staff wrote at least 50 characters or one of the eight media marks, and a user's exactly if a human's outside the staff. |
| TriageDerivation.DeriveStaleSinceByScan | script/triage_project_sync.py:440-474 | The anchor's own scans compute the anchor the lemmas below speak of. |
| TriageDerivation.AwaitingUserAnchor | script/triage_project_sync.py:456-463 | Awaiting user is anchored on the last substantive staff comment; the fallback to the creation time is unreachable. |
| TriageDerivation.UserRepliedAnchor | script/triage_project_sync.py:464-470 | User replied is anchored on the very last comment, a user's, strictly later than the last substantive staff comment. |
| TriageDerivation.NeedsReproAnchor | script/triage_project_sync.py:450-451 | Needs repro attempt is anchored on the reporter's latest activity, and no substantive staff comment comes after it. |
| TriageDerivation.TrackedStatusesHaveAnchors | script/triage_project_sync.py:477-497 | With timestamps present, every status with an aging threshold has an anchor, and every anchored status is tracked or always flagged. |
| TriageDerivation.OtherAnchors | script/triage_project_sync.py:440-474 | Waiting for labels, for an ask or for a loop closure counts from the creation; statuses at rest have no anchor. |
| TriageDerivation.OverdueExactlyWhen | script/triage_project_sync.py:440-497 | An untouched issue is overdue exactly: awaiting the user, 14 days after the last substantive staff comment; after a user's reply, 3 days after that last comment; waiting to be reproduced, once everything the reporter did is 7 days old; waiting for labels, 7 days after it was opened; always while staff must ask or close the loop; else never. |
| TriageDerivation.AwaitingUserIsRightExactlyWhen | script/triage_project_sync.py:402-428 | For every issue that has been asked, whatever its timestamps: the explanation "no non-staff reply since" is right exactly when nobody replied or the last comment is a non-staff one timed after the question. |
| TriageDerivation.ThanksHidesReply | script/triage_project_sync.py:412-428 | A concrete issue on which a staff member's short thanks hides the user's reply. |
| TriageDerivation.UntimedReplyIsOverlooked | script/triage_project_sync.py:412-428 | A reply that is the last word but has no timestamp, or the question's own, is overlooked. |
| ReleaseNotes.ConvertLine | script/flatpak/convert-release-notes.py:31-51 | The loop body emits the specified tokens and moves to the specified state. |
| ReleaseNotes.ConvertBody | script/flatpak/convert-release-notes.py:18-54 | The loop computes the output the lemmas below speak of, closing tag included. |
| ReleaseNotes.StepInvariant | script/flatpak/convert-release-notes.py:34-51 | Unless a line is both list item and fence outside both, it keeps the number of open lists equal to in_list + in_code_fence. |
| ReleaseNotes.WellNestedExactlyWhen | script/flatpak/convert-release-notes.py:23-54 | For every body, the output is well nested exactly when its lines satisfy a condition checked line by line. |
| ReleaseNotes.WellNestedWithoutClash | script/flatpak/convert-release-notes.py:23-54 | If no line that is both comes after closed fences and after no list line, the output is well nested exactly unless the body ends on a list line in an open fence. |
| ReleaseNotes.WellNestedAfterClash | script/flatpak/convert-release-notes.py:23-54 | After the first such line, the output is well nested exactly when only list lines follow, those with a fence in adjacent pairs. |
| ReleaseNotes.WellNestedWithoutMixedLines | script/flatpak/convert-release-notes.py:23-54 | If no line is both, the output is well nested exactly unless the last line is a list line and the number of fence lines is odd. |
| ReleaseNotes.EveryLineIsShown | script/flatpak/convert-release-notes.py:41-54 | For every body, nested well or not, the markup shows the text of every line once and in order. |
| ReleaseNotes.EveryLineIsShownAs | script/flatpak/convert-release-notes.py:39-51 | For every body, each line is shown, in order: as an item if it starts with a dash, else as a code item if it has a fence or follows an odd number of fences, else as a paragraph. |
| ReleaseNotes.MixedLineBreaksNesting | script/flatpak/convert-release-notes.py:34-51 | A concrete body with one line that is both puts an item outside every list. |

## Left out

- HTTP, GraphQL, Slack and model calls, their failures part-way through a run, retries and pagination of
  anything but the issue search; what they return is an arbitrary input.
- Guild board: an issue that is not on the board, comment and pull-request handlers that only send
  messages, and the weekly report; a maintainer's typing of the check-in marker by hand.
- GuildPromise.ClearedOnlyAfterThreeQuietWeeks: is for one guild assignee at a time who does not join the guild while assigned, because it is false otherwise (SecondAssigneeClearedEarly, JoinerClearedEarly); what remains true for several is FirstAssigneeKeepsGracePeriod.
- Guild board: a sweep is one step. A reply that arrives between its reading of the comments and its posting of the check-in is not modelled, and a sweep reads membership once per person and keeps it, so it is one set per event.
- Triage window: instants and time zones; days are whole calendar days, so the 23:59:59 end of a day is the day.
- TriageQueue.AddedAtMostOnce: is about complete searches, because it is false otherwise (CrowdedIssueIsReadded).
- Duplicate finder: the ranking of candidates, areas and magnets lookups, the critique of related closed
  issues, and the patterns that find references in an issue's text, which are an arbitrary set of keys.
- Report parser: underscores, signs other than a leading one, and digits outside ASCII, which Python's
  `int` accepts and no printed report contains.
- Frontmatter: the YAML parser, which is an arbitrary function of the prefix, and the size limit.
- Slugs: lengths count characters, where the source counts bytes; slugs are ASCII, so this matters only for
  which error the validator gives a long name with other characters, which it rejects either way.
- Excerpt ranges: hunks and anchors are given as points; the multibuffer is not modelled.
- Terminal: the emulator's content is a byte sequence that only grows; exit statuses are passed through.
- LegacyThread: the other fields of a message are one opaque value; the debug-only assertion on the role is not modelled.
- EtwRecorder: COM and WPR calls are outcomes; the answers to a save and to a cancel are one notice; one recording at a time; a status that the recorder fails to
  send is taken not to arrive, one buffered in part to be lost whole; waiting for a connection that never comes is not modelled.
- TriageDerivation: the texts explaining a status, and the project schema.
- ReleaseNotes: cleaning, links, inline code and HTML escaping; a line is known by its two tests and its text, and dropped lines are dropped beforehand.
- Share links of skills, skill discovery and file loading.
