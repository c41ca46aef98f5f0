# Verified models of the editor's self-contained logic

Zed is mostly interface code over large libraries. A few of its files hold small algorithms and
protocols whose correctness can be stated without the rest: how a path is normalized before deny
rules are matched, which write grants a sandbox keeps, how an elevated child process records a trace
for the editor, and the scripts that look after the repository's issues and pull requests. This
project models those in Dafny and proves what they are for. Functions of the source that compute a
value by a loop, and objects that are updated in place, are methods and classes here, each proved
against a specification function; the properties are lemmas about those functions.

Run `dafny verify dfyconfig.toml` to check everything.

## Layout

| file | models |
|---|---|
| `LexicalPaths.dfy`, `PathMeaning.dfy`, `RmExpansion.dfy`, `HomeOperands.dfy` | `normalize_path` as a walk over directories, and what a path means piece by piece; the expansion of `rm` command lines, and what it does to operands in the home directory |
| `Subtrees.dfy`, `WriteGrants.dfy` | lists of subtrees kept minimal; compiling sandbox write grants |
| `CompactThreshold.dfy` | the token forms of the compaction threshold |
| `EtwSession.dfy`, `EtwProtocol.dfy` | the handlers of a recording session and its child; all interleavings of editor, children and dialogs |
| `GuildSweep.dfy`, `GuildDecisions.dfy`, `GuildHistory.dfy` | the sweep over quiet guild assignments; its decision, said of the item alone; whole histories of an issue, in which a sweep reads step by step and people act in between |
| `PrCleanup.dfy`, `PrDecisions.dfy`, `PrHistory.dfy` | the clean-up of unsigned and stale pull requests; its decisions, said of labels, comments and events alone; whole histories of a pull request, in which a run lists, reads and acts in separate steps and may stop anywhere |
| `DuplicateIndex.dfy`, `IndexLaws.dfy`, `MagnetParser.dfy`, `MagnetRoundTrip.dfy` | the printer of the index of re-reported issues, its order and wording, its reader, and their agreement |
| `CandidateSelection.dfy`, `MatchReview.dfy` | choosing duplicate candidates and reviewing a model's matches |
| `SkillSlug.dfy`, `SlugLaws.dfy`, `Frontmatter.dfy`, `SkillText.dfy` | skill names, and which differences between titles they do not see; the end of a skill file's frontmatter, and the white space in front of it |
| `TriageWindow.dfy`, `TriageBoard.dfy` | the window of the triage queue; keeping a board equal to a set of issues |
| `Text.dfy`, `RustText.dfy`, `PythonText.dfy`, `Decimals.dfy`, `Sorting.dfy`, `Sequences.dfy`, `Wrappers.dfy` | library functions of Rust and Python that the others use |

Clocks, API results, send failures, the model's replies and the YAML parser are parameters: every
theorem holds for all of them. Times are integers in microseconds, days are ordinals.

## What the proofs show beyond the documentation

Where a promise does not hold of the code as it stands, the code is modelled as it is, a lemma gives
an input or a run that breaks the promise, and a theorem says exactly when it is kept.

- An `rm` operand that begins with `$` is never normalized as a path of its own
  (`RmExpansion.SpecialDirectories`), so `$X/..` keeps its spelling (`RmExpansion.VariableParentIsKept`).
- `rm ./-x` becomes `rm -x`, which expands to nothing (`RmExpansion.DashedOperandIsLost`); an output
  expands to itself exactly when there is a `--` or its operand has no dash (`RmExpansion.ExpandTwice`).
- `$HOME/..` becomes `$HOME` (`HomeOperands.ParentOfHomeIsHome`): an operand in the home directory still
  leads where it led exactly when its suffix never climbs above that directory
  (`HomeOperands.HomeOperandExactly`).
- `start_etw_recording` looks for a session long before it stores one. When two launches overlap, the
  end of the first can clear the second while it still records
  (`EtwProtocol.OverlappingLaunchesLoseASession`). A run loses no session exactly when every session is
  stored while none is (`EtwProtocol.NoSessionIsLostExactly`). A lost session stays lost: nothing is
  ever written to it again, and its child records on unless a read fails
  (`EtwProtocol.LostSessionStaysLost`, `EtwProtocol.LostChildRecordsOn`).
- A guild assignee has 21 days exactly when there is no activity between the sweep's look at the issue
  and its check-in, the instant of the check-in included (`GuildHistory.TwentyOneDaysExactly`). A reply
  before that (`GuildHistory.ReplyBeforePostIsLost`) or in that instant
  (`GuildHistory.ReplyInSameInstantIsLost`) is not taken for a reply to the check-in, and one that comes
  while the clearing sweep is going on comes too late (`GuildHistory.LateReplyIsLost`,
  `GuildHistory.ReplyDuringClearingIsLost`).
- A stale draft that was warned and not yet explained to has 28 days exactly when the run that warned
  had listed the last activity (`PrHistory.TwentyEightDaysExactly`,
  `PrHistory.PushWhileWarnedIsClosedEarly`). Whenever a draft is closed, there is a warning between the
  listed activity and the close, 7 days before it, exactly when every explanation since that activity
  comes from a run that had listed it, and one that is 21 days younger than the activity exactly when
  every warning does as well; the 28 days then hold unless there was activity during the closing run
  (`PrHistory.DraftCloseIsLate`). A push while a run explains that then stops leads to a close 21 days
  later without any warning (`PrHistory.StoppedRunClosesUnwarned`), and a push during the closing run
  does not stop it (`PrHistory.PushWhileClosingIsClosed`). All this is for commits that carry the time of
  their push; a commit dated before the warning does not start the 28 days again
  (`PrHistory.BackdatedCommitIsClosedEarly`), and for any log `PrCleanup.ExplainedCloseExactly` and
  `PrCleanup.UnexplainedCloseExactly` say when the 28 days hold.
- An author's reply after the closing run has read the comments does not stop the close for the CLA
  (`PrHistory.ClaPromises`, `PrHistory.ReplyWhileClosingIsClosed`).
- An issue all of whose area labels are blank is lost between the two duplicate scripts
  (`MagnetRoundTrip.BlankAreaIsLost`, `MagnetRoundTrip.RoundTrip`).
- The selection's reserved capacities fit together exactly from a limit of six on
  (`CandidateSelection.SixDoNotFitInFive`, `CandidateSelection.QuotasFitExactly`).
- The critique of the proposed matches ends with an error exactly when one has no explanation
  (`MatchReview.SurfacedExactly`).
- A closing frontmatter line at the end of a file without a line break stops being one as soon as a
  body is put after it (`Frontmatter.UnbrokenSkillIsLost`, `Frontmatter.BodyIsReplaceableExactly`).
- The comment in `eligibility_window` promises eligibility after one whole business day; an issue
  created on a weekend still waits through the Tuesday after it, although the Monday is over
  (`TriageWindow.WeekendIssueWaits`, `TriageWindow.WindowEndExactly`). The model follows the code.
- A printed compaction threshold of 0 tokens, or of more than fit in a signed 64-bit integer, cannot
  be read back (`CompactThreshold.ZeroAndHugeTokensAreLost`, `CompactThreshold.TokensRoundTripExactly`).

## Model

| member | source | states |
|---|---|---|
| LexicalPaths.NormalizePath | crates/agent_settings/src/agent_settings.rs:723-752 | the stack loop computes the normal form, which leads where the path leads from every directory and is its own normal form |
| LexicalPaths.NormalizePreservesMeaning | crates/agent_settings/src/agent_settings.rs:723-752 | walking the normalized path from any directory, with `..` at the root staying there, ends where the path ends |
| LexicalPaths.NormalizeIsComplete | crates/agent_settings/src/agent_settings.rs:723-752 | two paths normalize to the same string exactly when they lead to the same place from every directory |
| LexicalPaths.NormalizeIsIdempotent | crates/agent_settings/src/agent_settings.rs:723-752 | a normalized path is its own normal form |
| LexicalPaths.NormalizeIsMinimal | crates/agent_settings/src/agent_settings.rs:723-752 | no equivalent path has fewer components |
| LexicalPaths.ReducePreservesWalk | crates/agent_settings/src/agent_settings.rs:726-745 | the component stack, walked as a path, is in step with the components read so far |
| LexicalPaths.ReduceIsCanonical | crates/agent_settings/src/agent_settings.rs:726-745 | the stack holds `..` entries first, none in an absolute path, then proper names |
| LexicalPaths.ComponentsOfRender | crates/agent_settings/src/agent_settings.rs:746-751 | a joined stack is read back as exactly its entries, with the root exactly when the path is absolute |
| LexicalPaths.ClimbsExactly | crates/agent_settings/src/agent_settings.rs:726-745 | a walk leads below every starting directory to where it leads below the root, exactly when it never climbs above its start |
| PathMeaning.LastPieceLeads | crates/agent_settings/src/agent_settings.rs:725-745 | behind any text, behind the root or alone, an empty piece and `.` lead nowhere else, `..` leads to the parent or stays at the root, and a name leads to that entry |
| PathMeaning.InnerDotsAndSlashes | crates/agent_settings/src/agent_settings.rs:725-745 | for all texts, `a/./b` and `a//b` mean what `a/b` means |
| PathMeaning.RootDotsAndSlashes | crates/agent_settings/src/agent_settings.rs:725-745 | so do `/./b` and `//b`, and `/b` |
| RmExpansion.ExpandRmToSinglePathCommands | crates/agent_settings/src/agent_settings.rs:648-721 | the loops compute the expansion whose properties follow |
| RmExpansion.SplitArguments | crates/agent_settings/src/agent_settings.rs:656-672 | flags are the dashed arguments up to and including the first `--`; everything else is an operand |
| RmExpansion.RewriteOperand | crates/agent_settings/src/agent_settings.rs:682-717 | one operand becomes its rewritten form, by its dollar prefix or as a path |
| RmExpansion.ExpandOperands | crates/agent_settings/src/agent_settings.rs:674-720 | one line for each operand, in order, with all the flags |
| RmExpansion.OneCommandPerOperand | crates/agent_settings/src/agent_settings.rs:648-721 | an `rm` command, in any case and spacing, gives for each operand in order one command whose words are `rm`, the flags and that operand rewritten; any other command gives none |
| RmExpansion.SpecialDirectories | crates/agent_settings/src/agent_settings.rs:680-718 | an operand comes out as `/`, `.` or `..` exactly when it means the root, the current or the parent directory, except that dollar operands never become `.` or `..` |
| RmExpansion.VariableParentIsKept | crates/agent_settings/src/agent_settings.rs:682-709 | `$X/..`, which as a path is the current directory, is left as it is |
| RmExpansion.RewriteLeads | crates/agent_settings/src/agent_settings.rs:680-718 | a plain operand is rewritten to one that leads to the same place; a dollar operand that is not the home directory with a slash behind it is left as it is |
| RmExpansion.HomePrefixExactly | crates/agent_settings/src/agent_settings.rs:683-689 | `$HOME` and `${HOME}` are recognised whatever follows, and nothing else is |
| RmExpansion.RewriteIsStable | crates/agent_settings/src/agent_settings.rs:680-718 | rewriting an operand twice is rewriting it once |
| RmExpansion.ExpandTwice | crates/agent_settings/src/agent_settings.rs:648-721 | an output expands to itself exactly when there is a `--` or its operand does not begin with a dash, and to nothing otherwise |
| RmExpansion.DashedOperandIsLost | crates/agent_settings/src/agent_settings.rs:648-721 | `rm ./-x` expands to `rm -x`, and that to nothing |
| HomeOperands.HomeOperandExactly | crates/agent_settings/src/agent_settings.rs:682-709 | for every home directory the rewritten home operand leads where the operand leads, if and only if the suffix never climbs above its start |
| HomeOperands.ParentOfHomeIsHome | crates/agent_settings/src/agent_settings.rs:682-709 | `$HOME/..` is rewritten to `$HOME`, another directory |
| Subtrees.InsertedIsAntichain | crates/agent_settings/src/agent_settings.rs:876-893 | inserting a subtree keeps a list in which no item contains another |
| Subtrees.InsertedCovers | crates/agent_settings/src/agent_settings.rs:876-893 | inserting a subtree adds exactly that subtree to what is covered |
| Subtrees.InsertedAllIsFirstMinimal | crates/agent_settings/src/agent_settings.rs:831-853 | inserting items one by one leaves exactly the minimal ones, the first of equals, in their original order |
| Subtrees.FirstMinimalOfAntichain | crates/agent_settings/src/agent_settings.rs:876-893 | a list without containment is left as it is, in content and order |
| WriteGrants.NormalizeLexically | crates/util/src/paths.rs:425-471 | the loop fails exactly for the paths that climb above their base at some step |
| WriteGrants.LexicalNormalMeaning | crates/util/src/paths.rs:425-471 | the result has only names after its base, and leads where the path leads |
| WriteGrants.LexicalNormalIsIdempotent | crates/util/src/paths.rs:425-471 | a normalized path is its own result |
| WriteGrants.LexicalNormalExactly | crates/util/src/paths.rs:425-471 | the result for a path that does not escape is the one path without parent references that has its base and leads where it leads |
| WriteGrants.GrantList.InsertGrantedSubtree | crates/agent_settings/src/agent_settings.rs:876-893 | the list in place becomes the insertion; it stays an antichain, and exactly the new subtree becomes writable |
| WriteGrants.GrantOfExactly | crates/agent_settings/src/agent_settings.rs:832-850 | the grant an entry stands for, said of the paths of the entry alone |
| WriteGrants.CompileEntry | crates/agent_settings/src/agent_settings.rs:832-850 | an entry is dropped exactly when its requested or its resolved path escapes; otherwise the grant has the normal form of the requested path, enforces that of the resolved one if there is one, and has its file-system flag |
| WriteGrants.CompileWritePaths | crates/agent_settings/src/agent_settings.rs:831-853 | the loop over the entries computes the compiled list |
| WriteGrants.CompileSandboxPermissions | crates/agent_settings/src/agent_settings.rs:825-868 | missing settings give the defaults; the write paths are compiled and form an antichain |
| WriteGrants.CompiledPathsAreExact | crates/agent_settings/src/agent_settings.rs:825-893 | no canonical path is a prefix of another, and a path is writable exactly when it lies below the normal form of the resolved (or else the requested) path of some entry neither of whose paths escapes |
| WriteGrants.CompiledPathsIgnoreOrder | crates/agent_settings/src/agent_settings.rs:825-893 | entries in any order and multiplicity give the same canonical paths, the minimal ones of the kept entries |
| WriteGrants.InsertedAllPaths | crates/agent_settings/src/agent_settings.rs:876-893 | the canonical paths that remain are the minimal canonical paths of the inputs |
| WriteGrants.GrantOfIsStable | crates/agent_settings/src/agent_settings.rs:836-850 | a compiled grant, written back as an entry, stands for itself |
| WriteGrants.CompileTwice | crates/agent_settings/src/agent_settings.rs:825-893 | compiling a compiled list again changes neither its content nor its order |
| CompactThreshold.TokensRoundTripExactly | crates/agent_settings/src/agent_settings.rs:159-202 | a printed number of tokens is read back as it was exactly when it is not 0 and fits in a signed 64-bit integer with its sign; a percentage whenever its printer and its reader agree |
| CompactThreshold.ZeroAndHugeTokensAreLost | crates/agent_settings/src/agent_settings.rs:159-202 | 0 tokens, and one more than the largest signed 64-bit integer, are printed but not read back |
| CompactThreshold.ParsedTokensAreReadable | crates/agent_settings/src/agent_settings.rs:159-202 | whatever was read as a number of tokens survives being printed and read again |
| EtwSession.GlobalEtwSession.PromptForEtwOutputPath | crates/etw_tracing/etw_tracing.rs:114-146 | a dialog opens exactly when a recording session starts to choose a path |
| EtwSession.GlobalEtwSession.SaveEtwRecording | crates/etw_tracing/etw_tracing.rs:148-169 | a choosing session writes Save with the given path and is then stopping, or recording again when the write failed; any other is left alone |
| EtwSession.GlobalEtwSession.ResumeEtwRecording | crates/etw_tracing/etw_tracing.rs:171-178 | only a choosing session goes back to recording |
| EtwSession.GlobalEtwSession.CancelEtwRecording | crates/etw_tracing/etw_tracing.rs:180-200 | a session that is not stopping writes Cancel and stops, or is recording again when the write failed |
| EtwSession.GlobalEtwSession.DialogResolved | crates/etw_tracing/etw_tracing.rs:133-145 | a picked path is saved to, and a dialog without one resumes, whichever session is stored then and choosing; any other is left alone |
| EtwSession.RecordEtwTraceInner | crates/etw_tracing/etw_tracing.rs:472-531 | at every failing step, a started recording ends saved, cancelled, or with a cancel attempted by the guard; the calls and statuses of every path |
| EtwSession.RecordEtwTrace | crates/etw_tracing/etw_tracing.rs:448-470 | the child as a whole, including the error report, does what the step-by-step child of the protocol does |
| EtwSession.ChildLifeIs | crates/etw_tracing/etw_tracing.rs:448-531 | the steps of the protocol's child compose to the calls and statuses of the sequential child |
| EtwProtocol.RunKeeps | crates/etw_tracing/etw_tracing.rs:114-238 | the invariant of editor, sockets, children, dialogs and history holds after every sequence of steps |
| EtwProtocol.ReportsAreTrue | crates/etw_tracing/etw_tracing.rs:62-92 | in every run, "saved to p" follows a successful save to p by that launch's child, which followed the editor's Save p; "cancelled" likewise; "ended unexpectedly" is never shown |
| EtwProtocol.CommandsAreAskedFor | crates/etw_tracing/etw_tracing.rs:114-200 | in every run, a launch was sent Save p if and only if the user picked p in a dialog while its session was choosing, and Cancel if and only if the user cancelled while it was stored and not stopping |
| EtwProtocol.SavedWherePicked | crates/etw_tracing/etw_tracing.rs:62-200 | "saved to p" is told of a session only if the user picked p for that session |
| EtwProtocol.CancelledWhereAsked | crates/etw_tracing/etw_tracing.rs:62-200 | "cancelled" is told of a session only if the user cancelled that session |
| EtwProtocol.OncePerLaunch | crates/etw_tracing/etw_tracing.rs:148-238 | no launch is sent two commands, and no session reports its end twice |
| EtwProtocol.StoredSessionIsNeverStuck | crates/etw_tracing/etw_tracing.rs:114-200 | a stored session is stopping exactly when one command was written to its socket, and otherwise none was; while it chooses a path a dialog is open, and any dialog's end lets it go on |
| EtwProtocol.ChildrenRelease | crates/etw_tracing/etw_tracing.rs:472-531 | in every run, a child that started a recording does not exit without having released it or tried to |
| EtwProtocol.PromptExactly | crates/etw_tracing/etw_tracing.rs:114-132 | a prompt opens one dialog exactly for a recording session, which then chooses |
| EtwProtocol.ReadExactly | crates/etw_tracing/etw_tracing.rs:472-531 | a listening child gets the command written, waits while the socket is open, and reports an error on its end or on a failed read |
| EtwProtocol.NoSessionIsLostExactly | crates/etw_tracing/etw_tracing.rs:202-238 | for every run: no handle of an unfinished session is overwritten or cleared by the end of another one, if and only if every session is stored while none is |
| EtwProtocol.RunKeepsOwned | crates/etw_tracing/etw_tracing.rs:202-238 | in such a run every unfinished session is the stored one, so that there is at most one |
| EtwProtocol.EndClearsOwnSession | crates/etw_tracing/etw_tracing.rs:233-236 | if every session is stored while none is, the end of a session's task clears that session and leaves no other one running |
| EtwProtocol.NonOverlappingLosesNone | crates/etw_tracing/etw_tracing.rs:202-238 | launches that start only after all earlier tasks are over store a session only while none is |
| EtwProtocol.OverlappingLaunchesLoseASession | crates/etw_tracing/etw_tracing.rs:202-238 | a run with two overlapping launches in which the end of one clears the other, whose child records on |
| EtwProtocol.LostSessionStaysLost | crates/etw_tracing/etw_tracing.rs:114-238 | once a session is lost, no later step of any run stores it again or writes to its socket |
| EtwProtocol.LostChildRecordsOn | crates/net/src/stream.rs:40-80 | the task still holds the reading half of the shared socket, so the child of a lost session sees no end of it: it waits for a command for ever unless one of the two reads fails |
| GuildSweep.LatestAssignmentTime | script/github-guild-board.py:172-186 | the latest assignment of the login; an error exactly when it was never assigned |
| GuildSweep.LatestAssignmentIsMax | script/github-guild-board.py:172-186 | the latest assignment is one, and none is later |
| GuildSweep.ScanComments | script/github-guild-board.py:620-635 | a single loop computes the time of the last check-in and the last activity of the assignee |
| GuildSweep.CheckInIsMax | script/github-guild-board.py:626-632 | the latest check-in is one, and none is later |
| GuildSweep.ActivityIsMax | script/github-guild-board.py:625-635 | the last activity is the assignment or a comment of the assignee, whichever is latest; check-in comments do not count |
| GuildSweep.DecideMeans | script/github-guild-board.py:637-655 | a nudge after 14 full days without an outstanding one; clearing after 7 full days with one |
| GuildDecisions.ActionExactly | script/github-guild-board.py:595-677 | for an item with a guild assignee, exactly when it is skipped, aborts the sweep, gets a check-in or is cleared, and back to which column it goes, said of its flags, labels, comments and assignments |
| GuildDecisions.NoMemberIsSkipped | script/github-guild-board.py:603-606 | an item without a guild assignee is skipped |
| GuildSweep.FilterGuild | script/github-guild-board.py:603-606 | the guild members among the assignees, in order |
| GuildSweep.SweepItem | script/github-guild-board.py:595-657 | the filters and the decision for one board item, including the abort on a missing assignment event |
| GuildSweep.RunStale | script/github-guild-board.py:591-677 | the sweep performs the actions of the items in order up to the first abort, and counts check-ins and clearings |
| GuildDecisions.CountsAre | script/github-guild-board.py:591-677 | the counts are the numbers of check-ins and clearings among the actions |
| GuildSweep.PerformedExactly | script/github-guild-board.py:591-677 | among the actions of a sweep over any board with distinct numbers, those on the i-th issue are its own action, if and only if no earlier item aborts |
| GuildHistory.SweepOfIssue | script/github-guild-board.py:591-677 | a sweep over any board with distinct numbers does to one issue what the history of that issue says, exactly when no earlier item aborts it |
| GuildHistory.OthersAreSkipped | script/github-guild-board.py:595-606 | an issue that is not eligible or not assigned when it is read is left alone |
| GuildHistory.RunKeeps | script/github-guild-board.py:591-677 | over every interleaving of comments, reassignments and the steps of sweeps, check-ins follow the quiet time before their look and alternate with activity |
| GuildHistory.QuietExactly | script/github-guild-board.py:612-650 | in every run the last activity is 14 days older than a check-in if and only if there was none since the look of its sweep; the check-in was then for that assignee |
| GuildHistory.ClearIsLate | script/github-guild-board.py:637-657 | an assignment is cleared at least 7 days after a check-in; without activity since the look of that check-in it was for that assignee, and 21 days have passed since the last activity |
| GuildHistory.TwentyOneDaysExactly | script/github-guild-board.py:612-657 | every later clearing keeps the 21 days if and only if the assignee was not active between the look of the check-in's sweep and the check-in, its instant included |
| GuildHistory.OutstandingExactly | script/github-guild-board.py:637-655 | for any log: every later clearing keeps the 21 days if and only if the check-in is 14 days younger than the last activity |
| GuildHistory.LateReplyIsLost | script/github-guild-board.py:612-657 | activity after the look of the clearing sweep does not stop it, and the assignment ends within a run's time limit of it |
| GuildHistory.ReplyBeforePostIsLost | script/github-guild-board.py:612-650 | a run in which a reply between the look and the check-in is lost |
| GuildHistory.ReplyDuringClearingIsLost | script/github-guild-board.py:612-657 | a run in which a reply during the clearing sweep is lost |
| GuildHistory.ReplyInSameInstantIsLost | script/github-guild-board.py:637-655 | a run in which a reply in the instant of the check-in is lost |
| GuildHistory.EngagedBetweenCheckIns | script/github-guild-board.py:620-650 | between two check-ins the later one's addressee was active, at least 14 days before the later one |
| GuildHistory.SilentAssigneeIsCleared | script/github-guild-board.py:637-657 | on an eligible issue with a silent assignee, if from the start of one sweep that acts to the end of the next it takes at most G, the assignment is cleared less than 21 days plus 2G after the last activity |
| PrCleanup.LatestMarkerCommentAt | script/github-pr-cleanup.py:236-246 | the loop finds the latest comment with the marker that is not too old |
| PrCleanup.LatestMarkerIsMax | script/github-pr-cleanup.py:236-246 | the time found is that of such a comment, and none is later |
| PrCleanup.LatestClaRetryIsMax | script/github-pr-cleanup.py:285-295 | the latest bare check of the bot is one, and none is later |
| PrDecisions.LatestTransitionIs | script/github-pr-cleanup.py:218-220 | the draft transition used is one of the pull request's, and none is later |
| PrCleanup.FindStaleDrafts | script/github-pr-cleanup.py:249-255 | the drafts whose last activity is 21 days old, in order, with that activity |
| PrDecisions.DraftActivityExactly | script/github-pr-cleanup.py:210-233 | when a pull request is a draft, and since when, said of its events, the first of the latest transitions deciding |
| PrDecisions.DraftEffectsExactly | script/github-pr-cleanup.py:249-274 | exactly what is done to a draft, said of its activity and of the warnings and explanations there are |
| PrDecisions.ClaEffectsExactly | script/github-pr-cleanup.py:277-341 | exactly what is done for the CLA, said letter by letter of the labels and logins: nothing with a label `cla-signed` in any case, a bot author, or a reply of the author; first a re-check, a day after every re-check a close with one explanation |
| PrDecisions.SignedIsLeftAlone | script/github-pr-cleanup.py:313-382 | within a run over any list, a pull request with a signed CLA that is no stale draft is left alone |
| PrDecisions.UnsignedIsRechecked | script/github-pr-cleanup.py:277-341 | and an unsigned one that is 7 days old, without a reply or a re-check, gets the re-check |
| PrCleanup.Repository.RetryOrCloseUnsigned | script/github-pr-cleanup.py:323-341 | the loop appends to each pull request's effects exactly those of its own CLA action, in order, and nothing in a dry run; it returns how many it closed |
| PrCleanup.Repository.WarnOrCloseStaleDrafts | script/github-pr-cleanup.py:344-363 | likewise for the stale drafts; it returns how many it warned and how many it closed |
| PrCleanup.Repository.Perform | script/github-pr-cleanup.py:328-341 | a comment is posted before the pull request is closed |
| PrCleanup.Repository.CleanUp | script/github-pr-cleanup.py:366-382 | the CLA pass, then the draft pass, on comments read once; the counts add up to the closings |
| PrCleanup.EffectsOnOne | script/github-pr-cleanup.py:366-382 | among the effects of a run over any list with distinct numbers, those on one pull request are its CLA effects and then its draft effects; of a run stopped anywhere, a first part of them |
| PrHistory.RunOfPullRequest | script/github-pr-cleanup.py:366-382 | that is what a run decides on reading in the histories below |
| PrHistory.ClaPromises | script/github-pr-cleanup.py:277-341 | over all histories, with people acting between listing, reading and each effect and runs that may stop anywhere: at most one bot re-check and one CLA explanation; closing for the CLA only 8 days after creation, and only if the pull request was listed without a signed CLA and the comments that were read have none of the author but bare checks |
| PrHistory.ClaCommentsAreForUnsigned | script/github-pr-cleanup.py:277-341 | over all histories, every re-check of the bot and every CLA explanation was posted by a run that had listed a person's pull request without a `cla-signed` label |
| PrHistory.ReplyWhileClosingIsClosed | script/github-pr-cleanup.py:277-341 | a history in which a reply after the reading does not stop the close |
| PrCleanup.ExplainedCloseExactly | script/github-pr-cleanup.py:258-270 | for any log, every explained close keeps 28 days from the last activity if and only if the warning came 21 days after it |
| PrCleanup.UnexplainedCloseExactly | script/github-pr-cleanup.py:258-261 | the same for a close that relies on the explanation of an earlier run |
| PrCleanup.NoSecondExplanation | script/github-pr-cleanup.py:258-270 | no explanation is posted while one of the same activity period is there |
| PrHistory.DraftCloseIsLate | script/github-pr-cleanup.py:210-270 | over all histories with commits dated at their push, when a run closes a stale draft: there is a warning not older than the listed activity and 7 days before the close if and only if every explanation since that activity comes from a run that had listed it; one 21 days younger than the activity if and only if every warning does as well, and then 28 days have passed since it; these are the 28 days of the draft as it is then if and only if there was no activity since the listing |
| PrHistory.StoppedRunClosesUnwarned | script/github-pr-cleanup.py:258-270 | a history in which a commit is pushed while a run explains and the run then stops, so that the next one closes 21 days after the push without any warning since |
| PrHistory.TwentyEightDaysExactly | script/github-pr-cleanup.py:210-270 | over all such histories, after a warning every explained close keeps the 28 days if and only if the run that warned had listed the last activity; otherwise that activity lies at most a run's time limit before the warning |
| PrHistory.PushWhileWarnedIsClosedEarly | script/github-pr-cleanup.py:258-270 | a history in which a commit pushed between listing and warning leads to a close 21 days after it |
| PrHistory.PushWhileClosingIsClosed | script/github-pr-cleanup.py:344-363 | a history in which a commit pushed between listing and closing does not stop the close |
| PrHistory.StoppedRunIsFinished | script/github-pr-cleanup.py:258-261 | after a run that stopped between explaining and closing, a later run of the same activity period only closes |
| PrHistory.ActivityStepsMean | script/github-pr-cleanup.py:201-233 | marking as a draft and pushing to one count as activity then, and marking as ready ends the draft |
| PrHistory.BackdatedCommitIsClosedEarly | script/github-pr-cleanup.py:201-233 | a history in which a commit dated before the warning leads to a close 21 days after the last activity |
| DuplicateIndex.ExtractDuplicateInfo | script/github-find-top-duplicated-bugs.py:71-92 | an issue is listed exactly when at least two distinct closed issues were marked as its duplicates, with that number; without area labels it is unlabeled |
| DuplicateIndex.AreaOfLabel | script/github-find-top-duplicated-bugs.py:92-93 | the area of a label is what follows `area:` |
| IndexLaws.ClosedDuplicatesAre | script/github-find-top-duplicated-bugs.py:71-92 | a duplicate counts exactly when an event marks it as a closed one |
| DuplicateIndex.GroupByArea | script/github-find-top-duplicated-bugs.py:154-159 | the dictionary holds for each area its issues in order, and the counter the areas in order of first use |
| IndexLaws.GroupsAreInOrder | script/github-find-top-duplicated-bugs.py:154-159 | under an area stand the issues that have it, in their original order |
| IndexLaws.CountedInOrder | script/github-find-top-duplicated-bugs.py:155-159 | the counter keeps the areas in the order of their first use |
| DuplicateIndex.AppendSection | script/github-find-top-duplicated-bugs.py:169-176 | a blank line, the header, a blank line and one line for each issue |
| DuplicateIndex.BuildMarkdownBody | script/github-find-top-duplicated-bugs.py:148-178 | the loops print the index that the reader below is proved against |
| IndexLaws.SectionsInOrder | script/github-find-top-duplicated-bugs.py:161-178 | the introduction and then the sections, in the order of the areas |
| IndexLaws.LineOfOneIssue | script/github-find-top-duplicated-bugs.py:173-176 | the line of an issue to the letter, its count in two places |
| DuplicateIndex.SectionsAreRanked | script/github-find-top-duplicated-bugs.py:166-167 | every area has one section, and sections come in descending order of the sum of the counts listed under them |
| DuplicateIndex.TotalsOfListings | script/github-find-top-duplicated-bugs.py:155-159 | the counter of an area is the sum of the counts of its issues, with multiplicity |
| Sorting.SortIsStable | script/github-find-top-duplicated-bugs.py:166-167 | `sorted` and `most_common` keep the order of equal keys |
| Sorting.SortIsPermutation | script/github-find-top-duplicated-bugs.py:166-167 | and give the same items in descending order |
| MagnetParser.ParseDuplicateMagnets | script/github-check-new-issue-for-duplicates.py:475-524 | the loop over the lines builds the dictionary and sorts it |
| MagnetParser.MagnetsAgree | script/github-check-new-issue-for-duplicates.py:509-522 | the dictionary has one entry for each number that was read, with the count of one of its lines and exactly its areas other than the unlabeled one |
| MagnetParser.EntryIsRead | script/github-check-new-issue-for-duplicates.py:498-507 | a printed entry is read as the count and the number it was printed from |
| PythonText.SplitAtFirst | script/github-check-new-issue-for-duplicates.py:498-507 | a text is split at the first occurrence of another |
| PythonText.SignsAreRead | script/github-check-new-issue-for-duplicates.py:498-507 | a number is read with either sign |
| MagnetParser.ClassifyUnderstands | script/github-check-new-issue-for-duplicates.py:491-507 | the reader recognises every kind of line the printer makes |
| MagnetParser.IndexEntries | script/github-check-new-issue-for-duplicates.py:490-507 | the entries read from a printed index are exactly one for each issue and each of its visible areas |
| MagnetRoundTrip.RoundTrip | script/github-check-new-issue-for-duplicates.py:475-524 | reading a printed index gives each issue at most once, with its number, count and set of visible areas, in descending order of counts; an issue is missing exactly when all its areas are blank |
| MagnetRoundTrip.BlankAreaIsLost | script/github-check-new-issue-for-duplicates.py:490-507 | an issue whose only area is the empty name is printed and not found again |
| MagnetRoundTrip.TrimmedRoundTrip | script/github-check-new-issue-for-duplicates.py:475-524 | with non-empty, trimmed area names every issue comes back, and only the unlabeled area is dropped |
| MagnetRoundTrip.IssueBecomesMagnet | script/github-find-top-duplicated-bugs.py:71-178 | across both scripts, an issue becomes a magnet exactly when two distinct closed duplicates and a visible area exist, with that number and those areas |
| CandidateSelection.SelectSearchCandidates | script/github-check-new-issue-for-duplicates.py:613-638 | the selection has distinct keys of the candidates, as many as the limit and the distinct keys allow |
| CandidateSelection.SelectedIsExact | script/github-check-new-issue-for-duplicates.py:613-638 | the same of the specification, for every limit including negative ones |
| CandidateSelection.ReservedAreSelected | script/github-check-new-issue-for-duplicates.py:617-633 | from a limit of six on, every candidate within a channel's quota is selected |
| CandidateSelection.QuotaIsShare | script/github-check-new-issue-for-duplicates.py:617-624 | the share of each channel, as a part of the limit with its least value |
| CandidateSelection.QuotasFitExactly | script/github-check-new-issue-for-duplicates.py:617-633 | that holds for all candidate lists if and only if the limit is at least six |
| CandidateSelection.SixDoNotFitInFive | script/github-check-new-issue-for-duplicates.py:617-633 | six candidates, each within its channel's quota, of which a limit of five leaves one out |
| CandidateSelection.ShownKeysAreDistinct | script/github-check-new-issue-for-duplicates.py:831-855 | every key shown to the proposer stands for one candidate, even when a search finds a known magnet again |
| CandidateSelection.ShownAre | script/github-check-new-issue-for-duplicates.py:831-855 | the kinds and states of what is shown, and how many of each: ten magnets, thirty open and ten closed issues, ten discussions, or as many as there are |
| MatchReview.ResolveMatches | script/github-check-new-issue-for-duplicates.py:1042-1059 | the loop resolves matches with distinct keys and drops all others |
| MatchReview.ResolvedExactly | script/github-check-new-issue-for-duplicates.py:1042-1059 | a key is resolved exactly when one of its entries names a shown candidate of the right state, with a root cause for an open issue |
| MatchReview.ResolvedAreAcceptable | script/github-check-new-issue-for-duplicates.py:1042-1059 | only acceptable entries are resolved, once a key, to the candidate of that key |
| MatchReview.ResolvedFromEntries | script/github-check-new-issue-for-duplicates.py:1042-1059 | what is resolved, from the entries and the shown candidates alone: the first entry with a key that fits the last candidate with that key |
| MatchReview.ResolvedInOrder | script/github-check-new-issue-for-duplicates.py:1042-1059 | in the order of the entries, whatever follows |
| MatchReview.CritiqueProposedMatches | script/github-check-new-issue-for-duplicates.py:1129-1189 | the loop keeps, downgrades or omits each proposal by its verdict; a failed call omits it; it ends with an error exactly when a proposal has no explanation |
| MatchReview.KeptExactly | script/github-check-new-issue-for-duplicates.py:1129-1189 | what is kept as likely are exactly the likely matches told to keep; as possible, the downgraded likely and the kept possible ones |
| MatchReview.KeptConcat | script/github-check-new-issue-for-duplicates.py:1129-1189 | verdicts are taken one by one, and what is kept stays in order |
| MatchReview.ReviewReply | script/github-check-new-issue-for-duplicates.py:1040-1079 | resolving, overlap removal and critique in sequence |
| MatchReview.SurfacedExactly | script/github-check-new-issue-for-duplicates.py:1061-1189 | for every reply and all verdicts, from the entries of the reply: the critique ends with an error exactly when a likely or possible match has no explanation; otherwise exactly which matches survive as likely, as possible and as related closed, so that no possible match is promoted |
| MatchReview.SurfacedAreSound | script/github-check-new-issue-for-duplicates.py:1040-1189 | for every reply and all verdicts without that error, the surviving lists are duplicate-free and disjoint, drawn from the shown candidates of the right state, with a root cause for each open issue |
| SkillSlug.SlugifySkillName | crates/agent_skills/agent_skills.rs:450-493 | the loop computes: replace `&`, drop other characters, split at separators, lower-case, join with single dashes, cut to 64, trim |
| SkillSlug.Truncate | crates/agent_skills/agent_skills.rs:486-491 | a long slug is cut to 64 bytes and trimmed of trailing dashes |
| SlugLaws.CutIsLongest | crates/agent_skills/agent_skills.rs:486-491 | the longest beginning of at most 64 characters that does not end in a dash is left |
| SkillSlug.ValidExactly | crates/agent_skills/agent_skills.rs:506-527 | the validator accepts exactly the names of 1 to 64 lower-case letters, digits and inner hyphens |
| SkillText.NameErrorsExactly | crates/agent_skills/agent_skills.rs:506-527 | which rule is reported, the length counted in bytes of UTF-8 |
| SlugLaws.LettersAndDigits | crates/agent_skills/agent_skills.rs:450-527 | the letters and digits are those of the alphabet, one by one |
| SkillSlug.SlugIsValid | crates/agent_skills/agent_skills.rs:449-493 | a slug always passes the validator |
| SkillSlug.NoSlugExactly | crates/agent_skills/agent_skills.rs:450-493 | there is none exactly when the input has no ASCII letter or digit and no `&` |
| SkillSlug.FixedPointsExactly | crates/agent_skills/agent_skills.rs:450-527 | a name is its own slug if and only if it is valid and has no two hyphens in a row |
| SkillSlug.SlugIsIdempotent | crates/agent_skills/agent_skills.rs:450-493 | the slug of a slug is that slug |
| SlugLaws.CaseIsIgnored | crates/agent_skills/agent_skills.rs:450-493 | a letter counts as the lower-case one of the alphabet |
| SlugLaws.SymbolsAreDropped | crates/agent_skills/agent_skills.rs:450-493 | any other character than letters, digits, spaces, dashes and `&` makes no difference |
| SlugLaws.AmpersandIsAnd | crates/agent_skills/agent_skills.rs:450-493 | `&` counts as `-and-` |
| SlugLaws.SeparatorsCollapse | crates/agent_skills/agent_skills.rs:450-493 | spaces count as dashes, several as one, and none at either end |
| Frontmatter.ScanForClosers | crates/agent_skills/agent_skills.rs:358-386 | the byte scan collects the ends of exactly the closing lines |
| Frontmatter.ScanFindsTheClosers | crates/agent_skills/agent_skills.rs:351-386 | the positions found are the ends of exactly the lines after the first that are three dashes and a line ending, in order |
| Frontmatter.ClosersAreLineEnds | crates/agent_skills/agent_skills.rs:358-386 | the ends increase, are in range, and are the end of the text or follow a line break, so that the text may be cut there |
| Frontmatter.ExtractSkillFrontmatter | crates/agent_skills/agent_skills.rs:292-413 | size limit, opener, closer and parser errors, in the source's order |
| Frontmatter.ErrorsExactly | crates/agent_skills/agent_skills.rs:292-413 | which of the errors there is: more than 102400 bytes, no three dashes at the start, no closing line, or the last error of the parser |
| SkillText.MarksAre | crates/agent_skills/agent_skills.rs:343-386 | the bytes that are scanned for are dashes, line feeds and carriage returns |
| SkillText.TrimsSpace | crates/agent_skills/agent_skills.rs:292-345 | in UTF-8, exactly the white space at the start of a text is trimmed |
| Frontmatter.SplitsAtFirstAccepted | crates/agent_skills/agent_skills.rs:392-413 | the text is split at the first end whose prefix the parser accepts, and only then |
| Frontmatter.BodyIsReplaceableExactly | crates/agent_skills/agent_skills.rs:292-413 | for every parser, replacing the body within the size limit never changes the metadata if and only if the accepted closing line ends in a line break (or there is no room for a body) |
| Frontmatter.BodyIsFree | crates/agent_skills/agent_skills.rs:343-413 | after a closing line with a line break, any other body comes back with the same metadata |
| Frontmatter.UnbrokenCloserIsLost | crates/agent_skills/agent_skills.rs:368-386 | a closing line at the end of the text without a line break is no closing line once a letter follows |
| Frontmatter.UnbrokenSkillIsLost | crates/agent_skills/agent_skills.rs:292-413 | a file of one line `name: a` between two lines of dashes, without a final line break, is read, and no longer once a letter follows |
| TriageWindow.EligibilityWindow | script/github-triage-queue-board.py:87-100 | the window ends two business days before today (before Friday on a weekend) and starts on the Thursday before that week |
| TriageWindow.WindowIsWholeDays | script/github-triage-queue-board.py:77-84 | the inclusive instants take in exactly the days of the window |
| TriageWindow.WindowIsOrdered | script/github-triage-queue-board.py:87-100 | the window is never empty and ends before today |
| TriageWindow.WindowMovesForward | script/github-triage-queue-board.py:87-100 | neither bound ever moves backwards |
| TriageWindow.EligibleExactly | script/github-triage-queue-board.py:87-100 | every creation day is eligible on exactly one non-empty run of days, given by its first and last day, that starts on a business day |
| TriageWindow.WindowEndExactly | script/github-triage-queue-board.py:97-99 | an issue has reached the window exactly when a whole business day is over, except a weekend's issue on the Tuesday after |
| TriageWindow.WeekendIssueWaits | script/github-triage-queue-board.py:97-99 | a Saturday's issue is not eligible on Tuesday although Monday has elapsed |
| TriageBoard.Board.SyncProject | script/github-triage-queue-board.py:182-201 | the board becomes the synced one and the log lists the changes; a dry run has the same log and changes nothing |
| TriageBoard.Board.AddMissing | script/github-triage-queue-board.py:191-195 | one new item for each eligible issue that is not on the board |
| TriageBoard.Board.RemoveStale | script/github-triage-queue-board.py:197-201 | exactly the items of issues that are not eligible are removed |
| TriageBoard.SyncedIs | script/github-triage-queue-board.py:191-201 | removing stale items one by one leaves the added and the other items alone |
| TriageBoard.SyncEqualsEligible | script/github-triage-queue-board.py:182-201 | the issues on the board are the eligible ones; items that are not issues stay, in order |
| TriageBoard.SyncSettlesExactly | script/github-triage-queue-board.py:182-201 | a sync logs nothing exactly when the board has the eligible issues and no others, and it then leaves the board as it is |
| TriageBoard.SecondSyncDoesNothing | script/github-triage-queue-board.py:182-201 | a second sync with the same issues logs and changes nothing |

## Left out

- Network, GitHub, Slack and model calls, pagination and retries: a post, close or send is one atomic step that happens or does not. In the histories a run first reads and then acts, with other people's steps in between; runs of one script do not overlap and end within a quarter of an hour, as the `concurrency` and `timeout-minutes` of `.github/workflows-disabled/guild_stale_assignments.yml` and `.github/workflows-disabled/community_pr_cleanup.yml` say. Comments that are edited or deleted are not modelled.
- GPUI, notifications and rendering of the editor; `activity_indicator.rs`.
- COM, the performance recorder, process elevation and sockets beyond FIFO messages and success or failure. A write that fails is taken not to have been delivered.
- The regular expressions of the deny rules; only the operand expansion in front of them is modelled.
- YAML: an arbitrary function from a prefix to no document, an error or metadata.
- Percentages of the compaction threshold, which are floating-point: an arbitrary printer and parser.
- Windows path prefixes, components that are not UTF-8, and symbolic links. Paths are Unix component lists.
- GuildSweep.RunStale: the Slack messages and the title and link they show; the Status field is part of the clearing action. Markers quoted by people are left out of the histories, not of the decision functions.
- GuildHistory.ClearIsLate: histories have at most one guild assignee at a time.
- PrHistory.DraftCloseIsLate: assumes that commits carry the time of their push; `PrCleanup.ExplainedCloseExactly` and `PrCleanup.UnexplainedCloseExactly` give the exact conditions for any log.
- PrCleanup.Repository.CleanUp: the history of a pull request beyond the page of timeline events the query asks for.
- MatchReview.Review: the comments posted about matches that survive, for which a closed match without an explanation is another error; replies that are not lists of objects, and fields of a wrong type, such as a candidate key that cannot be looked up in a dictionary.
- MagnetParser.ParseDuplicateMagnets: `int` also accepts digits of other scripts; only ASCII digits are modelled.
- CandidateSelection.SelectSearchCandidates: the ranking of the candidates before the selection, and the searches themselves.
- TriageWindow.WindowIsWholeDays: wall-clock seconds in one time zone; days with a clock change have their first and last second like the others. Python's range of dates is not modelled.
- TriageBoard.Board.SyncProject: the search for eligible issues, which GitHub caps at a thousand results, is a parameter.
- Panel layouts, agent profiles, share links, the other scripts of the repository, and its documentation scripts: table look-ups or thin calls into libraries.
