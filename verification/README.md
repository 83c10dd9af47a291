# Verification of universal-peer-mcp

A Dafny model of the parts of `universal-peer-mcp` in which several steps, several processes or a crash have to
fit together, and proofs of what they keep. `dafny verify dfyconfig.toml` checks all of it.

What is modelled, one module to a component:

- `StdinFramer`: the newline framer on the MCP server's standard input. Bytes arrive in chunks of any size; the
  reference is a function of the whole stream that knows nothing of chunks.
- `CheckedBinding` and `TableInForce`: a tool call is checked by the server against its own reading of the target
  table and carried out by the daemon against the daemon's copy. Two processes, interleaved at every await; the file,
  the daemon and other clients may change at any step, and what a read of the file returns is left open. The second
  module asks when the table in force in the daemon is the one on disk, over runs in which loads are honest.
- `UpdateInstall` and `UpdateLock`: the journaled switch of package trees and its recovery, first as renames and their
  undoing on a disk that a crash can cut at any step, then as a machine of any number of updaters, rollbacks and
  recoveries that share one journal file as their lock.
- `SetupRule` and `SetupPlan`: the planner that keeps a managed block in a user's AGENTS.md, with its reading of code fences
  (section 4.5 of the CommonMark Spec, top level only).
- `Archive`, `ArchiveRuns`, `Backup`, `BackupRuns`: the closed copies of finished days, their manifests as commit
  markers, and their copies on another disk, over whole runs with crashes and a clock that can step back.
- `ReleaseManifest` and `ReleaseCheck`: the printer of a release manifest and the checker of a release against it.
- `CanonicalSend`: the line that a send is hashed as, printed as JSON and read back by section 7 of RFC 8259.
- `CodexWalk`: the walk from a process to the Codex host above it, and the bounded search for a thread's rollout.
- `Attempts` and `BodyReads`: two rules about what the ledger holds at most once.
- `Sequences`, `JsText`, `FileTree`, `Days`: splitting and joining, ECMAScript white space, directory trees, days.

Code that changes things in place is a class or a method with the source's own loops, proved against a function; the
theorems are about that function or about a machine whose steps are the stretches between two awaits, or one atomic
file operation. Hashes, gzip, the JSON text of a ledger row and of a manifest, process reads and clocks are parameters.
A table digest is a constructor (so injective). Nothing is assumed of the other hashes but, where a digest is parsed,
that they are 64 hexadecimal digits.

Where the proofs found the code to differ from what is expected of it, the code is kept as it is:

- A recovery of an interrupted switch is exact unless it is itself interrupted after both moves of some package were
  taken back. `UpdateInstall.RecoveryKilledAnywhere` gives the exact condition for a kill after any rename and
  `UpdateInstall.SecondUndoMovesAway` a case: the second undo moves the restored package away. No tree is ever lost
  (`UpdateLock.NothingLost`).
- A journal file that nobody works on can be got past if and only if it has been written
  (`UpdateLock.FreedIffWritten`): an updater that dies between creating the file and writing it leaves an empty one
  that has to be removed by hand (`UpdateLock.EmptyJournalReached`).
- src/daemon.mjs:92-95 says that a table an operator repaired is in force on the next call. In every run it is the
  table adopted last that is in force, so the one on disk is if and only if it is the same (`TableInForce.InForceIff`).
  It can stay behind in two ways, and no request changes that until the file is written again or the daemon restarts;
  calls are refused meanwhile, not sent elsewhere.
  - Two refreshes overlap, and the older table ends up under the newer fingerprint
    (`TableInForce.OverlappingRefreshesStick`).
  - What is repaired is not in the fingerprint. That is inode, size, time and bytes (src/core/target-table.mjs:59-74);
    a load also depends on the file's mode and owner (src/core/state-paths.mjs:119-125) and on where the directories of
    the rows lead (src/core/target-config.mjs:62-77). A `chmod 600`, a `mkdir` of a missing directory or a moved link
    after a look at the file is not seen, and no refresh overlaps (`TableInForce.RepairAroundUnseen`).

  Without overlap the table in force at every rest is what the load gave that was made when the present fingerprint was
  first seen, or the last good table if that load failed; so it is what a load gives now if and only if those are equal,
  and if it loads at all, it is whenever nothing has changed since that load (`TableInForce.InForceWithoutOverlap`).
- The setup planner accepts a rule that leaves a fence open or holds marker text, and then refuses every later run:
  `SetupRule.RerunSettles` and `SetupRule.UpgradesAgree` say exactly when.
- A conversion of a section that leaves a fence open puts blank lines at the very end of the file, which were inside
  that fence, outside any: `SetupRule.ConvertKeeps` says exactly when, `SetupRule.ConversionOpensUp` is a case.
- A backup takes a destination file that it cannot read for an absent one and replaces it
  (`BackupRuns.KeptIffReadable`; `BackupRuns.UnreadableReplaced` is a case).
- A manifest of a tree with no listed file is one line feed, which the checker refuses; and a tree that holds a file
  the printer skips is refused with its own manifest (`ReleaseCheck.WrittenAcceptedIff`).
- An attempt id given as a one-element array passes the argument check, and two of them are never equal: the ledger can
  then hold two intents that read the same (`Attempts.BoxedIdsRepeat`), and only then (`Attempts.RepeatsAreBoxed`).

## Model

| member | source | states |
|---|---|---|
| StdinFramer.Framer.Data | src/server.mjs:145-166 | After any chunk the buffer, the discard flag and everything written are those of the whole stream received so far; the buffer is never over the limit between chunks |
| StdinFramer.Framer.Drain | src/server.mjs:155-161 | The inner loop answers every complete line in order and leaves the unterminated rest |
| StdinFramer.FeedAll | src/server.mjs:145-166 | However a byte stream is cut into chunks, the output and final state equal one function of the whole stream |
| StdinFramer.OneAnswerPerLine | src/server.mjs:145-166 | Over any stream there is exactly one error for each oversize line, terminated or not, and the other non-blank lines are delivered once, whole and in order |
| StdinFramer.StillDiscarding | src/server.mjs:149-151 | A chunk without a line feed changes nothing while an oversize line is being discarded |
| StdinFramer.DiscardEnds | src/server.mjs:149-153 | The line feed that ends a discarded line resumes framing exactly after it, and the discarded line has had its one error |
| SetupRule.LiveLines | src/setup.mjs:36-48 | The line loop gives each line its index and whether it is live, by the fence state after the lines before it |
| SetupRule.LiveOutsideFences | src/setup.mjs:32-48 | A line is marked live exactly when it is in no block from an opening fence to the first line that closes it, or to the end of the document |
| SetupRule.MakePlan | src/setup.mjs:59-87 | The planner as it runs equals the function that the theorems are about; what that answers of a document is `SetupPlan.PlanSays` |
| SetupPlan.PlanSays | src/setup.mjs:59-87 | For every document that is not blank, each of the eight answers if and only if its lines say so: marker text and a clean pair of marker lines, one or several live headings, a section up to the next live heading of level one or two that is a shipped rule, an end in an open fence |
| SetupPlan.CreateIff | src/setup.mjs:61 | A file is created anew exactly if there is none or it holds only white space |
| SetupPlan.ManagedSays | src/setup.mjs:64-70 | With marker text: accepted exactly on a clean pair, unchanged exactly if the pair encloses the lines of the rule, otherwise the lines between are replaced |
| SetupPlan.UnmarkedSays | src/setup.mjs:73-82 | With one heading: converted exactly if the lines from it to the next live heading, or the end, trim to the rule or an earlier one; the lines of the result |
| SetupPlan.OpenerIs | src/setup.mjs:44 | A line opens a fence exactly if it is at most three spaces, three or more of one mark, and an info string, without a backtick if that is the mark |
| SetupPlan.CloserIs | src/setup.mjs:40-41 | A line closes a fence exactly if it is at most three spaces, the same mark at least as often, and nothing but blanks |
| SetupPlan.HeadingIs | src/setup.mjs:71 | A heading is two signs, white space or none, the name, and then no word character |
| SetupPlan.SectionIs | src/setup.mjs:75 | A section starts with one or two signs and a white space |
| SetupPlan.TrimIs | src/setup.mjs:77 | Trimming takes the white space off both ends and nothing else |
| SetupRule.CountBlanks | src/setup.mjs:79-80 | The counting loop finds how many blank lines end a section |
| SetupRule.PlanWraps | src/setup.mjs:59-87 | Every accepted plan, of the four actions or unchanged, produces the block between lines that do not depend on the rule, with no marker text in them and no fence open where the block goes |
| SetupRule.Replan | src/setup.mjs:62-70 | Planning a second rule over a document that holds a first one replaces the block where it stands if the first rule is settled, and is a conflict otherwise |
| SetupRule.RerunSettles | src/setup.mjs:59-87 | For every document, every accepted plan and every list of earlier rules: running again answers unchanged if and only if the rule has no marker text and closes its fences; otherwise it is a conflict |
| SetupRule.UnclosedRuleConflicts | src/setup.mjs:59-66 | A concrete rule with an open fence is created and then refused for good |
| SetupRule.UpgradesAgree | src/setup.mjs:59-87 | When both rules are accepted on a document, applying the first and then the second is accepted if and only if the first is settled, and then gives the text of applying the second directly, across all actions |
| SetupRule.UpdateKeeps | src/setup.mjs:65-70 | An update keeps every line before BEGIN and after END byte for byte, and with a settled rule each keeps its in-fence status |
| SetupRule.ConvertKeeps | src/setup.mjs:73-82 | A conversion replaces one section from its heading to the blank lines that end it; with a settled rule the kept lines keep their status if and only if no blank line at the very end was in a fence the section left open |
| SetupRule.ConversionOpensUp | src/setup.mjs:73-82 | A concrete document, for any settled rule, whose last line is in a fence before its conversion and in none afterwards |
| SetupRule.AppendKeeps | src/setup.mjs:83-87 | An append keeps the right-trimmed document as a prefix, adds a blank line, the block and a line feed, and every kept line keeps its status |
| UpdateInstall.Updater.Lock | tools/update-install.mjs:99-104 | The lock is taken exactly when no journal file exists, and leaves a journal with no moves; otherwise nothing changes |
| UpdateInstall.Updater.MoveTree | tools/update-install.mjs:106 | The journal with the move in it reaches the disk before the rename |
| UpdateInstall.Updater.UndoMove | tools/update-install.mjs:108-112 | One journaled move taken back, with the sidestep for a tree that stands in the way; the trees stored on the disk stay the same ones |
| UpdateInstall.Updater.UndoAll | tools/update-install.mjs:107-114 | The reverse loop undoes every journaled move, last first, conserves the trees, and only then empties the journal on disk |
| UpdateInstall.Updater.SwitchLoop | tools/update-install.mjs:210 | Two moves per package; wherever a rename is refused, the trees, the journal and the steps that reached the disk are those of exactly the moves done |
| UpdateInstall.Updater.Switch | tools/update-install.mjs:208-214 | An update or rollback from a staged state ends with every package switched, exactly if no rename was refused, the daemon came up and the packages still match, or else with every path as it was; the lock is free either way |
| UpdateInstall.Updater.Recover | tools/update-install.mjs:141-146 | A recovery is refused while the journal owner runs or the journal cannot be read; otherwise it undoes the whole journal, and frees the lock exactly if every package is installed afterwards and the daemon comes up; otherwise the emptied journal stays |
| UpdateInstall.DigitsAre | tools/update-install.mjs:110 | The number in the name of a tree that is put aside is the decimal of the time |
| UpdateInstall.UndoRestores | tools/update-install.mjs:106-114 | Undoing a list of performed moves in reverse restores every path |
| UpdateInstall.UnperformedMove | tools/update-install.mjs:106-111 | Undoing a journal whose last move was not performed is exact if and only if its destination was free |
| UpdateInstall.UpdateReadyIff | tools/update-install.mjs:116-126 | An update of distinct staged packages meets what recovery rests on exactly if no `.prev-` name is taken and no package is named like the `.next` of another; the preflight asks neither |
| UpdateInstall.RollbackReadyIff | tools/update-install.mjs:149-161 | A rollback of distinct installed packages meets it exactly if no `.rolledback-` name is taken, no two packages found the same previous tree, and none of these is a package; the search asks none of it |
| UpdateInstall.SwitchResult | tools/update-install.mjs:208-210 | A completed switch puts each new tree at its package, keeps each old one under its name, and changes no other path |
| UpdateInstall.CrashAnywhere | tools/update-install.mjs:98-114 | For any number of packages and a kill before or after any journal write or rename, one complete undo of the journal then on disk restores every path to what it held before the first move |
| UpdateInstall.RecoveryExact | tools/update-install.mjs:107-114 | Over a disk where the first m of n journaled moves stand, one complete undo is exact if and only if m + 1 >= n - n % 2 |
| UpdateInstall.InterruptedRecovery | tools/update-install.mjs:107-114 | A recovery killed with m moves still standing, and the complete one after it, are exact under exactly that condition |
| UpdateInstall.UndoOpsAre | tools/update-install.mjs:107-114 | From any disk, the renames of a recovery one after the other come to the undo of its journal |
| UpdateInstall.RecoveryKilledAnywhere | tools/update-install.mjs:107-114 | The same for a recovery killed after any number of its renames, replayed as the steps that reached the disk |
| UpdateInstall.SecondUndoMovesAway | tools/update-install.mjs:107-114 | A second undo after one package was fully restored moves the restored tree away |
| UpdateLock.MutualExclusion | tools/update-install.mjs:99-105 | In every run of updaters, rollbacks, deaths and recoveries at most one live process is between taking the lock and giving it up |
| UpdateLock.OnlyHolderExtends | tools/update-install.mjs:98-106 | Only that process changes the trees or the journal, and a journaled move is added to exactly what was on disk |
| UpdateLock.NothingLost | tools/update-install.mjs:106-114 | Over any interleaving of moves, refused renames, crashes between any two renames and repeated or interrupted recoveries, the trees on disk are, with their number, those there were before the first move of the latest switch |
| UpdateLock.TreesBalance | tools/update-install.mjs:106-114 | Over any number of updates, rollbacks and recoveries, the trees on disk and those that staging took off `.next` names are, with their number, the trees of the first disk and those that were staged |
| UpdateLock.RecoverableAnywhere | tools/update-install.mjs:98-114 | In any state before an undo has begun, one complete undo of the journal on disk gives back what was there before the first move |
| UpdateLock.RecoveryRuns | tools/update-install.mjs:141-146 | A recovery that runs to its end from such a state restores every path and frees the lock |
| UpdateLock.AbortRuns | tools/update-install.mjs:132-137 | An updater that meets an error at any point of a switch, and whose undo runs to its end, restores every path and frees the lock |
| UpdateLock.SwitchRuns | tools/update-install.mjs:98-106 | When nobody holds the lock, a new updater takes it, performs any moves that can be performed in order, with the journal holding exactly these and the state one from which an undo is exact, and gives the lock up |
| UpdateLock.EmptyJournalBlocks | tools/update-install.mjs:99-104 | No sequence of later steps removes an empty journal file that nobody works on |
| UpdateLock.EmptyJournalReached | tools/update-install.mjs:99-104 | A process killed before its first journal write leaves such a file |
| UpdateLock.FreedIffWritten | tools/update-install.mjs:141-146 | In every run, when nobody works on a journal file that is there, some later steps free the lock if and only if the file has been written |
| CheckedBinding.Daemon.constructor | src/daemon.mjs:88-96 | A daemon starts with all its copies of the table equal to the first reading, which the watch remembers |
| CheckedBinding.Daemon.ObserveTable | src/core/target-table.mjs:38-51 | The look at the file up to the load, with the unchanged file answered from memory and an absent file read as an empty table |
| CheckedBinding.Daemon.FinishLoad | src/core/target-table.mjs:46-57 | The rest of the read: a load that fails keeps the last good table |
| CheckedBinding.Daemon.AdoptReading | src/daemon.mjs:306-311 | The daemon variables after a refresh; its copies of the table and its digest agree again at the end |
| CheckedBinding.DispatchedAsChecked | src/server.mjs:70-105 | In every interleaving, when a target-reaching method of a server call is dispatched, the daemon is the one that answered that call's check, the table in force in both its copies is the one the server read for the call, and the alias is in it |
| CheckedBinding.CheckedCallGoesThrough | src/server.mjs:86-106 | From any run with a live daemon, a call that the server read a table for and that nothing comes between: it is sent if the table in force when the daemon answers is the one read, and ends refused with no request delivered if it is not; sent, it is dispatched once, at that daemon and with that table, exactly if the table is still in force; with an unchanged file it goes through |
| CheckedBinding.RefusedUnasked | src/server.mjs:86-95 | The server refuses a call by itself exactly for a table it cannot read or an alias that is not in the one it read, and the daemon hears nothing of it |
| CheckedBinding.UncheckedSent | src/server.mjs:105 | A call of a method that needs no check, with no alias, is sent at once with no binding |
| CheckedBinding.FailedAskEnds | src/server.mjs:95-100 | A control call that fails ends its call and changes nothing else |
| CheckedBinding.DaemonStarts | src/daemon.mjs:88-96 | A daemon starts on the table it has read, empty if the file is not there, under an identity that no dispatched command has |
| CheckedBinding.NothingUnbound | src/daemon.mjs:277-294 | Nothing that can reach a target is dispatched, for any client, unless it names this daemon and the table in force |
| CheckedBinding.CopiesAgree | src/daemon.mjs:300-315 | `targets`, `core.targets` and `targetsDigest` agree at every await of every run |
| CheckedBinding.CheckedMeansAnswered | src/server.mjs:95-103 | A call leaves the asking state only through the answer of the daemon alive then, with the digest of its table, or through a failed control call, which ends it |
| TableInForce.InForceIff | src/daemon.mjs:300-315 | In every run with honest loads, overlapping as they may, files and what is around them changing at any time: the table in force is the one of the reading adopted last; it is what a load now would give if and only if that gives the same; and a call checked against a table gets past the daemon if and only if that table is the adopted one |
| TableInForce.InForceWithoutOverlap | src/daemon.mjs:92-95 | In every run in which no refresh starts while another is under way, at every rest: the table in force is what the load made when the remembered fingerprint was first seen gave, or the last good one if that load failed; for a file that still has that fingerprint, in any surroundings, it is what a load gives if and only if the two are equal, and it is in the surroundings and at the fingerprint of that load |
| TableInForce.RestAfterAdoption | src/daemon.mjs:306-311 | In such a run every adoption is a rest, so a change is in force on the call whose refresh sees it |
| TableInForce.RefreshAlone | src/core/target-table.mjs:38-57 | From any state, a refresh that nothing interrupts puts what a load gives in force if and only if the fingerprint is not the one last seen, or that table was in force already |
| TableInForce.StaysUntilWritten | src/core/target-table.mjs:38-42 | From a rest, nothing but a change of the fingerprint or a restart changes the table in force, whatever requests come |
| TableInForce.RepairAroundUnseen | src/core/target-table.mjs:59-74 | A run of the machine from its start, without overlap: one refresh loads a new file, or fails to; when a load would give another table later, under the same fingerprint, the table in force stays what it was after any further requests, and a call checked against the repaired table is refused |
| TableInForce.OverlappingRefreshesStick | src/core/target-table.mjs:38-57 | A run of the machine from its start: two refreshes overlap, the older table stays in force under the newer fingerprint after any further requests, and a call checked against the newer table is refused |
| Days.DayOf | src/core/days.mjs:5-9 | A row belongs to the day its time falls in, for negative times too |
| Archive.Archiver.GroupByDay | src/core/archive.mjs:35-42 | The grouping loop gives each day before today its rows in ledger order, and skips rows whose time is unreadable |
| Archive.Archiver.ArchiveClosedDays | src/core/archive.mjs:34-64 | A run performs exactly the specified atomic writes in order, data before manifest, and returns the manifests written and the late rows |
| Archive.Archiver.VerifyArchive | src/core/archive.mjs:68-80 | The check of one copy, with its outcomes in their order, the exceptions of a missing and of a broken file among them |
| Archive.VerifySays | src/core/archive.mjs:68-80 | What each answer of the check says of the two files: which digest, count or order is not that of the manifest |
| Archive.Archiver.ReadArchivedRows | src/core/archive.mjs:85-94 | The loop over the manifests in day order, the first failure thrown, the rows sorted by number |
| Archive.SortDays | src/core/archive.mjs:46 | The keys of a map in rising order, each once |
| ArchiveRuns.EveryCopyHolds | src/core/archive.mjs:55-60 | At every moment of every run, crashes included, every manifest's data verifies and is exactly that day's rows with number up to `lastSeq`, in order, and the manifest counts them |
| ArchiveRuns.ClosedForGood | src/core/archive.mjs:46-54 | A closed copy and its manifest never change again |
| ArchiveRuns.LateExactly | src/core/archive.mjs:47-54 | A run reports a row as late exactly if it lies in a day before the run's today that was closed when the run started and is not in its copy |
| ArchiveRuns.EveryRowAccountedFor | src/core/archive.mjs:34-64 | When a run has finished, every row it was given for a day before its today is in that day's copy or in its report |
| ArchiveRuns.ReadBack | src/core/archive.mjs:85-94 | At every moment `readArchivedRows` succeeds and returns the archived part of the ledger, each row once, in the ledger's order |
| ArchiveRuns.ReplacedCopyRejected | src/core/archive.mjs:68-94 | At every moment of every run: with any other bytes, or none, in the place of a closed day's data, the day verifies exactly if both digests, the number of rows and their order are those of the copy; otherwise it and the reading of the archive fail for the same reason, and no other day is affected |
| ArchiveRuns.PrefixGood | src/core/archive.mjs:46-62 | After any number of a run's writes every manifest is good, what was closed is untouched, and after all of them every day of the run is closed |
| Backup.Copier.CopyFile | src/core/backup.mjs:49-57 | One name: it is an exception exactly if the source is not there, or there is no readable file and the temporary name is taken, and then nothing has changed; otherwise the destination is the old one with the source in place where no readable file was, no temporary file left, and the name is a conflict or counted by the digest of what is there or read back |
| Backup.Copier.CheckAll | src/core/backup.mjs:25-27 | Every closed day is verified first; the good and the invalid ones, or the exception of a missing or broken file |
| Backup.DaysSplit | src/core/backup.mjs:25-27 | Every closed day is in exactly one of the two lists, good or with its reason, both in the order of days |
| Backup.Copier.CopyDays | src/core/backup.mjs:47-59 | The two loops, from any destination: an exception exactly if one of the names stops; no readable file changes; the names before the first that stops are in place and nothing else has changed (`BackedUp`); unless it stopped every name has a readable file, its source if there was none (`Gained`) |
| Backup.CopyNamesMeans | src/core/backup.mjs:47-59 | What the loops compute, for any names and destination, as a whole: the destination filled with the sources of the names before the first that stops, the failure, and exactly the names that differ as conflicts |
| Backup.CopiedCounts | src/core/backup.mjs:57 | `copied` is the number of names without a readable file whose copy was made and read back with the digest of its source |
| Backup.Copier.BackupArchives | src/core/backup.mjs:21-60 | The whole run, with no destination, a relative one, one that is not a directory, or a directory; nothing is looked at before every closed day has been verified, nothing changes unless it is a directory, no readable file ever does, and the files, conflicts, count and failure are those of `Complete` |
| BackupRuns.BackupAlone | src/core/backup.mjs:47-59 | From any state of the machine, a backup that begins and is left to itself ends where the loops of `Backup.Copier` do: the same destination, conflicts and failure, at the name where they stop |
| BackupRuns.ReplacedCopyNotBackedUp | src/core/backup.mjs:24-27 | A closed day whose data was replaced or is gone, so that it does not verify, is not among the names of a backup that begins then, which reports exactly it or ends at once; every other closed day is |
| BackupRuns.NothingOverwritten | src/core/backup.mjs:47-58 | From any destination and archive directory, through any interleaving with archive runs, restarts and half-written temporary files, no readable destination file ever changes |
| BackupRuns.KeptIffReadable | src/core/backup.mjs:47-58 | From any destination, with archive steps in between: a backup that has gone through its names has kept a file that was under one of them if and only if it could be read, and replaced it otherwise |
| BackupRuns.UnreadableReplaced | src/core/backup.mjs:51-55 | For any codec that loses nothing, a run of the machine in which a file that cannot be read is replaced, its bytes lost, and no conflict reported |
| BackupRuns.BackupsAgree | src/core/backup.mjs:47-60 | From an empty destination: no conflict ever, every file in place equals its source, a manifest never without its data, and a backup fails only on a temporary file of the same pid |
| BackupRuns.FinishedBackup | src/core/backup.mjs:47-60 | A backup that goes through its names has both files of every day closed when it began in place, equal to their sources |
| ReleaseManifest.Printer.Walk | tools/update-install.mjs:87 | The recursive walk pushes a row for each listed file below a directory, in the order the directory is listed, and enters no `node_modules` |
| ReleaseManifest.Printer.Manifest | tools/update-install.mjs:85-89 | The text is the sorted rows, a line feed after each |
| ReleaseManifest.ManifestIs | tools/update-install.mjs:85-89 | The manifest is one line for each file of the tree that is not skipped, with its hash and path, and no other, in rising order of the lines as texts |
| ReleaseManifest.BeforeIs | tools/update-install.mjs:88 | The order is that of texts: the lower character where they first differ, or the shorter one |
| ReleaseManifest.OrderDoesNotMatter | tools/update-install.mjs:85-89 | Two listings of the same tree have the same manifest, whatever the order of directory entries |
| ReleaseManifest.SameManifestSameContents | tools/update-install.mjs:85-89 | Two trees have the same manifest if and only if they list the same paths with the same hashes |
| ReleaseCheck.Verifier.ReadRows | tools/verify-release.mjs:11-16 | The row loop: fails on a malformed row, a bad path or a repeated one, and otherwise fills the map |
| ReleaseCheck.Verifier.Visit | tools/verify-release.mjs:18-28 | The recursive walk uses the map up as the specification does, with the first error met |
| ReleaseCheck.Verifier.VerifyRelease | tools/verify-release.mjs:7-31 | The whole check equals the specification, every error in its order |
| ReleaseCheck.UseAllIff | tools/verify-release.mjs:18-28 | The walk goes through exactly when everything below is a regular file whose path and hash are in the map, and then has used exactly those entries up |
| ReleaseCheck.AcceptedIff | tools/verify-release.mjs:7-31 | A release is accepted if and only if the pin is a digest and the manifest's, the manifest parses, there is no link or device, and the path-to-hash map without the root manifest equals the manifest's; the count is its size |
| ReleaseCheck.ParseIff | tools/verify-release.mjs:12-16 | The rows parse exactly if each has the form of one with a plain path and no two have the same path; the map is then theirs |
| ReleaseCheck.PlainPathIff | tools/verify-release.mjs:14 | A path is plain exactly if it is that of names a directory can have, none of them a dot or two |
| ReleaseCheck.RefusedBecause | tools/verify-release.mjs:7-31 | Every refusal in the order of the checks: the pin, the manifest, its hash, its rows, the first thing the walk meets that does not fit and what it is, or a listed path that nothing is met under; a manifest that lists itself is refused so |
| ReleaseCheck.ParsePrinted | tools/verify-release.mjs:12-16 | What the printer prints for plainly named files, the checker reads back as the same map |
| ReleaseCheck.WrittenAcceptedIff | tools/verify-release.mjs:7-31 | A tree of regular files given its own printed manifest is accepted if and only if it has a file, the manifest lists all of them and all paths are plain |
| CanonicalSend.StringBack | src/core/dedupe.mjs:10 | Any sequence of code units, lone surrogates included, is read back by section 7 of RFC 8259 as it was printed |
| CanonicalSend.ObjectBack | src/core/dedupe.mjs:10 | The same for a whole object of string and null members |
| CanonicalSend.Reread | src/core/dedupe.mjs:4-11 | A canonical line reads back as the send with its UUIDs in lower case, and canonicalising that gives the line again |
| CanonicalSend.LineIs | src/core/dedupe.mjs:10 | A canonical line from its first character to its last: the six fields in their order, without a blank, the UUIDs in lower case |
| CanonicalSend.EscapesAre | src/core/dedupe.mjs:10 | Which characters are escaped, and how |
| CanonicalSend.RefusedBecause | src/core/dedupe.mjs:4-9 | A send has a line exactly if every field is in order, the body being one to 64 KiB of UTF-8 without a zero; otherwise the first field that is not is named |
| CanonicalSend.SameLineIff | src/core/dedupe.mjs:4-11 | Two valid sends have the same line if and only if they agree on every field up to letter case in the three UUIDs |
| CanonicalSend.LineIsClean | src/core/dedupe.mjs:10 | A canonical line has no control character and no lone surrogate, whatever the alias and the body hold |
| CanonicalSend.Utf8Injective | src/core/dedupe.mjs:13 | UTF-8 loses nothing of a text without lone surrogates |
| CanonicalSend.SameBytesIff | src/core/dedupe.mjs:10-13 | The bytes that are hashed are the same for two valid sends if and only if their lines are |
| CanonicalSend.ByteLengthIs | src/core/dedupe.mjs:9 | The length the body is limited by is that of its UTF-8 bytes |
| CodexWalk.AncestorsAreParents | src/core/codex-identity.mjs:50-65 | The chain walked is parent after parent without repetition, and ends only at the bound, at an unreadable parent, at process 1 or where a cycle closes |
| CodexWalk.Resolve | src/core/codex-identity.mjs:49-73 | For every parent chain the walk ends with what the chain says: which thread, which host, or which refusal |
| CodexWalk.BasenameIs | src/core/codex-identity.mjs:62 | `Basename` gives what follows the last slash of a path, slashes at its end aside |
| CodexWalk.BasenameOfPath | src/core/codex-identity.mjs:62 | For any directory and any name without a slash: the base name of the two joined, and of the name alone, is the name |
| CodexWalk.OneAnswer | src/core/codex-identity.mjs:49-73 | Exactly one resolution fits a chain |
| CodexWalk.ProvenIff | src/core/codex-identity.mjs:49-73 | A thread is proven exactly if the first process of the chain with a value for the variable has a UUID there, a process at or above it within the bound runs an executable whose last path component is `codex`, the thread is registered and the carrier's start time could be read and stayed the same |
| CodexWalk.Search.Walk | src/core/codex-identity.mjs:33-47 | The recursive search with its shared day counter finds a rollout exactly if one lies in the first days, newest first, that the counter has room for |
| CodexWalk.Search.ThreadHasRollout | src/core/codex-identity.mjs:33-47 | The same from the root, with the whole bound |
| CodexWalk.NewestOrder | src/core/codex-identity.mjs:37 | The names of a directory are met in falling order as texts, and all of them |
| CodexWalk.RolloutNames | src/core/codex-identity.mjs:39 | Which names are those of a thread's rollout |
| CodexWalk.SearchIff | src/core/codex-identity.mjs:33-47 | The search is never wrong when it answers yes, and complete when there are at most `maxDays` day folders |
| Attempts.Store.RecordAttempt | src/core/attempts.mjs:52-56 | A call appends its row or is refused, and a refusal leaves the ledger unchanged |
| Attempts.AlwaysOrderly | src/core/attempts.mjs:38-56 | Over any run with other rows and restarts that read the ledger back, each attempt id has at most one intent and one outcome, and every outcome follows an intent for the same message |
| Attempts.ScanIsMap | src/core/attempts.mjs:38-50 | The scan of the ledger decides as a map from id to none, intended and done would |
| Attempts.RecordedIff | src/core/attempts.mjs:38-50 | In every run: an outcome is recorded exactly if an intent with its id is there for the very same message and no outcome with that id, an intent exactly if no attempt row with its id is |
| Attempts.AcceptedIff | src/core/attempts.mjs:15-35 | Arguments are accepted exactly if they name their phase and are otherwise of its closed shape, and are recorded as they are |
| Attempts.AlwaysClosed | src/core/attempts.mjs:1-35 | In every run every attempt row in the ledger has the closed shape of its kind: ids, a path name, an alias, an outcome, a code, and no other field |
| Attempts.RepeatRefusedIff | src/core/attempts.mjs:39-42 | A second intent whose id reads the same is refused if and only if it is the same value, as it is for strings |
| Attempts.RepeatsAreBoxed | src/core/attempts.mjs:15-56 | In every run, two attempt rows of a kind whose ids read the same occur only where an id is not a string |
| Attempts.BoxedIdsRepeat | src/core/attempts.mjs:15-35 | Two intents whose id is a one-element array with the same text are both recorded |
| BodyReads.Recorder.RecordBodyReads | src/daemon.mjs:678-689 | One call alone appends the first new keys of its rows in order, at most 50, and remembers exactly them besides |
| BodyReads.Recorder.constructor | src/daemon.mjs:152 | The set at startup is the keys of the ledger |
| BodyReads.NewKeysAre | src/daemon.mjs:678-689 | Those keys are new, distinct, at most 50, each of a row with a body and a number, and all of these unless the 50 are used up |
| BodyReads.AloneAddsNewKeys | src/daemon.mjs:678-689 | From any state of the machine, a call that is served and goes on with nothing in between adds exactly the keys of `RecordBodyReads` to the ledger, in order, and to the set, and touches no other call |
| BodyReads.RecordedOnce | src/daemon.mjs:678-689 | Over any interleaving of calls, appends that fail with or without their row landing, and restarts, there is at most one row for a message row and a reader process |
| BodyReads.OnlyHandedOut | src/daemon.mjs:678-689 | Over the same interleavings, every row was written by a call that was given a body with that number for that process |
| BodyReads.RestartEndsCalls | src/daemon.mjs:152 | A restart rebuilds the set from the ledger, and no call from before it does anything afterwards |
| BodyReads.FiftyPerCall | src/daemon.mjs:685-686 | One call adds at most 50 rows, however calls interleave |

## Left out

- BackupRuns.KeptIffReadable: a destination entry is a regular file here; a directory under a final name, on which the rename fails, is not modelled.
- Backup.Copier.BackupArchives: the remote (ssh, rsync) branch is not modelled.
- UpdateLock.MutualExclusion: assumes that no two recoveries are started at once and that a liveness read is accurate; the code guards against neither.
- UpdateInstall.CrashAnywhere: assumes what `UpdateInstall.Ready` says (fresh destination names), which the preflight does not check; `UpdateInstall.UpdateReadyIff` and `UpdateInstall.RollbackReadyIff` spell it out.
- UpdateInstall.Updater.UndoMove: a rename that the system refuses for another reason than an occupied name is not a case here; it is the step `Refused` of `UpdateLock`, where it loses no tree.
- UpdateInstall.Updater.UndoAll: the same.
- UpdateInstall.Updater.Switch: whether the daemon comes up and whether the packages match their manifests are parameters.
- A load during which the file or what is around it changes counts as made in surroundings of its own.
- Days.DayOf: a day is a number, where the source has its text; they order alike in the years 0 to 9999. An unreadable time is `Archive.DayOfRow`.
- SetupRule.UpdateKeeps: in-fence status after the block is stated for a rule that closes its fences and has no marker text; with another rule the document is a conflict from then on.
- ReleaseCheck.AcceptedIff: manifest bytes are read as characters one for one, so UTF-8 decoding is not part of the model; a row with anything beyond ASCII is refused either way.
- CanonicalSend.Reread: the reader takes objects without insignificant white space and with string or null values, which is all the printer prints.
- The choice of the newest `.prev-` tree for a rollback, staging, the syntax and doctor checks of a staged tree, and the daemon restart.
- The succession that rewrites the table during a send: the table in force is the one at the moment `dispatch` is entered.
- The inside of gzip and SHA-256, and the JSON text of ledger rows and manifests: a codec that loses nothing and abstract hashes.
- A run's `createdAt` is its clock, not an ISO text.
- Sort order of characters beyond the Basic Multilingual Plane: strings compare by code point, JavaScript compares by code unit. No result depends on which order it is.
- `Buffer.toString` and `trim` of a line in the framer: which lines are blank is a parameter.
- The ledger store itself: rows are numbered without a gap, an append is atomic, a checked append decides inside the write chain.
- Letter case beyond ASCII in `toLowerCase`: only a value that is a UUID after it matters.
- Sockets, process reads, spawning, signals, `doctor`, command-line parsing, the daemon's own socket framing, alerts, rate limits, posts and reply routing.
