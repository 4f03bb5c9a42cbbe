# Arcpanel agent: a model of its protocols, its release store and its text formats

Arcpanel is a hosting panel. Its agent runs on the server and works through files, child
processes and shared counters. This project models the parts of the agent (and one part of
the command-line client) whose correctness is not visible in any single function, and proves
what they are for. `dafny verify dfyconfig.toml` checks the whole project.

## What is modelled

- **Web terminal gate** (`TerminalGate`, `CommandFilter`). The gate keeps a shadow copy of the
  line the shell is editing and forwards a message whole or not at all. Its partner is an
  abstract line discipline that reads the PTY and knows nothing of the gate.
- **Interleaved protocols** (`TerminalSlots`, `LogStreams`, `TokenRotation`). One step per atomic
  access, lock section or file operation; every interleaving is covered.
- **Filesystem** (`FileSystem`, `TreeOps`). Trees with symbolic links, path strings as
  `std::path` reads them, resolution with the kernel's limit of 40 links, and one function for
  each call that changes a node.
- **Path resolution** (`SafePath`) and creation of entries (`SiteFiles`) on such trees.
- **Atomic release store** (`ReleaseStore`, with `PathTracks`, `ReleaseTrees`, `ReleaseLinks`,
  `ReleaseRounds`, `ReleaseLists`, `ReleaseData`, `ReleaseLoops`, `ReleaseCopy`, `ReleasePhases`,
  `ReleaseSwap`, `ReleaseRuns`). `Site.trace` records the tree after every step. `Good` is the
  invariant of a site, `Calm` what a deploy may do before the swap, `Settled` what may happen
  after it. On a `faulty` site any single call may fail. Entries are all strings the route
  accepts: empty, slashed, dotted, nested or listed twice, and every deploy of a run has its own
  list. `ReleaseConditions` and `ReleaseFailures` show why the conditions on links and lists are
  there.
- **Retention** (`Retention`): keep the N greatest names.
- **Parsers with a printer to invert** (`Csv`, `Tsv`, `Chunked`, `Ansi`).
- **Line-oriented stores** on one library for `lines` and `join` (`Lines`): `Crontab`, `MainCf` and
  `MailConf` (Postfix), `Redirects` and `AuthBlocks` (nginx), `EnvFile` and `EnvReaders` (.env).
- **Log aggregation** (`LogStats`).
- `Wrappers` holds the optional value, `Text` the string primitives with the meaning the Rust
  standard library gives them.

## Assumptions

- Lower-casing is a library function with context rules of its own, so the command filter takes
  it as a parameter; the results about Ctrl+U and Ctrl+C need that it keeps the patterns found
  in a piece of a line.
- Terminal input holds no control characters but CR, LF, DEL, BS (and Ctrl+U, Ctrl+C where
  stated): tab completion, arrow keys and the like are outside the line discipline. Writes to the
  PTY succeed.
- One rotation runs at a time and each draws a token never used before.
- The site directory of a deploy is a physical path. git, the deploy script and cp are one step
  each, with their outcome given. A deploy script writes to its own release, and otherwise only
  adds files under shared/ or fills empty ones; it makes no links there. A relative target of
  `current` is read from the agent's working directory, taken to be the root.
- Deploys of one site run one after the other, with ids greater than all names in releases/.
- Links do not lead a deploy astray: none of the repository lies on the way to an entry, and those
  under shared/ on the way to one lead to themselves. If calls fail or entries end in a slash, an
  entry that has others below it is, in the old release, a link into shared/ or free of links. Each
  of the three has a failing input in `ReleaseConditions` and `ReleaseFailures`.
- A run starts with links under shared/ leading to themselves on the way to every path that any of
  its deploys lists; the run then keeps that so, if the lists are clear of each other.
- A user file of `AuthBlocks` is named after a valid domain, so its name holds no whitespace,
  semicolon or brace.

## What does not hold without its condition

Each of these is stated in the model with the exact condition or a concrete run.

- An empty string among the shared paths, which the route accepts, makes the clean-up remove the
  release itself, and unless a named entry follows, `current` leads nowhere after a deploy that
  reports success (`ReleaseSwap.EmptyEntryDangles`, `ReleaseStore.Site.AtomicDeploy`).
- A shared path listed after one it lies below is cleaned up through the link of the outer one, so
  the data under shared/ goes; listed before it, it stays (`ReleaseLoops.LostExactly`,
  `ReleaseLoops.DataLostExactly`).
- Deploys with different lists can break the site, though each list is harmless alone: a copy puts a
  link of the old release inside a shared directory, an entry of the next list below it makes
  releases, and the prune keeps these in place of the one that is served
  (`ReleaseFailures.ChangingListsDangle`).
- A file of the repository above a shared path keeps that path from becoming a link
  (`ReleasePhases.LinkedExactly`, `ReleaseFailures.FileBlocksLink`).
- A shared path written with a trailing slash never becomes a link
  (`ReleaseLinks.SlashEntryNeverLinked`).
- The copy from the previous release puts a directory inside the shared directory that linking
  has just made, not in its place, and copies no directory onto a file; only a file onto a file
  arrives (`ReleaseCopy.ArrivesAfterLinking`, `ReleaseCopy.CopyLandsInside`). The comment in the
  code says it copies the shared items.
- Creating a file at a granted path where a dangling link sits creates it where the link leads
  (`SiteFiles.CreatedWhereGranted`, `SiteFiles.LinkWrittenThrough`).
- With Ctrl+U or Ctrl+C typed on a line that is not empty the gate's buffer and the shell's line
  part (`TerminalGate.FollowsExactly`); what the shell completes is still accepted
  (`TerminalGate.SiteSessionSafeWithCancelKeys`).
- A deploy asked to keep no release deletes itself (`ReleaseSwap.NewestSurvives`); the route keeps
  at least two.
- A check of the agent's current token is turned away exactly if the grace token it reaches is
  60 s old or a second rotation has overtaken it (`TokenRotation.CurrentTokenAccepted`).
- `kill_terminals` resets the counter but not the sessions, so more than 20 can be admitted
  (`TerminalSlots.ResetsLetSessionsAccumulate`), and a refused connection counts until it has
  undone its add (`TerminalSlots.RefusalMayBeSpurious`).
- The log-stream limit can be passed by as many requests as fit between check and increment
  (`LogStreams.WindowLetsLimitBePassed`).
- A chunk extension stops the chunked decoder (`Chunked.ExtensionStops`), and a chunk size near
  2^64 makes it panic (`Chunked.PanicExactly`).
- A control sequence with a final byte that is no letter eats text (`Ansi.FinalByteMustBeLetter`).
- An id and a label that spell the cron marker together make `remove_cron` take a wrong entry
  (`Crontab.StraddlingTitle`). An unreadable crontab is taken for an empty one, so a sync then
  writes the panel's entries alone (`Crontab.Crontab.SyncCrons`).
- A relay host with an equals sign is reported cut short (`MailConf.RelaySeen`); one that spells
  the rate-limit comment shows up as a rate limit (`MailConf.HostSpellsRateLimit`), and a relay line
  that carries that comment goes with the rate limit (`MailConf.RateCommentTakesRelay`).
- A redirect target that spells another rule makes the removal of that rule take its own along
  (`Redirects.TargetSpellsAnotherSource`).
- A value ending in a carriage return loses it in a .env file (`EnvFile.EditCarriesExactly`), and
  one that stands in quotes and has no space is read back without them (`EnvReaders.EnvReadBack`).
- A redirect source ending in "return" and a protected path ending in "location" are not listed
  as they are (`Redirects.ListedAsAdded`, `AuthBlocks.ListedExactly`).

## Model

| member | source | states |
|---|---|---|
| `CommandFilter.PieceOfSafeIsSafe` | panel/agent/src/services/command_filter.rs:88-107 | a piece of a non-blank accepted line is accepted too, so the blocklist is monotone under cutting a line short |
| `CommandFilter.AcceptedExactly` | panel/agent/src/services/command_filter.rs:8-107 | a line is refused if and only if it is not blank and one of the words of the two blocklists, spelled out, stands in its lower-cased form |
| `CommandFilter.CronAcceptedExactly` | panel/agent/src/services/command_filter.rs:8-90 | a cron command is taken if and only if it is not empty, at most 4096 bytes long, free of the listed control and shell characters, and none of the words of the base list, spelled out, stands in its lower-cased form |
| `TerminalGate.FeedForgetsHistory` | panel/agent/src/routes/terminal.rs:447-573 | what the line discipline makes of further input depends on its pending line only |
| `TerminalGate.TerminalSession.ScanLoop` | panel/agent/src/routes/terminal.rs:458-516 | the character loop blocks exactly if the payload completes a rejected line, and otherwise leaves the discipline's pending line in the buffer |
| `TerminalGate.TerminalSession.Receive` | panel/agent/src/routes/terminal.rs:447-573 | one text frame takes the session to the state the step function gives, for JSON input, raw text, other JSON and blocked messages alike |
| `TerminalGate.TerminalSession.Serve` | panel/agent/src/routes/terminal.rs:447-573 | a whole session ends in the state of the fold over its messages |
| `TerminalGate.SiteSessionSafe` | panel/agent/src/routes/terminal.rs:447-573 | for every message sequence without other control characters the buffer equals the shell's pending line after each message, and every line the shell completes is empty once trimmed or accepted by the filter |
| `TerminalGate.GateIsExact` | panel/agent/src/routes/terminal.rs:458-516 | in every reachable state a message is dropped if and only if forwarding it would complete a rejected line |
| `TerminalGate.HarmlessSessionUnaltered` | panel/agent/src/routes/terminal.rs:447-573 | a session of which no line would be rejected reaches the PTY byte for byte |
| `TerminalGate.ServerSessionUnaltered` | panel/agent/src/routes/terminal.rs:447-573 | a server terminal (no site) is never filtered: raw and JSON input reach the PTY unchanged |
| `TerminalGate.FollowsExactly` | panel/agent/src/routes/terminal.rs:458-516 | through a payload with Ctrl+U and Ctrl+C the buffer is the shell's pending line, character by character, if and only if these keys meet an empty line only |
| `TerminalGate.SessionFollowsExactly` | panel/agent/src/routes/terminal.rs:447-573 | the same over whole sessions: buffer and pending line agree after every character let through if and only if these keys, in messages let through, meet an empty line only |
| `TerminalGate.CancelKeyBreaksEquality` | panel/agent/src/routes/terminal.rs:458-516 | a key that does find something to cancel: the concrete payload |
| `TerminalGate.SiteSessionSafeWithCancelKeys` | panel/agent/src/routes/terminal.rs:447-573 | with Ctrl+U and Ctrl+C typed anywhere, completed lines are still all blank or accepted, if the filter is monotone |
| `TerminalGate.NoForbiddenWord` | panel/agent/src/routes/terminal.rs:447-573 | over every session of a site terminal, with or without Ctrl+U and Ctrl+C: however a completed line is padded with white space, no word of the two lists stands in the lower-cased form of what is between |
| `TerminalGate.KeysTyped` | panel/agent/src/routes/terminal.rs:458-516 | return and line feed complete a line, backspace and delete take one character back |
| `TerminalGate.ForbiddenLineStopped` | panel/agent/src/routes/terminal.rs:458-530 | when a line with such a word is entered, in any state of the gate, the shell gets Ctrl+U and Ctrl+C in place of the message, and the buffer is cleared |
| `TerminalSlots.Server.constructor` | panel/agent/src/routes/terminal.rs:20-20 | the counter starts at the initial state of the step relation |
| `TerminalSlots.Server.Connect` | panel/agent/src/routes/terminal.rs:55-66 | one connection: add first, compare after; refused if and only if 20 or more were counted |
| `TerminalSlots.Server.GiveBack` | panel/agent/src/routes/terminal.rs:295-338 | every path that gives a slot back is one saturating release step |
| `TerminalSlots.Server.KillTerminals` | panel/agent/src/routes/security.rs:185-187 | the reset zeroes the counter, reports its old value and leaves the holders alone |
| `TerminalSlots.CounterBounds` | panel/agent/src/routes/terminal.rs:55-112 | over every interleaving, resets included, the counter never exceeds the number of slot holders, misses at most what the resets reported, and admitted sessions stay at or below 20 plus that |
| `TerminalSlots.AddNeverWraps` | panel/agent/src/routes/terminal.rs:55-60 | the add never wraps while fewer than 2^32 connections hold a slot |
| `TerminalSlots.WithoutKillExact` | panel/agent/src/routes/terminal.rs:295-338 | without resets the counter equals the number of holders and at most 20 sessions are admitted, although the add precedes the check |
| `TerminalSlots.RefusedIffSlotsHeld` | panel/agent/src/routes/terminal.rs:55-66 | without resets a connection is refused if and only if 20 slots are held, those of refused connections included |
| `TerminalSlots.ResetsLetSessionsAccumulate` | panel/agent/src/routes/security.rs:185-187 | that bound is tight: a run with k resets in which 20*(k+1) sessions are admitted |
| `TerminalSlots.RefusalMayBeSpurious` | panel/agent/src/routes/terminal.rs:55-60 | a connection can be refused while only 19 sessions are admitted: the run |
| `LogStreams.Server.constructor` | panel/agent/src/routes/logs.rs:21-21 | the counter starts at the initial state of the step relation |
| `LogStreams.Server.StreamHandler` | panel/agent/src/routes/logs.rs:182-189 | a request passes the check if and only if fewer than 10 streams are counted |
| `LogStreams.Server.HandleStream` | panel/agent/src/routes/logs.rs:218-219 | the increment is a step of its own, after the check |
| `LogStreams.Server.Drop` | panel/agent/src/routes/logs.rs:205-237 | guard and failed spawn give back exactly one |
| `LogStreams.CounterExactAndBounded` | panel/agent/src/routes/logs.rs:182-237 | over every interleaving the counter equals the number of live streams and these stay at or below 9 plus the peak number of requests between check and increment |
| `LogStreams.ReleaseNeverUnderflows` | panel/agent/src/routes/logs.rs:205-237 | no release meets a counter of zero |
| `LogStreams.TurnedAwayIffTenLive` | panel/agent/src/routes/logs.rs:182-189 | a request is answered 429 if and only if ten streams are live |
| `LogStreams.WindowLetsLimitBePassed` | panel/agent/src/routes/logs.rs:182-219 | the bound is tight: n requests inside the window bring 9+n streams to life |
| `TokenRotation.AppState.RotateToken` | panel/agent/src/routes/mod.rs:204-241 | a rotation without interference: both tokens, the file and the failure paths |
| `TokenRotation.AppState.Authenticate` | panel/agent/src/routes/mod.rs:158-200 | a check without interference accepts the health path, the current token, and the previous one for 60 s to the nanosecond; it is the two steps of the protocol run back to back |
| `TokenRotation.WholeRotation` | panel/agent/src/routes/mod.rs:204-241 | the steps of an undisturbed rotation add up to the rotation |
| `TokenRotation.CurrentTokenAccepted` | panel/agent/src/routes/mod.rs:158-241 | over every interleaving a request with the token current at its start is accepted if and only if it does not reach a grace token 60 s old and no rotation set its grace token during the check after another had finished |
| `TokenRotation.AcceptedSoundly` | panel/agent/src/routes/mod.rs:158-241 | over every interleaving: the token of a check that was accepted was current, or displaced less than 60 s before, at some moment while the check ran |
| `TokenRotation.CheckedAlone` | panel/agent/src/routes/mod.rs:158-200 | the two steps of a check with nothing between them accept exactly the tokens that are valid then |
| `TokenRotation.MissedCheckFindsGraceToken` | panel/agent/src/routes/mod.rs:158-200 | a check that has missed the current token finds its own in the grace slot, and the 60 s are counted to the nanosecond |
| `TokenRotation.OvertakenCheckRejected` | panel/agent/src/routes/mod.rs:158-241 | a check so overtaken, with the clock standing still: the run |
| `TokenRotation.NextRotationEndsGrace` | panel/agent/src/routes/mod.rs:204-241 | a displaced token is dead as soon as the next rotation sets its grace token |
| `TokenRotation.DisplacedTwiceNeverAccepted` | panel/agent/src/routes/mod.rs:158-241 | a token displaced by two finished rotations is never accepted again |
| `TokenRotation.DiskAgreesBetweenRotations` | panel/agent/src/routes/mod.rs:204-241 | between rotations the token file holds the current token if and only if it did at the start or a rotation has finished since |
| `FileSystem.ResolveLinkFree` | panel/agent/src/services/files.rs:24-69 | resolution of a path without links arrives at that path exactly if it is there |
| `FileSystem.LinkResolves` | panel/agent/src/services/deploy.rs:432-446 | a link at the end of a path leads to the physical path it names |
| `SafePath.WalkUp` | panel/agent/src/services/files.rs:44-61 | the ancestor loop ends, and what it found and collected spell the located path |
| `SafePath.ResolveSafePath` | panel/agent/src/services/files.rs:24-69 | the outcome is the judgement on the canonical site root and the located path, whichever branch the code takes; without links at the site root a granted path lies below var, www and the domain |
| `SafePath.GrantedBelowSiteRoot` | panel/agent/src/services/files.rs:24-69 | for every tree, domain and request a granted path is the canonical site root followed by plain names |
| `SafePath.GrantedInSite` | panel/agent/src/services/files.rs:24-69 | for a domain that is one name, without links at its site root: every granted path lies below var, www and the domain, and "Site root does not exist" is answered if and only if that is not there |
| `SafePath.CandidateNamed` | panel/agent/src/services/files.rs:25-30 | for a request of plain names, with any slashes in front, the candidate is var, www and the domain followed by exactly these names |
| `SafePath.NamedRequestGranted` | panel/agent/src/services/files.rs:24-69 | a request of plain names with no link on its way is granted as it is spelled, in the domain's own directory, be the node there or not |
| `SafePath.ExistingRequest` | panel/agent/src/services/files.rs:24-69 | an existing node is granted if and only if it lies in the canonical site root, and the path granted names that node without any link |
| `SafePath.MissingStaysMissing` | panel/agent/src/services/files.rs:43-62 | the path found for a missing node (without a trailing slash) is no existing file or directory; at most a link that leads nowhere sits there |
| `SafePath.LocatedBelowAncestor` | panel/agent/src/services/files.rs:43-62 | the located path is the canonical form of the deepest existing ancestor followed by exactly the missing names of the request |
| `SafePath.InvalidExactly` | panel/agent/src/services/files.rs:47-54 | "Invalid path" is answered if and only if some ".." of the request cannot be followed, whatever stands behind it |
| `SiteFiles.CreatedWhereGranted` | panel/agent/src/services/files.rs:184-203 | creation at a path keeps every node there was; without links on the way what is new is the path itself and directories on the way, and the path is there exactly if no file was in the way; with a link on the way nothing new lies on it |
| `SiteFiles.GrantedCreation` | panel/agent/src/services/files.rs:24-203 | for a granted request all that is created lies strictly below the site root when no link is on the way; where the directory of the request exists, the only such link is one at the granted path itself |
| `SiteFiles.LinkWrittenThrough` | panel/agent/src/services/files.rs:184-203 | a dangling link at the path: no directory is made, and a file comes to lie where the link leads, never on the granted path |
| `SiteFiles.LinkedNameCreated` | panel/agent/src/services/files.rs:184-203 | where that is for a link to another name in its own directory: the failing family |
| `Retention.Sort` | panel/agent/src/services/deploy.rs:491-491 | any listing, sorted: ascending, same names |
| `Retention.SurvivorCount` | panel/agent/src/services/deploy.rs:492-497 | keeping N of a list leaves min(N, count) names |
| `Retention.PruneAscending` | panel/agent/src/services/deploy.rs:484-500 | deletion of the first len-N of an ascending list leaves the N greatest names and those whose deletion failed |
| `Retention.PruneDescending` | panel/agent/src/routes/remote_backup.rs:192-214 | deletion of the tail of a descending list leaves the same, and counts what was deleted |
| `Retention.DropTail` | panel/agent/src/routes/security.rs:326-336 | the loop over the tail, also with fewer names than are kept |
| `Retention.FixedWidthOrder` | panel/agent/src/services/deploy.rs:256-258 | for ids of one width made of digits string order is numeric order |
| `Retention.SurvivorsAreNewest` | panel/agent/src/services/deploy.rs:484-500 | so every survivor is newer than every deleted id |
| `ReleaseStore.Site.constructor` | panel/agent/src/services/deploy.rs:244-248 | a site starts with its tree as the whole trace |
| `ReleaseStore.Site.MkdirAll` | panel/agent/src/services/deploy.rs:251-254 | create_dir_all makes directories on the way and nothing else, and succeeds where no file is in the way |
| `ReleaseStore.Site.RemoveTree` | panel/agent/src/services/deploy.rs:287-289 | remove_dir_all, leaf by leaf: every tree on the way has lost nodes below the root only, and the root itself goes unless its path ends in "." |
| `ReleaseStore.Site.RemoveDirAll` | panel/agent/src/services/deploy.rs:287-289 | on a path string: links are not followed, a plain file is refused |
| `ReleaseStore.Site.MakeLayout` | panel/agent/src/services/deploy.rs:250-254 | releases/ and shared/ are there afterwards, or the deploy stops |
| `ReleaseStore.Site.Clone` | panel/agent/src/services/deploy.rs:263-296 | a clone that fails is cleaned up, one that dies is left, and neither touches anything else |
| `ReleaseStore.Site.PrepareShared` | panel/agent/src/services/deploy.rs:319-330 | the shared directory or file of any accepted entry is there afterwards unless a file is in the way; where nothing was, an entry with a dot and no slash at its end becomes an empty file and any other a directory |
| `ReleaseStore.Site.ClearRelease` | panel/agent/src/services/deploy.rs:332-339 | for any accepted entry: what the path of the release leads to is gone, be it in the release or, through the link of an outer entry, under shared/, and nothing else |
| `ReleaseStore.Site.MakeLink` | panel/agent/src/services/deploy.rs:340-347 | the entry becomes a link into shared/ where symlink(2) takes its path; every tree on the way is described |
| `ReleaseStore.Site.LinkEntry` | panel/agent/src/services/deploy.rs:314-348 | one round for any accepted entry: link, target, what is lost, and every tree on the way |
| `ReleaseStore.Site.LinkAll` | panel/agent/src/services/deploy.rs:314-348 | all rounds for any list of accepted entries: whether the release is still there, what is lost under shared/ and which files with content are left, for lists without nesting which single entries are links and have their target, and that everything else is as it was |
| `ReleaseStore.Site.CopyShared` | panel/agent/src/services/deploy.rs:351-375 | the copy from the previous release adds nodes only at and below listed places under shared/ that were empty or missing, faults or not; without faults it is the fold of the single copies |
| `ReleaseStore.Site.LinkAndCopy` | panel/agent/src/services/deploy.rs:314-375 | links survive the copy, the rest of the repository is untouched, and under shared/ only what is given up by nested entries is lost and only what was empty or missing, or came to be so by that, is filled |
| `ReleaseStore.Site.RunScript` | panel/agent/src/services/deploy.rs:377-430 | script inside the release directory or an error; a script that fails takes the release with it |
| `ReleaseStore.Site.BuildRelease` | panel/agent/src/services/deploy.rs:250-430 | everything up to the swap, with every way it can stop, calm for every accepted list with or without faults, and whether the release is there for the swap |
| `ReleaseStore.Site.Swap` | panel/agent/src/services/deploy.rs:432-446 | `current` becomes the new release or stays what it was, at every step; the swap works exactly if neither `current` nor the temporary name is a directory |
| `ReleaseStore.Site.LinkPublic` | panel/agent/src/services/deploy.rs:448-476 | public/ becomes the compatibility link and its old content the backup, unless it is a directory that cannot be moved, which then stays; nothing else is lost |
| `ReleaseStore.Site.PruneReleases` | panel/agent/src/services/deploy.rs:484-500 | exactly the releases outside the N greatest names go, node by node |
| `ReleaseStore.Site.GoLive` | panel/agent/src/services/deploy.rs:432-500 | swap, public/ and prune together |
| `ReleaseStore.Site.AtomicDeploy` | panel/agent/src/services/deploy.rs:235-510 | for every list the route accepts: every tree is good until `current` names the new release, and a deploy that does not succeed leaves `current`, all older releases and all of shared/ but what nested entries give up as they were; without faults one that succeeds leaves a good site if and only if the release is there once all entries are linked (`Rebuilt`: no empty entry, or a named one after the last), and otherwise leaves `current` dangling; when it is there, every tree after every step is good, and a deploy that succeeds activates a release with the repository and the links, loses nothing under shared/ but what nested entries give up, and leaves the N newest releases as they were; with nothing in the way it does succeed |
| `ReleaseStore.Site.ActivateRelease` | panel/agent/src/services/deploy.rs:564-595 | exactly the releases that are directories can be activated; no release changes |
| `ReleaseStore.Site.ListReleases` | panel/agent/src/services/deploy.rs:513-554 | newest first, each release directory once, the active one marked |
| `ReleaseStore.Site.Run` | panel/agent/src/services/deploy.rs:235-595 | over every sequential run of activations and of deploys with rising ids, each deploy with its own list of accepted entries that leave the release there: after every single step `current`, once set, points to an existing release directory, if the lists are clear of each other (a condition on the lists alone) or the copies cannot lead astray when a deploy begins |
| `ReleaseRuns.FlatListsAreClear` | panel/agent/src/services/deploy.rs:235-375 | lists are clear if no path of any of them lies below a path of any of them, faults or not |
| `ReleaseRuns.OneListIsClear` | panel/agent/src/services/deploy.rs:235-375 | without faults the same list for all deploys is clear, however nested, if no entry ends in a slash |
| `ReleaseFailures.ListsNotClear` | panel/agent/src/routes/deploy.rs:183-195 | two lists, each without a path below another, that are not clear of each other: the failing input |
| `ReleaseFailures.ChangingListsDangle` | panel/agent/src/services/deploy.rs:314-500 | its run, without faults and with two releases kept: the copy of the first deploy plants a link to releases/ inside the shared directory, the entries of the second make two releases through it, and the prune takes away the release that has just gone live |
| `ReleaseFailures.NestedListDangles` | panel/agent/src/services/deploy.rs:314-500 | the same for one nested list after a fault: why faults need the condition on the old release |
| `ReleaseTrees.CurrentResolves` | panel/agent/src/services/deploy.rs:432-446 | in a good tree following `current` arrives at an existing release directory |
| `ReleaseTrees.OlderUnchanged` | panel/agent/src/services/deploy.rs:250-430 | before the swap `current` and every older release are node for node as before |
| `ReleaseTrees.CalmStaysGood` | panel/agent/src/services/deploy.rs:250-430 | nothing a deploy does before the swap breaks the invariant |
| `ReleaseLinks.NamelessEntry` | panel/agent/src/routes/deploy.rs:183-195 | of the accepted entries that name nothing, the empty one is the only one whose path in the release rmdir(2) can remove |
| `ReleaseLinks.AcceptedExactly` | panel/agent/src/routes/deploy.rs:188-195 | the entries that pass are those without two dots in a row and without a slash in front |
| `ReleaseLinks.SlashEntryNeverLinked` | panel/agent/src/services/deploy.rs:319-346 | an entry that ends in a slash or in "/.", or is empty or ".", is never made a link; one that ends in a slash counts as a directory all the same |
| `ReleaseLinks.SlashedSpelled` | panel/agent/src/services/deploy.rs:319-346 | these are exactly the entries the model treats as ending behind a slash |
| `PathTracks.TrackWalk` | panel/agent/src/services/deploy.rs:314-348 | a path all of whose links lead to the same place on a second path resolves to itself or to its counterpart there: what linking nested entries leaves of the ways |
| `ReleaseRounds.StageKeepsTame` | panel/agent/src/services/deploy.rs:314-348 | a round of linking leaves the way to every other entry passable, to nested ones too |
| `ReleaseLists.EmptyEntryAlone` | panel/agent/src/routes/deploy.rs:183-195 | the list with the empty string alone is accepted and does not leave the release there: the failing input |
| `ReleaseLists.NonEmptyUntouched` | panel/agent/src/services/deploy.rs:351-375 | a shared path that was not empty, is not given up and stands alone is as it was through and through, whatever else is listed |
| `ReleaseLoops.LostExactly` | panel/agent/src/services/deploy.rs:314-348 | without faults, linking loses a listed directory or file under shared/ if and only if an entry at or above it comes after one it lies below, and then nothing of it is left |
| `ReleaseLoops.DataLostExactly` | panel/agent/src/services/deploy.rs:314-348 | for every accepted list, slashed, empty and repeated entries included: linking without faults loses a file with content anywhere under shared/ if and only if the list wipes it, which can be computed from the list alone |
| `ReleaseFailures.WipedByOrder` | panel/agent/src/services/deploy.rs:314-348 | below an outer path listed first a file is wiped, below one listed later it is not |
| `ReleaseFailures.WipedBySlash` | panel/agent/src/services/deploy.rs:314-348 | a path listed again with a slash at its end: everything in it is wiped |
| `ReleaseLoops.OwnCut` | panel/agent/src/services/deploy.rs:332-339 | the single round: a directory or file under shared/ that the round's path reaches through an outer link is gone after it |
| `ReleasePhases.LinkedExactly` | panel/agent/src/services/deploy.rs:314-348 | per entry: after a deploy without faults of a list without nesting, an entry without a slash at its end is a link into shared/ if and only if no file of the repository lies above it |
| `ReleasePhases.TargetsExactly` | panel/agent/src/services/deploy.rs:318-330 | per entry: its shared path is there if and only if nothing was in its way under shared/ |
| `ReleasePhases.TargetKinds` | panel/agent/src/services/deploy.rs:319-330 | per entry, after a deploy without faults with a free way under shared/: the shared path is a file if and only if the entry has a dot and does not end in a slash, and a directory otherwise, provided nothing of the other kind was there |
| `ReleaseFailures.FileBlocksLink` | panel/agent/src/services/deploy.rs:314-348 | a repository file above one entry: that entry is no link, the other one is |
| `ReleaseFailures.EmptyThenFault` | panel/agent/src/services/deploy.rs:314-446 | after an empty entry, a fault in making directories for a later one leaves the tree without the release, and the swap leaves `current` dangling: why faults need lists without an empty entry |
| `ReleaseCopy.HeldCopy` | panel/agent/src/services/deploy.rs:351-375 | a copy to a path under which something stands, or on whose way a file or link does, makes no link: what keeps nested lists safe without faults |
| `ReleaseCopy.SeparateCopiesClear` | panel/agent/src/services/deploy.rs:351-375 | a single deploy needs nothing of the old release if its list has no nesting, or if nothing fails and no entry ends in a slash |
| `ReleaseCopy.CopiedWhenEmpty` | panel/agent/src/services/deploy.rs:355-373 | the old content is copied exactly if it is there, is no link, and the shared path is missing, a directory with nothing in it, or an empty file |
| `ReleaseCopy.NextCopied` | panel/agent/src/services/deploy.rs:351-375 | one more copy into an empty shared path keeps the tree calm, the old release passable and everything outside that path |
| `ReleaseCopy.CopyArrives` | panel/agent/src/services/deploy.rs:351-375 | the old content arrives at the shared path if and only if nothing is there and its directory is, or both are files |
| `ReleaseCopy.ArrivesAfterLinking` | panel/agent/src/services/deploy.rs:318-375 | once linking has made the shared path it arrives if and only if the entry counts as a file and both are files |
| `ReleaseCopy.CopyLandsInside` | panel/agent/src/services/deploy.rs:351-375 | when the shared path is an empty directory, as linking has just made it, the old directory lands inside it under its own name, and nothing else appears there |
| `ReleaseSwap.SwapStaysGood` | panel/agent/src/services/deploy.rs:432-446 | every tree during a swap is good |
| `ReleaseSwap.FailedSwapIsCalm` | panel/agent/src/services/deploy.rs:432-446 | a failed swap leaves at most the temporary link |
| `ReleaseSwap.PublicStaysGood` | panel/agent/src/services/deploy.rs:448-476 | so is every tree while public/ is linked |
| `ReleaseSwap.PruneStaysGood` | panel/agent/src/services/deploy.rs:484-500 | and during the prune |
| `ReleaseSwap.NewestSurvives` | panel/agent/src/services/deploy.rs:484-500 | the release just deployed survives its own prune if and only if at least one release is kept |
| `ReleaseSwap.EmptyEntryDangles` | panel/agent/src/services/deploy.rs:314-446 | with nothing in the way, a deploy whose one shared path is the empty string succeeds and leaves `current` pointing nowhere: the failing run |
| `ReleaseSwap.DanglingIsBad` | panel/agent/src/services/deploy.rs:432-446 | a `current` that names a missing release points to no release at all |
| `ReleaseSwap.SharedContentKept` | panel/agent/src/services/deploy.rs:351-500 | after a successful deploy without script every shared path that was not empty has the very branch it had, if it is not given up and no listed path lies above or below it, whatever else is listed |
| `ReleaseConditions.RepositoryLinkRemovesOld` | panel/agent/src/services/deploy.rs:332-339 | why repository links matter: one that leads to releases/ lets the clean-up take away the release being served |
| `ReleaseConditions.SharedLinkRemovesOld` | panel/agent/src/services/deploy.rs:332-339 | likewise for a link under shared/ |
| `ReleaseConditions.OldLinkLeadsAstray` | panel/agent/src/services/deploy.rs:351-375 | why links of the old release matter: a copied one sends later copies to where it leads |
| `ReleaseRuns.ActiveNameOf` | panel/agent/src/services/deploy.rs:517-519 | the name read from `current` is the id of the active release |
| `ReleaseRuns.ExactlyOneActive` | panel/agent/src/services/deploy.rs:513-554 | once `current` is set, a listing has exactly one active entry |
| `Csv.ParseCsv` | panel/agent/src/services/database.rs:361-430 | the character loop with lookahead computes the table of the state machine |
| `Csv.RoundTrip` | panel/agent/src/services/database.rs:361-430 | for every non-empty list of non-empty records, printed with any quoting and either line end, reading gives back header and rows, if and only if it is not a lone field that begins with one of the nine words |
| `Csv.ReadQuoted` | panel/agent/src/services/database.rs:368-384 | a quoted field is read back with its doubled quotes undone |
| `Csv.LastLineEndOptional` | panel/agent/src/services/database.rs:398-404 | the line end of the last record may be missing if and only if the record is not one empty field |
| `Csv.LimitRows` | panel/agent/src/services/database.rs:330-333 | at most 1000 rows are kept, in order, and the flag says exactly when rows were dropped |
| `Tsv.BatchRoundTrip` | panel/agent/src/services/database.rs:346-358 | batch output is read back exactly if neither header nor a row is one empty field |
| `Chunked.DecodeChunked` | panel/cli/src/client.rs:141-175 | the loop ends, stays in bounds and computes the recursive decoding, overflow included |
| `Chunked.RoundTrip` | panel/cli/src/client.rs:141-175 | any list of non-empty chunks, each with its length written to base 16 with digits in either case and any leading zeros, then a last chunk of zeros and whatever follows it, is decoded to the data of the chunks |
| `Chunked.WrittenExactly` | panel/cli/src/client.rs:155-155 | the decoder's number is the one written by division by 16, for all digits |
| `Chunked.PaddingIgnored` | panel/cli/src/client.rs:150-155 | spaces and tabs around a size, and a plus sign in front of it, change nothing |
| `Chunked.PrefixMonotone` | panel/cli/src/client.rs:141-175 | decoding a prefix of the input gives a prefix of the output, and no panic where the whole gives none |
| `Chunked.PanicExactly` | panel/cli/src/client.rs:164-166 | a chunk that reaches the end of the input makes the client panic exactly if its announced end lies beyond usize |
| `Chunked.ExtensionStops` | panel/cli/src/client.rs:154-158 | a chunk extension stops the decoder: that chunk and the rest are dropped |
| `Ansi.StripAnsiEscapes` | panel/agent/src/routes/logs.rs:629-671 | the loops over the peekable iterator compute the recursive stripping |
| `Ansi.CleanSubsequence` | panel/agent/src/routes/logs.rs:629-671 | on every input the output is free of ESC and a subsequence of the input |
| `Ansi.StripTwice` | panel/agent/src/routes/logs.rs:629-671 | stripping is idempotent |
| `Ansi.ExactlyTheText` | panel/agent/src/routes/logs.rs:629-671 | any mixture of text with CSI sequences ending in a letter, OSC strings and two-character escapes is stripped to exactly the text |
| `Ansi.FinalByteMustBeLetter` | panel/agent/src/routes/logs.rs:636-645 | text behind a CSI sequence survives if and only if the final byte is a letter or there is no text: the other final bytes of section 5.4 of ECMA-48 eat text |
| `Lines.SplitJoinThen` | panel/agent/src/routes/crons.rs:50-83 | joined lines followed by a line end are read back, less one carriage return each |
| `Lines.SplitJoin` | panel/agent/src/routes/mail.rs:1013-1018 | joined lines without a final line end: the last keeps its carriage return, and is lost if empty |
| `Lines.KeepDropCrs` | panel/agent/src/routes/crons.rs:53-57 | filters that ignore a trailing carriage return commute with its loss |
| `Crontab.AddEntries` | panel/agent/src/routes/crons.rs:58-80 | entries are checked in order, and the first that fails decides the error |
| `Crontab.CheckedExactly` | panel/agent/src/routes/crons.rs:58-72 | an entry passes if and only if its schedule is five words of digits and the characters * / - and comma, its command is not empty and the filter takes it; which error is given otherwise |
| `Crontab.LinesSpelled` | panel/agent/src/routes/crons.rs:35-171 | the line of an entry, and the lines that are not the panel's or go with an id, with the marker spelled out |
| `Crontab.Crontab.SyncCrons` | panel/agent/src/routes/crons.rs:47-87 | all entries are written or none, foreign lines first; an unreadable crontab counts as empty |
| `Crontab.Crontab.RemoveCron` | panel/agent/src/routes/crons.rs:163-177 | the crontab without the lines that carry marker and id |
| `Crontab.SingleSpacedIsValid` | panel/agent/src/routes/crons.rs:229-238 | five fields with single spaces are a valid schedule |
| `Crontab.ListAfterSync` | panel/agent/src/routes/crons.rs:134-160 | list_crons gives back id, entry and trimmed label of every entry, in order |
| `Crontab.ReadAfterSync` | panel/agent/src/routes/iac.rs:281-311 | read_crontab_entries gives back id, schedule, command and label of every entry, in order |
| `Crontab.ForeignAfterSync` | panel/agent/src/routes/crons.rs:50-57 | foreign lines keep their order and text, up to one carriage return |
| `Crontab.SyncIdempotent` | panel/agent/src/routes/crons.rs:47-87 | syncing twice changes nothing if and only if no foreign line ends in a carriage return |
| `Crontab.RemovedExactly` | panel/agent/src/routes/crons.rs:166-171 | an entry is removed if and only if the id starts its own id or the marker with the id occurs once more in its id and label |
| `Crontab.StraddlingTitle` | panel/agent/src/routes/crons.rs:166-171 | an id and a label that spell the marker together: the entry that is removed by mistake |
| `Crontab.RemainingWithout` | panel/agent/src/routes/crons.rs:166-171 | with ids of which none starts another, exactly one entry goes |
| `Crontab.RemoveAfterSync` | panel/agent/src/routes/crons.rs:163-177 | a removal writes what a sync of the entries left writes, up to carriage returns, for any entries |
| `Crontab.ListAfterRemove` | panel/agent/src/routes/crons.rs:163-177 | both readers see exactly the entries left, and these are all but the ones the id starts if and only if no other entry spells the marker with it |
| `MainCf.ForeignAfterInstall` | panel/agent/src/routes/mail.rs:980-993 | every line outside an editor's own survives a setting, in order |
| `MainCf.ForeignAfterRemove` | panel/agent/src/routes/mail.rs:1015-1018 | and a removal |
| `MainCf.RemoveAfterInstall` | panel/agent/src/routes/mail.rs:1013-1021 | removing after setting equals removing alone, byte for byte, if and only if no foreign line ends in a carriage return |
| `MainCf.InstallTwice` | panel/agent/src/routes/mail.rs:980-993 | the last of two settings decides alone under the same condition |
| `MainCf.FirstDecides` | panel/agent/src/routes/mail.rs:1000-1010 | for any file and any class of lines removed a reader sees what it saw if and only if the first line of its kind stays or the next one that stays says the same |
| `MainCf.InstallDisturbs` | panel/agent/src/routes/mail.rs:980-1010 | so it is after an installation that writes no line of the reader's kind |
| `MainCf.RemoveDisturbs` | panel/agent/src/routes/mail.rs:1000-1018 | and after a removal |
| `MainCf.InstallKeepsStatus` | panel/agent/src/routes/mail.rs:1000-1010 | a reader is undisturbed by an editor that neither owns nor writes its lines |
| `MainCf.RemoveKeepsStatus` | panel/agent/src/routes/mail.rs:1000-1010 | likewise for a removal |
| `MainCf.StatusOfInstalled` | panel/agent/src/routes/mail.rs:1000-1010 | a reader sees what was installed if the editor drops all older lines of its kind |
| `MailConf.Postfix.RelayConfigure` | panel/agent/src/routes/mail.rs:959-997 | validation, both files, and what the status readers report afterwards |
| `MailConf.Postfix.RelayRemove` | panel/agent/src/routes/mail.rs:1013-1027 | afterwards no relay and no outbound TLS level are reported |
| `MailConf.Postfix.RateLimitSet` | panel/agent/src/routes/mail.rs:1119-1151 | rate syntax, delay and limit; the reader reports the rate as it was given |
| `MailConf.Postfix.RateLimitRemove` | panel/agent/src/routes/mail.rs:1163-1172 | afterwards no rate limit is reported |
| `MailConf.Postfix.TlsEnforce` | panel/agent/src/routes/mail.rs:1321-1337 | levels are checked, and both readers report what was set |
| `MailConf.RateTakenExactly` | panel/agent/src/routes/mail.rs:1122-1133 | a rate is taken for a count and a period if and only if it is spelled as a number from 1 to 2^32 - 1, with a plus sign or without, a slash, and minute, hour or day for 60, 3600 or 86400 seconds |
| `MailConf.RateLinesSay` | panel/agent/src/routes/mail.rs:1134-1142 | the delay written denotes the period divided by the count, rounded down, the limit the count or 50, whichever is less |
| `MailConf.TakenExactly` | panel/agent/src/routes/mail.rs:981-1332 | which lines each editor takes away, spelled out |
| `MailConf.BlocksSpelled` | panel/agent/src/routes/mail.rs:985-1334 | which lines it puts in their place, with the port in digits |
| `MailConf.RelaySeen` | panel/agent/src/routes/mail.rs:984-1010 | relay_status reports the relay just set if and only if the host holds no equals sign |
| `MailConf.RateSeen` | panel/agent/src/routes/mail.rs:1140-1160 | rate_limit_status reports exactly the rate just set |
| `MailConf.TlsSeen` | panel/agent/src/routes/mail.rs:1298-1337 | tls_status reports exactly the levels just set |
| `MailConf.RateEditsKeepRelayAndTls` | panel/agent/src/routes/mail.rs:1119-1172 | on every file a rate-limit edit leaves the relay and each TLS level alone if and only if the first line of its kind does not carry the rate-limit comment or the next without it says the same |
| `MailConf.RateCommentTakesRelay` | panel/agent/src/routes/mail.rs:1163-1172 | a relay line that carries the rate-limit comment: removing the rate limit removes the relay |
| `MailConf.RelayEditsKeepRate` | panel/agent/src/routes/mail.rs:977-1027 | on every file relay edits leave rate limit and inbound TLS alone if and only if the first line of its kind is none of the relay's own or the next that is not says the same |
| `MailConf.HostSpellsRateLimit` | panel/agent/src/routes/mail.rs:984-989 | where no rate limit is set, a relay host makes one appear if and only if the relay line spells the rate-limit comment |
| `MailConf.TlsEditsKeepRelay` | panel/agent/src/routes/mail.rs:1321-1337 | TLS edits never change the relay status |
| `MailConf.RemoveAfterSet` | panel/agent/src/routes/mail.rs:1013-1021 | byte equality of removals for relay and rate limit, if and only if no foreign line ends in a carriage return |
| `MailConf.LastSettingWins` | panel/agent/src/routes/mail.rs:1321-1337 | for relay, rate limit and TLS the last setting decides the whole file under the same condition |
| `Redirects.ListedAsAdded` | panel/agent/src/routes/nginx.rs:735-738 | a rule is listed as it was added if and only if its source does not end in "return" and its target has no whitespace |
| `Redirects.ValidExactly` | panel/agent/src/routes/nginx.rs:710-730 | the rules that are accepted, by their characters |
| `Redirects.LinesSpelled` | panel/agent/src/routes/nginx.rs:735-840 | the line of a rule, and the lines a removal takes away, spelled out |
| `Redirects.ListAfterAdd` | panel/agent/src/routes/nginx.rs:735-741 | adding appends exactly that rule to the list, under exactly that condition |
| `Redirects.ListAfterGluing` | panel/agent/src/routes/nginx.rs:735-741 | in a file without a final line end the rule is glued to the last line; if that is a listed rule, the new one is not listed beside it |
| `Redirects.RemovedExactly` | panel/agent/src/routes/nginx.rs:839-846 | for any accepted rule and any source: the rule is removed if and only if its line goes on with that source and a space, which for a source without spaces means its own, or its target spells another "location = " with it |
| `Redirects.TargetSpellsAnotherSource` | panel/agent/src/routes/nginx.rs:839-846 | a target that does: removing another source takes the rule along |
| `Redirects.HoldsAfterRemove` | panel/agent/src/routes/nginx.rs:824-846 | from a file of accepted rules a removal leaves the rules for the other sources, in order, if and only if none of their targets spells the source |
| `Redirects.HeldIsListed` | panel/agent/src/routes/nginx.rs:792-821 | a file of accepted rules lists exactly these rules if and only if each of them can be listed |
| `Redirects.RedirectFile.constructor` | panel/agent/src/routes/nginx.rs:735-741 | a site without a redirect file holds no rules |
| `Redirects.RedirectFile.AddRedirect` | panel/agent/src/routes/nginx.rs:707-789 | validation, append, rollback when nginx refuses, and no rollback when only the reload fails |
| `Redirects.RedirectFile.RemoveRedirect` | panel/agent/src/routes/nginx.rs:824-862 | the file without that source; failed writes go unnoticed and a refused configuration is kept |
| `AuthBlocks.RemoveProtection` | panel/agent/src/routes/nginx.rs:1028-1048 | the brace-counting loop computes the recursive cut |
| `AuthBlocks.RemovesExactly` | panel/agent/src/routes/nginx.rs:1028-1048 | from a file of auth blocks it leaves exactly the blocks of the other paths, in order |
| `AuthBlocks.BlockSpelled` | panel/agent/src/routes/nginx.rs:926-933 | the block of a path, and the lines that open one for it, spelled out |
| `AuthBlocks.HeadOpens` | panel/agent/src/routes/nginx.rs:1032-1035 | the head of a block opens the block of its own path only |
| `AuthBlocks.FileMentions` | panel/agent/src/routes/nginx.rs:931-935 | the test for an existing block finds one if and only if the path is protected |
| `AuthBlocks.ListedExactly` | panel/agent/src/routes/nginx.rs:992-1002 | a protected path is listed as it is if and only if it does not end in "location" |
| `AuthBlocks.AuthFile.constructor` | panel/agent/src/routes/nginx.rs:922-925 | a site without an auth file protects no path |
| `AuthBlocks.AuthFile.Protect` | panel/agent/src/routes/nginx.rs:922-935 | a path gets one block, at the end, and keeps it |
| `AuthBlocks.AuthFile.Unprotect` | panel/agent/src/routes/nginx.rs:1014-1048 | the file of the remaining blocks |
| `EnvFile.Edit` | panel/agent/src/services/cms.rs:421-447 | the map with its found flag computes the edited file, final line end included |
| `EnvFile.ReplaceEnvLine` | panel/agent/src/services/cms.rs:421-447 | the Laravel editor: the file edited by its lines and its quoting, which EnvReaders.EnvReadAfterEdit says in terms of a reader |
| `EnvFile.SetCiEnv` | panel/agent/src/services/cms.rs:454-492 | the CodeIgniter editor: commented and active lines |
| `EnvFile.EditCarries` | panel/agent/src/services/cms.rs:421-492 | after an edit every line for the key is the new line, and there is one |
| `EnvFile.EditCarriesExactly` | panel/agent/src/services/cms.rs:421-492 | any new line is carried if and only if it does not end in a carriage return or stands, unterminated, at the end of the file only |
| `EnvFile.EditKeepsOthers` | panel/agent/src/services/cms.rs:421-492 | all other lines keep their order and text, up to a carriage return |
| `EnvFile.EditTwice` | panel/agent/src/services/cms.rs:421-492 | the same edit again changes nothing if and only if no other terminated line ends in a carriage return |
| `EnvFile.EnvChainCarries` | panel/agent/src/services/cms.rs:143-149 | after a chain of edits for distinct keys each key carries its line, whatever the order |
| `EnvFile.CiChainCarries` | panel/agent/src/services/cms.rs:454-492 | the same for CodeIgniter keys |
| `EnvFile.EnvKeysApart` | panel/agent/src/services/cms.rs:421-437 | no line is for two distinct keys |
| `EnvFile.CiKeysApart` | panel/agent/src/services/cms.rs:458-478 | likewise for CodeIgniter keys |
| `EnvReaders.EnvReadAfterEdit` | panel/agent/src/services/cms.rs:421-447 | after an edit a reader that takes the first line with the key and an equals sign finds the value, in quotes if and only if there is a space in it; with one pair of quotes taken off it is the value set, if and only if that has a space or is not in quotes itself; no other line for the key, commented or not, is left |
| `EnvReaders.EnvReadBack` | panel/agent/src/services/cms.rs:143-149 | the same for every key after a chain of edits for distinct keys |
| `EnvReaders.CiReadAfterEdit` | panel/agent/src/services/cms.rs:454-492 | after a CodeIgniter edit a reader that trims around the first equals sign finds the value, trimmed, which is the value set if and only if that has no white space at its ends; no other line for the key, commented or not, is left |
| `EnvReaders.CiReadBack` | panel/agent/src/services/cms.rs:399-406 | the same for every key after a chain of edits for distinct keys |
| `EnvReaders.CiLineExactly` | panel/agent/src/services/cms.rs:458-478 | the lines the editor takes for a key's, spelled out: white space, "#" or "# " or neither, the key, white space, an equals sign |
| `LogStats.TallyLines` | panel/agent/src/routes/logs.rs:313-352 | after the loop every counter is the number of lines it stands for |
| `LogStats.SumErrors` | panel/agent/src/routes/logs.rs:363-368 | the sum over the statuses that start with 5 |
| `LogStats.SortByCount` | panel/agent/src/routes/logs.rs:354-356 | all keys, by descending count |
| `LogStats.TopTen` | panel/agent/src/routes/logs.rs:354-361 | ten keys or all there are; none left out has a greater count than one listed |
| `LogStats.Summarize` | panel/agent/src/routes/logs.rs:313-376 | status counts sum to the lines with a status, errors_5xx is the number of lines whose status starts with 5, the hourly counts sum to at most that, and no URL outside the top ten has a greater count than one inside |
| `LogStats.SumBump` | panel/agent/src/routes/logs.rs:328-328 | one more under a key is one more in the sum over its kind |
| `LogStats.LoggedIsRead` | panel/agent/src/routes/logs.rs:325-350 | from a line in nginx's combined format come exactly its status, its hour, and its path up to a question mark, if that is one that counts |

## Left out

- Spawning, Docker, git, cp, chown, bash, systemctl and nginx: only their success or failure appears, as a parameter or a nondeterministic step.
- HTTP routing, JSON shapes, JWT, SQL, certificates and cryptography: library code.
- PTY handling, session recording, audit files, the 30-minute timeout and the limit of one connection per second: input and output around the terminal gate.
- `is_safe_hook_command`, `is_suspicious_command` and `is_safe_exec_start`: filters that no modelled protocol uses.
- Concurrent deploys of one site, two deploys in the same second, and concurrent rotations of the token.
- TerminalSlots.AddNeverWraps: assumes fewer than 2^32 connections at once, which is the range of the counter.
- LogStreams.CounterExactAndBounded: does not model wrap-around of the 64-bit counter on the add side, which no run of that length reaches.
- ReleaseConditions.OldLinkLeadsAstray: the conditions on links are sufficient, each with a failing input; the exact set of harmless links is not stated, since it is the outcome of the deploy.
- ReleaseStore.Site.PrepareShared: says nothing of a listed path under shared/ that is a link to a place elsewhere, such as another disk; what the calls do there happens outside the site.
- ReleaseRuns.OneListIsClear: that lists are clear is sufficient for the run; lists that are not clear do harm only with a fitting link in an old release.
- ReleaseStore.Site.RunScript: the 300-second limits are part of the outcome given, and what the script prints is not modelled.
- ReleaseStore.Site.ListReleases: creation time and commit hash of a release are not modelled.
- MailConf.Postfix.RelayConfigure: the password file itself is not modelled, only whether writing it succeeds.
- EnvFile.EnvChainCarries: speaks of values that do not end in a carriage return, or hold a space; EnvFile.EditCarriesExactly says what becomes of the others.
- EnvFile.CiChainCarries: speaks of values that do not end in a carriage return.
- Redirects.ListAfterAdd: speaks of files that end with a line end, as all calls leave them; Redirects.ListAfterGluing says what becomes of the others.
- Redirects.HoldsAfterRemove: files with lines that are no rules, which no call writes, are covered by Redirects.RedirectFile.RemoveRedirect only.
- Dovecot's part of the TLS routes, and the reload of Postfix after each edit.
- Redirects.RedirectFile.AddRedirect: the include line it puts into the site's own configuration is not modelled.
- AuthBlocks.AuthFile.Protect: the htpasswd file and the include line are not modelled.
- Selection of the keys of one domain before the S3 prune, and the size of the key space: the names to prune are given.
- LogStats.Summarize: the counters are unbounded; the source reads at most 50000 lines.
- Csv.ParseCsv: the size limit on the output of a query is checked before and is not part of it.
- Domain aliases, site rename, WAF logs, mail queue listing, validators, pagination, port search and supervisor backoff: no clean specification, or only easy members.
