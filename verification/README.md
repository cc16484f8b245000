# savesave: a verified model

savesave is a backup tool in C. This project models its hard parts in Dafny and
proves what they promise: the directory walker and the three programs built on
it, the thread pool of the copy command, the rotation of backups and their
scheduler, the in-place text algorithms, the two parsers, the clock scaling,
and the list and buffers underneath.

`dafny verify dfyconfig.toml` checks everything.

## How it is built

| module | models |
|---|---|
| FileTree, FileIter | the walker: trees, the calls a walk may make, their intended order, and the loop over a stack of paths |
| FileSystem, Rmdirr, Mkdir, Copy | a file system as a map, and the three programs that change it |
| Sizeof | the walk of the size command, which lists directories and adds up |
| StrBuf, StrList | the growing buffer; the stack of recycled buffers and the word wrap |
| CpSched, BakSched | the copy pool and the backup scheduler, as state machines over single loads, stores, locks and queue changes |
| CpSchedLaws, CpSchedRuns, BakSchedLaws | what holds in every run of them |
| Backup | compaction and rotation of backup slots |
| Termas | replacement of control characters in a fixed buffer |
| OptTable, Argupar | the option table and the in-place argument parser |
| ArguLaws, ArguOptions | ways of writing the same thing, and what single options mean |
| Lexer, DotSav, DotSavLaws | spaces and numbers, the in-place configuration parser, and laws about it |
| LinkedList, AtExit | the circular list and the exit handlers on it |
| Win32Time | the fixed-point clock |
| CString, Sequences | C strings, and facts about concatenation |

Code that works by changing state is a class or a method over arrays, with the
loops of the source, and is proved against functions on values; what the source
promises is then proved about those functions. What happens outside the code is
a parameter: the answers of callbacks and system calls (a function of what
happened before), the choices of the thread scheduler and the clock (the list
of actions of a run), what `stat()` finds out about a path, which strings
`str2uint()` accepts.

Where the code does not do what it is meant to do, the code is kept and the
exact condition is proved:

- a recursive walk of a root that ends in a slash calls back for the root before
  its subdirectories, goes on above the root and uses a null pointer in the end
  (`FileIter.PostOrderIff`, `FileIter.Walker.Walk`), so that a directory with
  subdirectories cannot be removed by such a name (`Rmdirr.Removes`), and such a
  source loses a separator when it is copied (`Copy.TargetIff`);
- the bit set of the scheduler is large enough for up to 8 configs only
  (`BakSched.AllocFits`); the other theorems take fitting indices as given;
- a reset of the overload counter also forgets rejections that no sample has
  seen (`BakSched.ResetForgets`, `BakSched.RejectionForgotten`);
- a worker of the copy pool that is past its check of the state when the pool is
  closed blocks after the broadcast, and then the join waits for ever unless that
  worker wakes by itself (`CpSchedRuns.BroadcastMissed`,
  `CpSchedRuns.StuckForever`); it is at most the one worker that owned the mutex
  then (`CpSchedRuns.LastToBlock`);
- the size command counts one file more than a directory has (`Sizeof.CalcDir`);
- the room left for a message wraps around when the replacements do not fit
  (`Termas.LengthIff`);
- a timespan is truncated to 32 bits (`Lexer.TimespanExactIff`);
- an option may be hidden by the negated form of another, depending on the order
  of the table (`OptTable.TableOrderFree`, `OptTable.NegatedTable`);
- an option with a negated form may be set or unset by a word that abbreviates the
  beginning of "no-" and not what is stored (`ArguLaws.AbbreviatedPolarity`,
  `ArguLaws.NegationAbbreviated`);
- a key that is not followed by a space is skipped, and the search goes on behind
  it, so that a run of keys is read as a field of the last one
  (`DotSavLaws.FoundIff`, `DotSavLaws.KeysMelt`);
- the parents of a file directly below the root cannot be made
  (`Copy.ParentsIff`, `Copy.RootParent`); nothing can be copied to a name that
  ends in a slash, and a name without one leads to a null pointer
  (`Copy.SlashParents`, `Mkdir.MkFileDirP`);
- more than 24 control characters overrun the array of their positions
  (`Termas.FormatCntrlChar`);
- a null pointer among the exit handlers hides those before it
  (`AtExit.EnqueueOrder`).

## Model

| member | source | states |
|---|---|---|
| FileIter.Walker.Walk | platfree/fileiter.c:27-117 | On every finite tree the calls are those of the recursive order of the mode, up to and including the first nonzero reply. A PostOrder walk of a root that ends in a slash and has subdirectories calls back for the root early, then for its subdirectories, then for every directory above it that its name shows, and comes to use a null pointer if all replies are zero; no other walk does |
| FileIter.PostOrderIff | platfree/fileiter.c:81-110 | With no failure, a recursive walk follows the post-order if and only if the root does not end in a slash or has no subdirectory |
| FileIter.TopParent | platfree/fileiter.c:81-108 | Why lengths suffice: the parent of the topmost path on the stack is an open directory, and it is the innermost one exactly when their lengths agree |
| FileIter.PopFrame | platfree/fileiter.c:67-86 | Popping the stack takes the last waiting subdirectory of the innermost open directory: what is owed is its own post-order and then the rest |
| FileIter.FinishFrame | platfree/fileiter.c:87-110 | After a directory is called back, comparing the length of the next parent tells whether to enter the next path or to close the parent as well; equal to the root length means the end, which a walk with an early root never meets |
| FileIter.OpenEarly | platfree/fileiter.c:81-96 | A root that ends in a slash passes for a directory with an empty name in the directory that it is, so that it is closed before its subdirectories are entered |
| FileIter.Walker.FinishBranch | platfree/fileiter.c:98-110 | The inner loop calls back for exactly the directories that are finished, innermost first, and stops at the parent of the next path, at the root, or at a nonzero reply |
| FileIter.Walker.CloseFinished | platfree/fileiter.c:67-110 | The part of the loop between the pop and the next listing, including the two shortcuts and the jump when the stack is empty |
| FileIter.Walker.Enter | platfree/fileiter.c:54-65 | Visit if the mode lists directories, then list; the subdirectories end up on the stack in listing order |
| FileIter.Walker.LoopDir | platspec/unix/fileiter.c:113-132 | Listing one directory calls back for its leaves in order up to the first nonzero reply and pushes every subdirectory; the path buffer begins with the directory again |
| FileIter.Walker.DispatchFile | platspec/unix/fileiter.c:58-111 | One entry: skipped, pushed, refused with -1 if its type is unknown, or called back with its absolute path and the part after the root |
| FileIter.Walker.DispatchDirectory | platfree/fileiter.c:13-25 | The callback gets the path in the buffer and the part of it after the root |
| FileIter.Walker.Pop | platfree/fileiter.c:67-68 | The path pushed last is taken; nothing is taken from an empty stack |
| FileTree.RunIsPrefix | platfree/fileiter.c:57-65 | A walk that is cut short has made a prefix of the calls of the full order, and returns the reply to the last of them: -1 for a directory that cannot be opened or an entry of unknown type, else what the callback returned |
| FileTree.RunStopsFirst | platfree/fileiter.c:57-65 | Every reply before the end of a walk was zero |
| FileTree.RunSucceedsIff | platfree/fileiter.c:57-65 | A walk succeeds if and only if every reply along the full order is zero; otherwise it ends with the first that is not |
| Rmdirr.Rmdirr | platfree/mkdir.c:72-75 | What is removed and reported is what the run of the calls comes to. With no unknown types and no call failing of itself nothing at or below the name is left and nothing else is touched, unless the name ends in a slash and there are subdirectories: then the removal fails in every case, after having removed the files of the directory itself. Any other failure has a failing call as its cause, a name that is no directory fails at once, and in every case files are only removed, and only within the tree |
| Rmdirr.ExecPost | platfree/mkdir.c:56-75 | Along the post-order every unlink() meets a file, every rmdir() an already empty directory, and together they remove exactly the tree |
| Rmdirr.EarlyStops | platfree/fileiter.c:92-96 | Removing a tree by a name that ends in a slash ends at the latest with the rmdir() of the root, which is made while the subdirectories are there, and changes nothing |
| Rmdirr.CannotOpen | platspec/unix/fileiter.c:113-117 | A name that is no directory fails at opendir(), and nothing is removed |
| Rmdirr.PostVisitsOnce | platfree/mkdir.c:56-75 | The post-order takes away each path at or below the name, no other, and none twice |
| Rmdirr.RunRemoves | platfree/mkdir.c:66-69 | A removal stops early only where a system call failed for reasons of its own |
| Rmdirr.OutsideKept | platfree/mkdir.c:56-70 | Whatever fails, paths outside the tree keep their files |
| Rmdirr.Removes | platfree/mkdir.c:56-75 | The state after a run of the removal: all gone if it succeeds; if no type is unknown and nothing fails of itself, it succeeds if and only if the name does not end in a slash or there is no subdirectory |
| Rmdirr.UnknownStops | platspec/unix/fileiter.c:87-88 | An entry whose type readdir() does not tell makes the whole removal fail |
| Sizeof.PreShowsOnce | commands/sizeof.c:98-99 | A walk that lists directories calls back exactly once for each directory and each file at or below its root, and for nothing else |
| Sizeof.DirectoriesFirst | platfree/fileiter.c:57-65 | Such a walk calls back for each directory before anything that is in it |
| Sizeof.GrowPre | platfree/fileiter.c:54-79 | The calls of such a walk, read as orders to make what they show, can be carried out one by one where nothing is yet, and give exactly the tree that is there |
| Sizeof.CalcDir | commands/sizeof.c:25-37 | The walk of the size command succeeds if and only if no call fails and no type is unknown; then it has counted the directories with the root, one file more than there are because the count starts at 1, and the bytes of all files, 64 for each without a size, all modulo the width of the counters |
| FileSystem.SiblingsApart | platspec/unix/fileiter.c:71-76 | The paths built for two entries of a directory share no descendant unless the entries have the same name |
| FileSystem.RealChild | platspec/unix/fileiter.c:71-76 | The path built for an entry stands for that entry of the directory, with or without empty components and a slash at the end of the name of the directory |
| FileSystem.GoneAll | platfree/mkdir.c:56-70 | With all entries of a directory gone, nothing is below it and nothing else is missing |
| FileSystem.HoldsFrame | platspec/unix/fileiter.c:113-132 | Whether the file system holds a given tree below a path depends only on what is below that path |
| Mkdir.MkdirP | platfree/mkdir.c:13-41 | The calls made are those for every prefix that ends at a slash, in order, up to the first error other than EEXIST; on success the name is as before, on failure the buffer holds the name whose call gave that error |
| Mkdir.CutAndMake | platfree/mkdir.c:24-38 | One round cuts the name, makes that directory and restores the slash unless it failed |
| Mkdir.MkFileDirP | platfree/mkdir.c:43-54 | The same for the parent of a file, whose name is restored on success and on failure cut at the directory that could not be made; a null pointer is written through if and only if the name has no slash |
| Mkdir.MkAllSound | platfree/mkdir.c:24-38 | The calls add directories only, only those named, and after success all of them exist |
| Mkdir.MkAllSucceeds | platfree/mkdir.c:24-38 | Where no call fails of itself they succeed if and only if whatever is on the way to the directory is one itself, also for names with empty components or a slash at the end; then all on the way is there, and the directory itself is one if and only if its place was not taken by something else |
| Mkdir.Blocked | platfree/mkdir.c:24-38 | Behind something that is no directory the calls succeed if and only if nothing but slashes follows, because EEXIST is ignored |
| Copy.Copy | commands/copy.c:52-96 | An existing destination is refused without any change; a destination without a slash leads to a null pointer; one that ends in a slash, or a source that is no directory, gives no copy, and what is left behind is stated. The copy succeeds if and only if the destination is not there, a directory for it can be made, the source is a directory, no mkdir() or opendir() of the first pass fails of itself, every leaf of the second pass is taken by the pool, or the pool is busy and the copy in place succeeds, and the join reports no error. On success the directories added are exactly the skeleton of the source at the destination plus its parents, and there is one job for each leaf; however it ends, the jobs are those of the first leaves, each queued or copied in place as the pool answered and into a directory that exists, and nothing that existed is changed |
| Copy.MkExecPre | commands/copy.c:24-34 | In the order of the first pass every mkdir() is made after that of its parent and where nothing is yet, and the result is exactly the skeleton of the source |
| Copy.PassOne | commands/copy.c:76-79 | The first pass succeeds if and only if the parent of the destination is there and no call fails of itself; then it leaves exactly the skeleton of the source |
| Copy.NoSource | commands/copy.c:76-79 | If the source is no directory the first pass fails, and the empty destination stays behind |
| Copy.FirstMkdir | commands/copy.c:24-34 | If the destination is there already or has no parent the first pass ends with its mkdir(), and changes nothing |
| Copy.SlashParents | platfree/mkdir.c:43-54 | A destination that ends in a slash is made as its own parent, so that its mkdir() in the first pass fails |
| Copy.PassTwo | commands/copy.c:81-83 | The second pass succeeds if and only if every directory opens, no type is unknown and every leaf is taken by the pool or, while the pool is busy, copied in place without an error; otherwise it ends with the first call of which this is not so. The jobs are those of the leaves up to there, in order, each with its own target and kind, and queued if and only if the pool took it |
| Copy.ParentsIff | commands/copy.c:64-69 | Where no call fails of itself the parents of a destination can be made if and only if its parent has a name and whatever is on the way to it is a directory; then there is a directory for the destination if and only if the parent is not taken by something else |
| Copy.RootParent | platfree/mkdir.c:43-54 | For a destination directly below the root making the parents always fails, because the name cut at the slash is empty |
| Copy.PreOnce | commands/copy.c:82 | The second pass meets no file twice, and all below the source |
| Copy.PreComplete | commands/copy.c:82 | The second pass meets every file below the source |
| Copy.PreInSkeleton | commands/copy.c:36-50 | Every leaf goes into a directory that the first pass makes |
| Copy.RunCopies | commands/copy.c:41-49 | A pass that goes through has one job for each leaf, with its own target and kind |
| Copy.RunSmooth | commands/copy.c:41-49 | A busy pool means a copy in place, whose failure ends the pass, as does any other refusal of the pool; nothing else does, but for a directory that does not open or an entry of unknown type |
| Copy.JobsAreAnswered | commands/copy.c:41-49 | A job is queued where the pool answered success, and copied in place where it answered that it is busy |
| Copy.TargetChild | platfree/strbuf.c:82-100 | Initial string and relative path give the entry of the corresponding directory: the destination has the shape of the source |
| Copy.TargetIff | commands/copy.c:26-27 | That holds for the entries of the source directory itself if and only if the name of the source does not end in a slash |
| Copy.ParentsApart | commands/copy.c:64-69 | Making the parents of the destination changes neither the source nor the place where the destination goes |
| Copy.SourceApart | commands/copy.c:52-62 | A destination that does not exist and is not inside the source shares no path with it |
| CpSchedLaws.OnePlace | platfree/cpsched.c:46-90 | Over every interleaving an accepted task is in exactly one place: the queue, the hands of one worker, or finished, that is run and freed |
| CpSchedLaws.NeverTwice | platfree/cpsched.c:46-90 | No task is enqueued, dequeued, run or freed twice, not even one that a producer had to discard |
| CpSchedLaws.NeverRunsAgain | platfree/cpsched.c:52-66 | Once the pool has left the running state it never returns to it, and the queue changes at most once more, by a step of the thread that owned the mutex then |
| CpSchedLaws.AcceptedIsEnqueued | platfree/cpsched.c:110-140 | In every run a producer has enqueued as many tasks as its calls returned success, plus one while a call is about to return |
| CpSchedLaws.JoinReports | platfree/cpsched.c:153-167 | The join reports an error exactly when a worker stored one before the exchange, which happens only if a copy failed; when it is over, as many errors have been stored as copies have failed |
| CpSchedLaws.FailuresStored | platfree/cpsched.c:70-83 | Over every interleaving the copies that have failed are the errors stored plus those whose workers are about to store them |
| CpSchedLaws.QueueBound | platfree/cpsched.c:116-118 | The unlocked check bounds the queue by MAX_PENDING plus the number of producers; whenever the lock is free the counter is the length of the queue, and it never wraps |
| CpSchedLaws.BoundReached | platfree/cpsched.c:116-118 | The bound is the best: from every start, whatever the numbers of workers and producers, some run queues MAX_PENDING plus the number of producers |
| CpSchedLaws.AfterJoin | platfree/cpsched.c:153-167 | After the join all workers have exited, and an accepted task is either finished or still queued |
| CpSchedLaws.LeftBehind | platfree/cpsched.c:135-136 | With one producer at most six accepted tasks are left queued |
| CpSchedLaws.LeftReached | platfree/cpsched.c:153-167 | So many tasks can be left queued after the join, six with one producer |
| CpSchedLaws.NewestFirst | platfree/cpsched.c:63-65 | A worker always takes the task accepted last: the queue is the log replayed on a stack |
| CpSchedRuns.FailsOnce | platfree/cpsched.c:77-83 | A worker makes no copy after one that failed: it is on its way out, or gone |
| CpSchedRuns.ExitsAtEnd | platfree/cpsched.c:51-90 | No worker exits while the pool is in the running state |
| CpSchedRuns.WaitsFirst | platfree/cpsched.c:55-66 | A worker takes no more tasks than it was woken, because it waits before it tests the queue |
| CpSchedRuns.AnswersMean | platfree/cpsched.c:142-150 | A producer is told of an error or of the end only when an error was stored or the exchange made |
| CpSchedRuns.FirstLook | platfree/cpsched.c:112-114 | The first look of a call lets it go on exactly while the pool runs; otherwise the answer is what happened last, an error or the exchange |
| CpSchedRuns.RefusedAtOnce | platfree/cpsched.c:112-114 | A call made after the pool left the running state allocates nothing, queues nothing, and is not told that the pool is busy |
| CpSchedRuns.TellsWhatItSaw | platfree/cpsched.c:128-150 | A call refused under the lock answers what it saw there, whatever happens to the state before it returns |
| CpSchedRuns.BusyMeansFull | platfree/cpsched.c:116-118 | A call is told that the pool is busy exactly when more than MAX_PENDING tasks are queued, give or take the one that the owner of the lock is counting |
| CpSchedRuns.NoneLost | platfree/cpsched.c:120-151 | Every task allocated is in the hands of a producer, was enqueued, or has been freed |
| CpSchedRuns.Drains | platfree/cpsched.c:50-83 | From every reachable state in which the pool runs and its lock is free, a worker that is about to take the lock, is not disturbed and is woken whenever it waits runs and frees all that is queued |
| CpSchedRuns.LastToBlock | platfree/cpsched.c:51-61 | After the pool has left the running state no worker blocks any more but the one that owned the mutex then, and that one at most once |
| CpSchedRuns.BroadcastMissed | platfree/cpsched.c:156-161 | The join may miss a worker: from every start with a worker some run lets one block after the broadcast, because the exchange does not take the mutex |
| CpSchedRuns.StuckForever | platfree/cpsched.c:159-161 | From there on no run in which that worker does not wake by itself ends the join, or signals |
| CpSched.OwnersKept | platfree/cpsched.c:51-68 | Exactly the owner of the mutex is inside a critical section, before and after every step |
| CpSched.StatesKept | platfree/cpsched.c:80 | The state word agrees with the history of error stores and the exchange after every step |
| CpSched.LatesKept | platfree/cpsched.c:126-139 | After an error or the exchange at most the thread inside the critical section still changes the queue |
| CpSched.CountsKeptW | platfree/cpsched.c:56-68 | A worker keeps the counter equal to the queue but for the moment between its two changes, and never unlinks from an empty queue |
| CpSched.CountsKeptP | platfree/cpsched.c:110-140 | A producer keeps the counter equal to the queue but for the moment between its two changes, and the bound on tasks under way |
| CpSched.PlacesKeptW | platfree/cpsched.c:46-83 | Each step of a worker leaves every task in one place |
| CpSched.PlacesKeptP | platfree/cpsched.c:110-151 | Each step of a producer leaves every task in one place |
| CpSched.ReachesInv | platfree/cpsched.c:46-167 | All of this holds in every reachable state |
| Backup.Directory.FetchSort | platfree/backup.c:39-77 | The backups in slot order stay the same whatever calls fail, and slots from stack on are untouched; all calls succeed, or the failing one is the last; on success the slots are compacted, with a call for each slot and one for each backup above the first hole; "no room" means that every slot is taken |
| Backup.Directory.FindNextRoom | platfree/backup.c:79-98 | The slot found is one above the highest slot taken, or 0; every call down to it succeeded, or the last one failed |
| Backup.Directory.NextBackup | platfree/backup.c:100-150 | From any pattern of slots: it succeeds if and only if no call fails, and ends with the first that does; success keeps the order and returns the number of survivors as the vacant slot. If all slots are taken the oldest backup is gone exactly when the call that removes it was made and succeeded, and otherwise no slot has changed |
| Backup.MoveKeepsContents | platfree/backup.c:55-59 | Renaming a backup down over empty slots keeps the sequence |
| Backup.DropFirst | platfree/backup.c:111-115 | Removing slot 0 when all are taken drops the oldest backup |
| Backup.WriteAppends | platfree/backup.c:148 | Filling the returned slot appends the newest backup and leaves the slots compact |
| Backup.NewestKept | platfree/backup.c:100-150 | Over any run, with any failures and whether or not the slot gets written, the slots hold the newest backups of the history in order: all of them, or at least stack - 1 |
| Backup.BoundedFifo | platfree/backup.c:100-150 | Over any run without failures in which each returned slot is written, the slots are a bounded FIFO: the last stack backups, oldest first |
| Backup.Directory.TakeBackup | platfree/backup.c:161-178 | One backup rotates the slots, and what fills the slot found comes to the end of the sequence; it fails exactly if its last call does |
| Backup.Directory.TakeBackups | platfree/baksched.c:27-47 | Backups taken one after the other from any pattern of slots: in every case the slots hold the newest of the whole history, and as many rotations fail as calls; if none does and every slot found is filled, slot k holds the backup that is k-th among the last stack ones |
| BakSched.OneTaskPerBit | platfree/baksched.c:112-123 | In every reachable state with the mutex free, the bit of a config is set exactly when the queue holds exactly one task for it, and clear exactly when it holds none |
| BakSched.RejectedIffQueued | platfree/baksched.c:114-117 | A post is turned away exactly when a task of its config is queued |
| BakSched.XorClears | platfree/baksched.c:34-39 | The XOR at dequeue always clears a set bit, and changes no other |
| BakSched.OneBit | platfree/dotsav.c:162-163 | Distinct configs have distinct bits: setting or toggling one leaves all others |
| BakSched.AllocFits | platfree/baksched.c:91-92 | The allocated bit set is large enough for all indices if and only if there are at most 8 configs |
| BakSched.TakenByTurns | platfree/baksched.c:107-124 | Along every run tasks of one config are queued and taken by turns |
| BakSched.OverloadBound | platfree/baksched.c:126-134 | The overload counter never exceeds the limit by more than the threads that die of it, so it does not wrap |
| BakSched.EveryResetJustified | platfree/baksched.c:52-85 | Every reset follows two equal nonzero samples without a rejection or reset between them, and two clock readings after them that are more than OVERLOAD_WINDOW seconds apart |
| BakSchedLaws.ResetFollows | platfree/baksched.c:74-78 | When the watchdog has sampled the value that it remembers, then, whatever the other threads do, a reset follows if more than five seconds have passed since it was first seen, and otherwise none does |
| BakSchedLaws.WindowStarts | platfree/baksched.c:68-72 | When it has sampled another value than 0 and than the one it remembers, it remembers that and when that was, and resets nothing |
| BakSchedLaws.NothingToWatch | platfree/baksched.c:64-66 | A counter that is 0 changes nothing that it remembers |
| BakSchedLaws.CountsSince | platfree/baksched.c:126-131 | In every reachable state the counter is the number of posts turned away since the last reset |
| BakSchedLaws.DiesOfEleventh | platfree/baksched.c:130-134 | The program dies of the eleventh post turned away since the last reset and of no earlier one |
| BakSchedLaws.NewestFirst | platfree/baksched.c:34-36 | A worker always takes the task queued last: the queue is the log replayed on a stack |
| BakSchedLaws.RunsWhatItTakes | platfree/baksched.c:34-46 | Each task taken is a backup of its own config that was made, is being made, or is about to be |
| BakSchedLaws.WaitsFirst | platfree/baksched.c:29-32 | A worker takes no more tasks than it was woken, because it waits before it tests the queue |
| BakSchedLaws.Drains | platfree/baksched.c:27-47 | From every reachable state with the mutex free a waiting worker that is not disturbed, and is woken whenever it waits, takes all that is queued, newest first |
| BakSched.ResetForgets | platfree/baksched.c:64-78 | At a reset the counter exceeds the sampled value by exactly the rejections after the second sample |
| BakSched.RejectionForgotten | platfree/baksched.c:74-78 | Such rejections exist: in some run a post is turned away right before the reset, and the counter is 0 nevertheless |
| BakSched.BitsKept | platfree/baksched.c:23-50 | Each step, inside the critical section or not, keeps bits and tasks in agreement, counting the task in the hands of the owner of the mutex |
| BakSched.TallyKept | platfree/baksched.c:34-40 | Each step keeps the queue equal to what was queued and not taken |
| BakSched.BoundKept | platfree/baksched.c:130-134 | Each step keeps the bound on the counter, and a count adds one without wrapping |
| BakSched.WatchKept | platfree/baksched.c:63-82 | Each step keeps the samples of the watchdog in agreement with the rejections since |
| BakSched.ReachesInv | platfree/baksched.c:23-135 | All of this holds in every reachable state |
| Termas.FormatCntrlChar | platfree/termas.c:130-161 | Up to 24 control characters: if the replacements fit, the buffer holds the message with every control character replaced by three bytes and all else unchanged, and the room shrinks by what was added; else each becomes a question mark, and the room wraps around. With more than 24, and only then, the positions overrun their array; in both cases the message has no byte below 32 other than tab and newline, and no 127 |
| Termas.FormatAdvanced | platfree/termas.c:108-128 | The right-to-left loop leaves the functional expansion in the buffer, of length len + nr * 2, and nothing behind it is written |
| Termas.MoveOne | platfree/termas.c:116-126 | One round moves the text after a control character to its final place, puts the replacement before it, and does not touch unread text |
| Termas.Round | platfree/termas.c:116-127 | After a round the finished tail is the expansion of the text from that control character on |
| Termas.FormatSimple | platfree/termas.c:86-91 | Exactly the control characters become question marks |
| Termas.ExpandAt | platfree/termas.c:116-127 | In the expanded message each byte of the text stands behind two more bytes for each control character before it; a control character, that is a byte below 32 other than tab and newline, or 127, stands there as the bytes EF BF BD |
| Termas.MaskAt | platfree/termas.c:86-91 | In the masked message each control character is a question mark and each other byte what it was |
| Termas.ExpandClean | platfree/termas.c:108-128 | The expanded message has no byte below 32 other than tab and newline, and no 127 |
| Termas.Record | platfree/termas.c:69-84 | The positions recorded are those of the control characters, in order and completely, unless there are more than the array holds; then it is overrun |
| Termas.ExpandLength | platfree/termas.c:145 | The expansion is longer by two for each control character |
| Termas.LengthIff | platfree/termas.c:157-180 | The length that vreportf() derives from the room left is that of the message if and only if the replacements fit |
| StrList.SplitWord | platfree/strlist.c:131-159 | If no word is longer than the bound, the lines are those of a wrap within the bound, each line is as long as it can be, and no other wrap that breaks at whitespace has fewer lines |
| StrList.WrapRebuilds | platfree/strlist.c:131-159 | Lines and dropped separators woven together are the text; no line is longer than the bound, each separator is one whitespace character or the end |
| StrList.WrapIff | platfree/strlist.c:145-149 | A text has a wrap within the bound if and only if no word is longer |
| StrList.GreedyAhead | platfree/strlist.c:138-156 | The greedy wrap needs no more lines than any other that starts no later |
| StrList.OneLine | platfree/strlist.c:139-155 | One round cuts the longest line that fits and goes on behind its separator |
| StrList.WalkBack | platfree/strlist.c:145-149 | The inner loop finds the last whitespace within the bound |
| StrList.StrStack.Push | platfree/strlist.c:61-83 | Pushing appends the string, also into a recycled buffer |
| StrList.StrStack.Pop | platfree/strlist.c:101-113 | Popping takes the last string and keeps its buffer for reuse |
| StrList.StrStack.Grow1 | platfree/strlist.c:42-49 | Growing keeps the strings and marks all new elements as never set up, whatever the allocator leaves there |
| StrBuf.StrBuf.ConcatAt | platfree/strbuf.c:82-100 | The C string is what was before the index and the new string, whatever was there; behind the end of the C string nothing is to be seen of it; the length stays an upper bound below the capacity |
| StrBuf.StrBuf.ConcatAtBase | platfree/strbuf.c:82-100 | After any history the buffer holds the initial string and the new part |
| StrBuf.StrBuf.Concat2 | platfree/strbuf.c:71-80 | The string goes to the length, the buffer grows as needed; the C string is extended by it if and only if it ends there |
| StrBuf.StrBuf.ToDirname | platfree/strbuf.c:177-183 | The string is cut at its last slash |
| StrBuf.StrBuf.ResetFrom | platfree/strbuf.c:38-42 | The string becomes the new initial string |
| StrBuf.StrBuf.From | platfree/strbuf.c:21-29 | A new buffer holds its initial string |
| Argupar.Parser.ArguparParse | platfree/argupar.c:475-525 | The in-place parser returns the arguments that the specification gives, writes them to the front of the vector with the null pointer behind them, at an index no larger than the original count, makes the stores in order, and leaves everything behind the vector alone |
| Argupar.Parser.Turn | platfree/argupar.c:489-506 | In each turn the write index does not pass the read index, words not yet read are as they were, and the arguments kept so far stay |
| Argupar.Parser.DoParse | platfree/argupar.c:433-473 | One word has the effect the specification gives: kept, a command, an end, help, or options |
| Argupar.Parser.ParseShrtopt | platfree/argupar.c:194-206 | A cluster of short options is handled option by option; a value may be the rest of the word or the next word |
| Argupar.Parser.DoParseShrtopt | platfree/argupar.c:163-192 | The first option of the table with that short name decides what the rest of the word is |
| Argupar.Parser.ParseLongopt | platfree/argupar.c:226-300 | The loop over the table finds the option named in full, else the only one abbreviated, else fails; the value is taken after the equals sign or from the next word |
| Argupar.Parser.TryLong | platfree/argupar.c:237-276 | One entry of the table is named, abbreviated once or twice, or neither |
| Argupar.Parser.PrepareOptarg | platfree/argupar.c:251-267 | A value is given, missing, superfluous or left out as the flags of the option say |
| Argupar.Parser.DispatchOptarg | platfree/argupar.c:137-161 | The store is made exactly when the applicator accepts the value |
| Argupar.Parser.ParseSubcommand | platfree/argupar.c:64-78 | The first entry with that name is the command |
| ArguLaws.ArgumentsInOrder | platfree/argupar.c:433-473 | In every mode the arguments left are, in their order, exactly the words that are neither read as options, nor the value of the word of options before them, nor the double dash or the command that ends the parsing |
| ArguLaws.ParseContinues | platfree/argupar.c:489-511 | In every mode a vector that parses can be continued: if nothing in it ended the parsing, the rest is parsed on its own and appended, else the rest is appended as it is |
| ArguLaws.AfterDashes | platfree/argupar.c:461-465 | A double dash behind words that parse: the arguments found before it, then everything after it, whatever options there are |
| ArguLaws.OnlyDashesEnd | platfree/argupar.c:437-465 | In the plain mode nothing but a double dash ends the parsing |
| ArguLaws.ArgumentsAreSuffix | platfree/argupar.c:438-442 | In the two modes that stop early they are a suffix of the vector, and it starts where those modes stop |
| ArguLaws.PlainArguments | platfree/argupar.c:461-465 | Words without options come out unchanged, also those after a double dash, which is dropped |
| ArguLaws.ClusterSplit | platfree/argupar.c:173-186 | A cluster means the same as its options one by one |
| ArguLaws.ShortValueSplit | platfree/argupar.c:176-181 | A value attached to a short option means the same as in the next word |
| ArguLaws.LongValueSplit | platfree/argupar.c:250-267 | A value after the equals sign means the same as in the next word |
| ArguLaws.StoresUnset | platfree/argupar.c:226-268 | Whether an option that is selected is set or unset depends on nothing but a leading no- of the argument |
| ArguLaws.NamedPolarity | platfree/argupar.c:234-268 | An option is named in full, with or without a value, by the form of its name that says what is stored, and by nothing else: with a leading no- it is unset, without it is set, whichever of the two the table gives |
| ArguLaws.AbbreviatedPolarity | platfree/argupar.c:270-285 | An abbreviated option is stored as the abbreviated form says if and only if what follows a leading no- of the argument abbreviates the name without one; it is not only for options with a negated form, where the argument or what follows its no- is the beginning of no- itself |
| ArguLaws.NegationAbbreviated | platfree/argupar.c:274-284 | Both ways to go wrong, for every switch with a negated form whose name does not begin with n behind a leading no-: the word n, which abbreviates what unsets it, sets it, and the word no-n, which abbreviates neither form, unsets it |
| ArguLaws.ParseAlike | platfree/argupar.c:475-525 | For a table with no clashing names the meaning of every argument vector is the same under every permutation of the table |
| ArguOptions.ShortMeans | platfree/argupar.c:163-192 | A short option on its own means the first entry with this name: a number option takes the next word if str2uint() accepts it and ends the program if not; switches, counters and strings are stored as set; an option that takes a value and has no word behind it ends the program; an unknown name does too |
| ArguOptions.UnknownShort | platfree/argupar.c:163-189 | A cluster that begins with a name no option has ends the program |
| ArguOptions.LongMeans | platfree/argupar.c:226-268 | The same for a long option by its name or an abbreviation: with a leading no- it is stored as unset and takes no value, and a number that is unset needs none |
| ArguOptions.LongValueMeans | platfree/argupar.c:252-255 | A value after the equals sign is stored if the option takes one, is not to be unset and, for a number, str2uint() accepts it; in every other case the program ends |
| ArguOptions.NumbersAreNumbers | platfree/argupar.c:114-121 | In every vector that parses, each store of a number that is not unset has a value that str2uint() accepts; in the mode for commands the last store may be the command |
| ArguOptions.HelpExits | platfree/argupar.c:451-468 | -h and --help ask for help wherever a word is read |
| ArguOptions.LoneDash | platfree/argupar.c:448-455 | A lone dash is not an argument but an option without a name: it ends the program, or is undefined where some option has no short name |
| ArguOptions.ArgumentMeans | platfree/argupar.c:437-445 | A word that is no option stops the parsing, or is kept, or must be the name of a command: the first entry with that name is chosen, and the rest of the vector is left to it |
| ArguOptions.ArgumentNeeded | platfree/argupar.c:485-518 | Where an argument is needed, a vector that leaves none ends the program; otherwise that makes no difference |
| ArguOptions.FirstShortCounts | platfree/argupar.c:169-171 | Of several options with the same short name the first counts |
| ArguOptions.FirstNameCounts | platfree/argupar.c:237-267 | Of several options that an argument names in full the first counts |
| ArguOptions.IdleEntries | platfree/argupar.c:240-243 | Commands, descriptions of members and entries without a long name make no difference to the selection of a long option |
| OptTable.OrderFreeIff | platfree/argupar.c:237-285 | The option selected for an argument is the same for every permutation of the table if and only if no two different options are named in full by it |
| OptTable.TableOrderFree | platfree/argupar.c:237-285 | That holds for every argument if and only if no two different options of the table clash: same name, or same up to a leading no- that one of them has as negated form |
| OptTable.DistinctTable | platfree/argupar.c:237-285 | Distinct names are enough where no option has a negated form |
| OptTable.NegatedTable | platfree/argupar.c:245-250 | They are not enough where one has: the other option may be named by the negated form |
| Lexer.TimespanIs | platfree/string.c:142-168 | A number of seconds that fits 32 bits is stored as it is; behind it h or H stands for 3600, m or M for 60 and s or S for 1, the product is truncated to 32 bits, and any other character is refused |
| Lexer.TimespanExactIff | platfree/string.c:142-164 | With a unit, 3600, 60 or 1 seconds, the timespan is exact if and only if the product fits 32 bits |
| Lexer.TimespanMeans | platfree/string.c:142-167 | Every text: what is accepted and stored as a timespan, also for signs, a unit without a number, which is 0, and texts that are none |
| Lexer.NumberRead | platfree/string.c:92-121 | A text is accepted as a number up to a maximum if and only if it consists of digits, perhaps behind a sign, and the value fits; a negative one counts down from 2^64 |
| Lexer.DigitsToULL | platfree/string.c:92-121 | Decimal digits that fill the given length are accepted exactly up to the maximum |
| Lexer.ValueOfDecimal | platfree/string.c:103 | Reading the decimal digits of a number gives the number |
| Lexer.SpaceCodes | platfree/string.c:37-53 | What is dropped as a space are the characters 9 to 13 and 32 |
| CString.Straftr | platfree/string.c:17-25 | The rest of the string after a prefix, if it has that prefix |
| DotSav.Parser.StrSkipWs | platfree/string.c:37-42 | The string without its leading spaces |
| DotSav.Parser.StrTrimEnd | platfree/string.c:44-53 | The string without its trailing spaces, cut off in place |
| DotSav.Parser.StrNxtWs | platfree/string.c:55-60 | The position of the first space of the string, or none |
| DotSav.Parser.StrSkip | platfree/string.c:27-35 | What is behind a prefix, if the string has it |
| DotSav.Parser.DotsavParse | platfree/dotsav.c:322-347 | Parsing in the buffer gives what the specification gives for the text: the records, death, or undefined behaviour |
| DotSav.Parser.DoParse | platfree/dotsav.c:292-314 | Lines are cut off in place one after the other; text not yet reached is unchanged |
| DotSav.Parser.ParseLineAt | platfree/dotsav.c:202-241 | One line has the effect of its key and value, and nothing outside the line is written |
| DotSav.Parser.SearchKey | platfree/dotsav.c:212-222 | The key found is the first of the table that is followed by a space; a key that is not is skipped together with its text |
| DotSav.Parser.ApplySavent | platfree/dotsav.c:168-200 | The field of the last record takes the value, or the value is refused |
| DotSav.Parser.FindSaventCollision | platfree/dotsav.c:143-153 | An index below the number of records means a record of that name |
| DotSav.Parser.FinalizeParsing | platfree/dotsav.c:280-290 | A record with a missing field is fatal; else the backup prefix is directory, name and extension |
| DotSavLaws.RoundTrip | platfree/dotsav.c:292-320 | Records written in any layout, with blank lines, comments, spaces, fields in any order and repeated, periods with or without a unit, and no word about compression where there is none, are read back in order: name, save, seconds and depth as written, the bit that belongs to the place of the record, and the backup prefix as directory, slash, name and a dot, with the extension of archives and a second dot if it is compressed |
| DotSavLaws.LineMeans | platfree/dotsav.c:202-241 | A line means its key and value whatever the spaces around, and nothing if it is blank or a comment |
| DotSavLaws.ConfigMeans | platfree/dotsav.c:228-235 | A config starts a record with its own bit and nothing else in it, unless its name has a space or is taken already |
| DotSavLaws.EntryMeans | platfree/dotsav.c:168-200 | Any other field changes the last record in one place and by its value. Refused are a save that is no absolute path, not there, or empty and neither file nor directory, a compress other than y and n, a period that is no timespan or 0, a depth that is no number from 1 to 255; before the first config a field is undefined |
| DotSavLaws.FinalizedMeans | platfree/dotsav.c:243-290 | Parsing ends in death if and only if some record lacks a save, a backup, a period or a depth; else each backup gets its prefix, with the extension of archives if and only if it is compressed |
| DotSavLaws.MissingValue | platfree/dotsav.c:224-226 | A key with nothing but spaces behind it is fatal |
| DotSavLaws.UnknownKey | platfree/dotsav.c:213-240 | A line that is neither blank nor a comment, and is no such run of keys, makes the search leave the table |
| DotSavLaws.KeysAre | platfree/dotsav.c:324-333 | The six keys are config, save, backup, compress, period and stack |
| DotSavLaws.SuccessMeans | platfree/dotsav.c:143-166 | If parsing succeeds, names are distinct and without spaces, period and stack are not 0 and fit their types, every record has its paths, and any two records have different task bits |
| DotSavLaws.FoundIff | platfree/dotsav.c:212-240 | A line is read as a field of a key if and only if it is a run of key names in the order of the table, without anything between them, that ends in this key, then at least one space and the value |
| DotSavLaws.KeysMelt | platfree/dotsav.c:217-222 | The key read is the one the line begins with if and only if some key of the table begins the line and is followed by a space |
| Win32Time.Setup | platspec/win32/time.c:14-27 | The loop ends with a scale between 2 and 32, and with the factors as quotients of the frequency |
| Win32Time.NoWrap | platspec/win32/time.c:33 | The low product always fits 64 bits; while the total fits, nothing wraps |
| Win32Time.LowBelowHigh | platspec/win32/time.c:33 | The low part never exceeds the step of the high part |
| Win32Time.Monotone | platspec/win32/time.c:33 | While the total fits, the timestamp does not decrease as the tick grows, also across the carry into the high half |
| Win32Time.Accuracy | platspec/win32/time.c:19-33 | The timestamp is at most the exact tick * 10^9 / frequency and short of it by less than the high half plus 2^(32 - scale) + 1 |
| Win32Time.Clock.GetTimestamp | platspec/win32/time.c:8-34 | The factors are set up by the first call only, and the result is the 64-bit expression of them |
| LinkedList.AddTail | include/list.h:38-41 | Adding at the tail appends to the sequence the ring stands for |
| LinkedList.Delete | include/list.h:49-54 | Deleting a node takes it out of the sequence and keeps the ring |
| LinkedList.Insert | include/list.h:24-31 | The four links are set, and no other |
| LinkedList.HeadInit | include/list.h:18-22 | A fresh head is the empty ring |
| LinkedList.IsEmpty | include/list.h:61-64 | The test holds exactly for the empty sequence |
| LinkedList.Last | include/list.h:75-76 | The last entry of the ring is the last of the sequence |
| LinkedList.RingWithout | include/list.h:43-54 | A ring without one of its nodes, whose neighbours know each other, is a ring |
| AtExit.Handlers.Enque | platfree/atexit.c:21-27 | A handler is appended |
| AtExit.Handlers.Deque | platfree/atexit.c:29-41 | The last handler is taken, or the null pointer if there is none |
| AtExit.Handlers.Apply | platfree/atexit.c:43-49 | What runs at exit, under the rule of section 7.22.4.4 of C17, is the part of the queue after its last null pointer, in the order of enqueueing |
| AtExit.PrepareLongrunning | entry/uni.c:14-25 | The two handlers that the program registers run in the order of its calls: logging is torn down, then the process id is dropped |
| AtExit.EnqueueOrder | platfree/atexit.c:43-49 | All handlers run, in the order of enqueueing, if and only if no null pointer was enqueued |
| AtExit.Registered | platfree/atexit.c:47-48 | A function registered last is called first |

## Left out

- Reading directories: a path on the walker's stack carries the entries that opendir() would find, without `.` and `..`, and a listing does not change while the walk goes on; FITER_USE_FD is not modelled, FITER_USE_STAT only as what stat() answers in Sizeof, and of the flag combinations only those that callers pass are.
- FileIter.Walker.DispatchFile: the path buffer of the walker is a string with a length to reset it to, likewise the buffers of Copy and Backup; that a real buffer behaves so is what the contracts of StrBuf say.
- Copy.Copy: `--force` and flexremove() of an existing destination are not modelled; the destination is neither the source nor inside it; what becomes of a source whose name ends in a slash is the subject of Copy.TargetIff alone.
- FileSystem.Real: `.` and `..` as components, symbolic links to directories and the current directory are not modelled: a file system is a map from paths, and names that differ only in empty components stand for the same path.
- Rmdirr.Rmdirr: the root directory itself is not removed.
- Copy.PassTwo: a job is a leaf that the pool accepted or that was copied in place, also if that copy failed and ended the pass; that every accepted copy completes is not promised by the pool.
- CpSchedLaws.OnePlace: memory is sequentially consistent, there is one join, and tasks are addresses that malloc() never hands out twice; a waiting worker may wake at any time, so that a task is taken in the end is shown only for runs in which a worker is woken (CpSchedRuns.Drains).
- CpSchedLaws.QueueBound: the number of producers is below 2^32 minus the limit, so that the counter cannot wrap.
- BakSched.OverloadBound: the number of timer threads is below 2^32 minus the limit; the mutex is modelled by the state of its owner, memory is sequentially consistent; the bit is cleared before the backup runs, so nothing is said about backups of one config running at a time.
- Backup.Directory.NextBackup: writing the data is a step of the environment, because start_backup() is commented out in the source; flexremove() of slot 0 is atomic, so that a removal that fails half-way is not modelled.
- Termas.FormatCntrlChar: for more than 24 control characters it says that the positions overrun their array, which never grows beyond its first allocation, and nothing about what that does to memory.
- StrList.SplitWord: texts with a word longer than the bound are excluded; the source walks back past the start of the line there (its own list of issues names the missing check), and `StrList.WrapIff` shows that no wrap exists.
- StrList.StrStack.Push: the mode that keeps references instead of copies, and dumping and joining lists, are not modelled.
- StrBuf.StrBuf.ConcatAt: printf-style appending, trimming and path normalisation are not modelled.
- Argupar.Parser.ArguparParse: the values written to option variables are recorded as a list of stores; what str2uint() accepts is a parameter; a lone `-` where some option has no short name, an optional value left out, and options without an applicator lead to an outcome of their own; help texts are not modelled.
- ArguLaws.ClusterSplit: `-h` alone asks for help, so it is not a cluster of one; the law excludes it.
- OptTable.TableOrderFree: long names contain no equals sign.
- DotSav.Parser.FinalizeParsing: the source tests for a default of -1 for compression that nothing sets (`compress` starts as 0), so the branch is not part of the model.
- DotSav.Parser.DotsavParse: an unknown key, and a field before the first config, lead to an outcome of their own, because the source reads behind its table or before its array; the text has no NUL; what interpret_save() asks the system is a parameter; records are a sequence that grows.
- Sizeof.PreShowsOnce: the root directory itself is not covered; nor is it by the laws about the places of leaves in Copy.
- Sizeof.CalcDir: the choice of a unit for the sum, and the printing, are not modelled.
- BakSched, CpSched and the records of DotSav are modelled on values, so aliasing between tasks and records is not captured.
- AtExit.Handlers.Apply: that atexit() itself may fail is not modelled, as the source ignores it.
- LinkedList: list_add() and the traversal macros are not modelled; a deleted node is poisoned with null.
- Win32Time.Clock.GetTimestamp: the tick is split into an unsigned high and low half; negative ticks are not modelled.
- Logging, messages, locale, signals, timers, terminal and console, path getters, process ids, compression, and the help command.
