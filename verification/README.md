# A model of libfuse's path library, libev's core, and the structures beside them

This project models, in Dafny, the parts of the repository whose state is linked, shared or lazily updated, and
proves what their invariants are, what each operation does to the state they describe, and what holds in every run.

* **The path library of libfuse.** The node table: two chained hash tables, reference counts and lookup counts
  (`fuse_node.dfy`, `fuse_view.dfy`, `name_hash.dfy`, `fuse.dfy`). The tree locks of paths, with their roll-back
  (`path_locks.dfy`), the buffer a path is built in and what the path means (`path_buffer.dfy`, `path_names.dfy`), the
  ids and generations (`stamps.dfy`). The byte-range locks of a node (`range_locks.dfy`). How INTERRUPT requests find
  the requests they are for (`interrupts.dfy`). The option string and the argument parser (`opt_string.dfy`,
  `opt_parse.dfy`).
* **The core of libev.** The 4-ary heap (`timer_heap.dfy`, `time_heap.dfy`), timers and periodics and their expiry
  (`schedule.dfy`, `expiry.dfy`, `periodic_times.dfy`), the queues of pending events (`pending.dfy`), io watchers with
  the lazy list of changes and the poll set (`io.dfy`, `poll_set.dfy`), the self-pipe of signals and async watchers
  (`self_pipe.dfy`), growing arrays (`array_size.dfy`).
* **Supporting structures.** Doubly linked lists (`dlink.dfy`), the block allocator (`balloc.dfy`), the iterator over an
  archive's files (`file_tree.dfy`), times as text (`timestr.dfy`).

How the models are made:

* A structure that the code updates in place is a class whose methods follow the code's branches. `Valid()` is the
  invariant that every method keeps, so it holds in every run. Ghost fields give the meaning: `view` the records of
  all live nodes, `held` the paths in use, `due` when each timer is due, `want` what each waiting watcher is to be called
  with, `polled` what poll(2) is asked for, `running`, `used`. What a method does to the meaning is a function or a
  predicate on values, and the lemmas are about those.
* Code that is run by several threads is a state machine, of which a step is one access or one critical section
  (`SelfPipe`, `Interrupts`); the theorems are about all sequences of steps. The node table and the path locks are
  only touched under the library's one mutex, so for them an interleaving is a sequence of method calls.
* The assertions in the code are preconditions of the methods that make them, or are proved where they stand; they are
  never violated.
* C arithmetic is written out where it matters: 32-bit wrap-around of hashes and ids, saturation of buffer sizes,
  truncating division (`TimerHeap.Parent`, `TimeStr.Quot`), conversion to `int`. Times are real numbers.
* What the kernel guarantees to the library is a precondition: a request names directories that are live, names are
  non-empty and have no '/', a rename target is not below the moved node, a node is forgotten between once and as often
  as it was looked up, and lock ranges have 0 <= start <= end.

Where the code does not do what it should, or what its comments say, the code is followed, and it is proved exactly
when the property holds:

* Held paths survive `remove_node` if and only if no path runs through the node, and `rename_node` if and only if none
  runs through the displaced target, nor through the moved node unless it stays in its directory
  (`FuseTree.Fuse.RemoveNode`, `PathLocks.RenameKeepsLocks`). The library leaves this to its callers, which take the
  write lock. When `rename_node` has no memory for the new name, both nodes have lost theirs, and the held paths
  survive if and only if none runs through either (`PathLocks.UnnamedKeepsLocks`).
* `try_get_path2` does not get two paths that it could get one by one if the entry of one is on the way of the other,
  or both have the same entry: the request then waits for itself, whatever the others do (`PathLocks.SecondPath` is
  the exact condition). Renames are the only requests with two entries; one to a directory that is not below the moved
  node blocks itself if and only if its target is the node itself or a directory on the way to it
  (`PathLocks.RenameBlocks`), like /d/x to /d (`PathLocks.SelfBlocking`). A kernel that refuses those never makes a
  rename block itself.
* `ev_async_start` keeps a mark that was set while the watcher was inactive, and then nothing is left to deliver it:
  `SelfPipe.StaleSendIsForgotten` is such a run, `SelfPipe.StartKeeps` the exact condition. What a caller can check is
  that `ev_async_pending` is 0, which suffices (`SelfPipe.StartUnmarked`), and with no sender at work it is exact up
  to a flag that is already raised (`SelfPipe.UnmarkedIsSafe`).
* The comment at balloc.c:342 says that garbage collection never removes the root block. The code keeps it if and only
  if fewer elements are free than a block has, or it is the only block, or one of its own elements is in use
  (`Balloc.BlockHeap.GarbageCollect`); `Balloc.RemoveRoot` is a run that removes it. The collection that
  `blockheap_alloc` tries never helps, since it only runs when no element is free (`Balloc.BlockHeap.Alloc`).
* A separator that is the last argument is not always dropped: one behind which nothing was kept goes if and only if no
  options were kept in groups, since those go in front and the count is not adjusted (`OptParse.SeparatorGoes`);
  `OptParse.LastSeparatorStays` is when it stays.
* Splitting an option string undoes joining if and only if there is one option or the first is not empty
  (`OptString.SplitUndoesJoin`).
* A time is read back from its text if and only if its days fit an `int`; negative times are, too
  (`TimeStr.RoundTrip`).
* (node id, generation) pairs repeat after 2^64 steps of the counter, and not before (`Stamps.PairsAreUnique`).
* A lock's `l_len` is given back as 0 when it reached the largest offset (`RangeLocks.FlockRoundTrip`).
* A periodic is always due at least 1/8192 s ahead if and only if its interval is no shorter than that
  (`PeriodicTimes.AlwaysAhead`); with a shorter one it is not when it is due right now
  (`PeriodicTimes.TriggerAtOffset`).
* `xar_file_first` does not clear the path of a walk that was broken off: the next walk then reports the same files,
  each with its path behind the old one (`FileTree.WalkedUnder`), and is right if and only if there was no old path or
  there are no files (`FileTree.OldPathMatters`). A walk to the end restores the path that it began with if and only
  if no directory has a slash in its name (`FileTree.PathIsRestored`).
* `xar_file_next` ascends by dirname, which takes off one component of a path, also where a directory's name has
  several: each file is reported with the path of its directory if and only if no file comes behind a directory with a
  slash in its name (`FileTree.WalkIsPreorder`). `FileTree.SlashMisleads` is an archive for which this fails.
* `fuse_req_interrupt_func` has no count of its own on the request: it touches a request that has been destroyed if
  and only if the request was replied to meanwhile and no INTERRUPT counts on it (`Interrupts.NoUseAfterDestroy`).
  This is so when the callback, called while it is being registered, replies (`Interrupts.UnlocksDestroyed`); called
  by the thread of an INTERRUPT it may (`Interrupts.ReplyRaces`). A filesystem that never replies to a request while
  it registers a callback for it is safe (`Interrupts.CarefulIsSafe`).
* A watcher that expires keeps the events it was fed before if and only if it does not stop or they are the same, as
  it is cleared first (`Expiry.KeepsEarlierEvents`); `Expiry.LosesEarlierEvents` is a loss. The fourth comparison in
  the slow path of `downheap` is never reached (`TimerHeap.LeastChild`).

`dafny verify dfyconfig.toml` checks the whole project.

## Model

| member | source | states |
|---|---|---|
| NameHash.ComputeHash | fuse/fuse.c:308-318 | the loop over the bytes, with sign-extended characters and 32-bit wrap-around, computes the hash that the tables are proved against |
| NameHash.HashExamples | fuse/fuse.c:308-318 | some hashes, one of a name with a byte above 127 |
| FuseNode.Table.Add | fuse/fuse.c:301-306 | a node is put in front of the chain it is hashed to and linked to the node that was first; every other node stays where it was |
| FuseNode.LinkKeeps | fuse/fuse.c:301-306 | all chains stay linked when a node is put in front of one |
| FuseNode.UnlinkKeeps | fuse/fuse.c:322-343 | all chains stay linked when a node of one is passed over, the first or another |
| FuseNode.Table.Remove | fuse/fuse.c:289-299 | the walk finds a node if and only if it is on that chain of that table; the link that led to it, of its predecessor or of the table, then leads to the next one, and nothing else leaves or moves |
| FuseView.TreeUnique | fuse/fuse.c:822-855 | parent links determine the way from each node to the root: there is no second reading of the tree |
| FuseView.DetachGuards | fuse/fuse.c:361-379 | when a parent loses a child its reference count is positive, and if it is freed it has no name and no lock: the assertions of unref_node and delete_node hold |
| FuseView.DetachRecords | fuse/fuse.c:322-343 | taking a name away changes two records; the parent is freed exactly with its last reference, and it then has no name, no parent and no other child |
| FuseView.DetachKeeps | fuse/fuse.c:322-343 | unhash_name keeps reference counts exact, names and ids unique, parents live and links acyclic |
| FuseView.AttachKeeps | fuse/fuse.c:345-359 | hash_name keeps the same invariant, for a name that is free in a directory that is not below the node |
| FuseView.FreshKeeps | fuse/fuse.c:414-424 | a new node with an unused id keeps the invariant but for the one reference its first lookup will hold |
| FuseView.LastLookupKeeps | fuse/fuse.c:802-804 | giving up the last lookup leaves just one reference too many |
| FuseView.UnrefKeeps | fuse/fuse.c:373-379 | dropping that reference restores the invariant; a node that is freed has no name, no lock and no children |
| FuseView.DetachKeepsNode | fuse/fuse.c:322-343 | a node that is looked up survives when others lose their names |
| FuseView.AttachKeepsHashed | fuse/fuse.c:345-359 | a node that is given a name belongs on the chain of that name, and all others on theirs |
| FuseView.DetachKeepsHashed | fuse/fuse.c:322-343 | a node without a name is on no chain, all others on theirs, also when the parent is freed |
| FuseTree.Fuse.constructor | fuse/fuse.c:3683-3728 | the tables begin with the root alone, and the invariant holds |
| FuseTree.Fuse.GetNode | fuse/fuse.c:260-281 | a node is found by id if and only if there is one |
| FuseTree.Fuse.LookupNode | fuse/fuse.c:392-404 | lookup_node decides exactly whether a directory id has an entry of a name |
| PathLocks.SameEntry | fuse/fuse.c:392-404 | the name table is a function: two nodes with the same directory id and name are one node |
| FuseTree.Fuse.DeleteNode | fuse/fuse.c:361-371 | a node without lock and name leaves the id table, which then holds exactly the other live nodes |
| FuseTree.Fuse.UnrefNode | fuse/fuse.c:373-379 | one reference less, and no node with the last one; the id table follows |
| FuseTree.Fuse.UnhashName | fuse/fuse.c:322-343 | a node loses parent and name, its parent one reference; the walk over the chain always finds it, and the invariant is kept |
| FuseTree.Fuse.HashName | fuse/fuse.c:345-359 | a node gets parent and name, its parent one reference, and the name table follows; or there is no memory for the name, -1, and nothing changes |
| FuseTree.Fuse.Tick | fuse/fuse.c:383-387 | one turn of the counter is one step of the 64-bit stamp, wrap-around included |
| FuseTree.Fuse.NextId | fuse/fuse.c:381-390 | ends if any id is free; the id is not 0, not the unknown one and not in use, and all that were passed over were; stamps strictly increase |
| Stamps.PairsAreUnique | fuse/fuse.c:418-420 | no (node id, generation) pair is issued twice within 2^64 steps, nor the root's ever; two pairs are equal just when 2^64 divides their distance |
| FuseTree.Fuse.NewNode | fuse/fuse.c:413-432 | the node made has an unused id, the generation that goes with it, the given directory and name, one lookup, one reference and no lock; its directory has a reference more, and nothing else changes; or memory runs out for the node or its name, and the tables are as they were |
| FuseTree.Fuse.FindNode | fuse/fuse.c:406-436 | the entry is found, or made if there is none; either way it is looked up once more, the invariant and all held paths are kept; NULL only when there is no such entry and memory runs out, and then nothing has changed |
| FuseTree.Fuse.GainLookup | fuse/fuse.c:432 | one lookup more changes nothing else |
| FuseTree.Fuse.ForgetNode | fuse/fuse.c:777-808 | waits exactly when the last lookups would go from a locked node; otherwise that many lookups go and nothing else changes; with the last the node leaves its directory, whose node has a reference less, and is gone unless it has children; held paths are kept |
| FuseTree.Fuse.RemoveNode | fuse/fuse.c:810-819 | the entry loses its name, its directory a reference; nothing else changes; the held paths survive if and only if none runs through it |
| FuseTree.Fuse.RenameNode | fuse/fuse.c:821-855 | the entry moves and a node of the new name is displaced; or EBUSY, nothing changed; or ENOMEM, and neither has a name; no other node moves, lookups and locks stay, no node that is looked up goes; hidden exactly when asked; the invariant is kept, and the held paths in each case if and only if RenameSafe, or none runs through either |
| PathLocks.FindKeeps | fuse/fuse.c:406-436 | making an entry keeps the invariant and all held paths |
| PathLocks.ForgetKeeps | fuse/fuse.c:777-808 | forgetting keeps the invariant and all held paths, since it waits for locked nodes |
| PathLocks.ForgetIs | fuse/fuse.c:777-808 | forgetting some lookups leaves exactly the rest; forgetting the last takes the node out of its directory, and frees it unless it has children |
| PathLocks.ForgetTwice | fuse/fuse.c:802 | forgetting in two requests is forgetting the sum in one |
| PathLocks.DetachKeepsLocks | fuse/fuse.c:322-343 | a node losing its name keeps the held paths if and only if its treelock is not positive |
| PathLocks.AttachKeepsLocks | fuse/fuse.c:345-359 | a node being given a name keeps all held paths |
| PathLocks.RenameStages | fuse/fuse.c:834-847 | no step of rename_node frees what the next one needs, and the new name is free when it is entered |
| PathLocks.RenameParents | fuse/fuse.c:840-847 | afterwards the node is in the new directory under the new name, and a displaced target is nowhere |
| PathLocks.RenameIs | fuse/fuse.c:834-851 | record by record: the node is where it was sent, a displaced target nowhere, every other node where it was, lookups and treelocks as before, with memory for the new name and without |
| PathLocks.RenameKeeps | fuse/fuse.c:821-855 | renaming keeps the invariant; also onto the own name, into the own directory, and when a parent is freed on the way |
| PathLocks.RenameKeepsLocks | fuse/fuse.c:821-855 | renaming keeps the held paths if and only if the displaced target is on none, and the moved node too or it stays in its directory |
| PathLocks.UnnamedKeeps | fuse/fuse.c:843-847 | rename_node that runs out of memory for the new name keeps the invariant, with both names gone |
| PathLocks.UnnamedKeepsLocks | fuse/fuse.c:843-847 | it keeps the held paths if and only if none runs through either node, even if the node was to stay in its directory |
| PathLocks.PathPinsParent | fuse/fuse.c:471-490 | if a held path is intact before and after, no node it runs through has changed its parent |
| PathLocks.AcquireKeeps | fuse/fuse.c:492-575 | locking a way that nobody writes keeps every treelock at -1 for the one writer, else at the number of paths through the node |
| PathLocks.ReleaseKeeps | fuse/fuse.c:471-490 | releasing keeps that, and meets exactly the treelocks that unlock_path asserts |
| PathLocks.UnlockUndoesLock | fuse/fuse.c:569-570 | releasing what was just locked restores every treelock |
| PathLocks.GiveUp | fuse/fuse.c:568-574 | wherever the climb fails, unlock_path up to the failing node is entitled to what it asserts, and restores the state |
| PathLocks.ClimbDone | fuse/fuse.c:534-566 | a climb that reaches the root has locked a path that may be held |
| PathLocks.CanRelease | fuse/fuse.c:748-756 | as long as held paths are intact, each may be released as it was acquired |
| PathLocks.EntryNotAbove | fuse/fuse.c:518-550 | the write-locked entry is never on the way to the root, so the request does not block itself |
| FuseTree.Fuse.UnlockPath | fuse/fuse.c:471-490 | exactly the nodes from the start to the end node lose a read lock and the write node its write lock, and those that were not reserved are reserved for the ticket; the assertions hold at each |
| FuseTree.Fuse.ClimbOne | fuse/fuse.c:537-554 | one node: its name goes in front of the text and it is locked, or the first of the three errors that applies and nothing is locked |
| FuseTree.Fuse.LockEntry | fuse/fuse.c:518-532 | the entry is locked for writing, if there is one; on failure it is reserved for the ticket unless it was reserved |
| FuseTree.Fuse.ClimbFairly | fuse/fuse.c:546-554 | a node is locked if and only if no writer has it and it is not reserved for another request; the request's own reservation of it is used, and no other node's changes |
| FuseTree.Fuse.Claim | fuse/fuse.c:518-532 | the write lock is taken if and only if the entry, where there is one, is unlocked and not reserved for another ticket; otherwise the entry is reserved for this one, if it was not reserved |
| FuseTree.Fuse.TryGetPath | fuse/fuse.c:492-575 | on success every node from the start below the root is read-locked once, the entry write-locked, the path held, and the string is the names from the root; on failure every treelock is as before. Between success and EAGAIN, success if and only if nothing bars the way; EAGAIN at the first node that does, ENOENT only at the end of a way that does not lead to the root. The tickets of all nodes afterwards: what was locked is reserved no longer, or on failure reserved for this request |
| PathLocks.UnbarredIs | fuse/fuse.c:518-554 | a way is unbarred if and only if no node on it has a writer or is reserved for another request, and the entry, if it is to be locked, has no lock and is not reserved for another |
| PathLocks.AttemptIsFair | fuse/fuse.c:492-575 | an attempt takes no reservation away from another request and makes none but for itself: what it has locked is reserved no longer, or for itself once it has failed, and so is an entry that it could not lock |
| FuseTree.Fuse.Release | fuse/fuse.c:748-756 | a path that is still intact is released: exactly the nodes its acquisition locked |
| FuseTree.Fuse.TryGetPath2 | fuse/fuse.c:696-713 | both paths are held, or every treelock is as before; both, rather than EAGAIN, if and only if each path is unbarred by itself and the two are compatible; the tickets of all nodes afterwards, whichever attempt fails |
| PathLocks.SecondPath | fuse/fuse.c:704-711 | with the first path locked the second one can be if and only if it could be without, and neither entry is on the way of the other path, nor the same |
| PathLocks.RenameBlocks | fuse/fuse.c:2262-2292 | the two paths of a rename to a directory not below the moved node are compatible if and only if the target is neither that node nor on the way from its directory to the root: a rename that the kernel lets through does not block itself |
| PathLocks.SelfBlocking | fuse/fuse.c:704-711 | a request that can have each of its paths and never both: with nothing locked, a rename of /d/x to /d |
| PathBuffer.Enlarge | fuse/fuse.c:447-452 | for a need that fits 32 bits the doubling loop ends with enough room, without overflow |
| PathBuffer.EnlargeEnds | fuse/fuse.c:447-452 | the doubling loop ends if and only if the need fits 32 bits |
| PathBuffer.Grow | fuse/fuse.c:454-461 | realloc and memmove bring the whole text to the new end |
| PathBuffer.AddName | fuse/fuse.c:438-469 | the text is "/" and the name in front of what it was, also when the buffer grows; or the allocation failed |
| FuseTree.Fuse.Climb | fuse/fuse.c:534-575 | at the root the buffer holds the whole path and every node on the way is locked; any failure on the way leaves the locks as they were |
| FuseTree.Fuse.Finish | fuse/fuse.c:557-562 | the string is the text, or "/" for the root |
| PathNames.FirstComponent | fuse/fuse.c:392-404 | the first component of a path is the name put in front last |
| PathNames.WalkDown | fuse/fuse.c:492-575 | looking up the first names of the path leads from the root down to each node of the way |
| PathNames.PathLeadsHome | fuse/fuse.c:492-575 | the path of a node, split at the separators and looked up from the root, leads back to that node |
| PathNames.PathLeadsToEntry | fuse/fuse.c:492-575 | the path of a name in a directory leads to what lookup_node finds under that name |
| RangeLocks.Inode.Conflict | fuse/fuse.c:2938-2949 | the first conflicting lock, if any |
| RangeLocks.ConflictDecides | fuse/fuse.c:2938-2949 | locks_conflict finds nothing if and only if the request is, byte by byte, compatible with what the others hold |
| RangeLocks.Inode.Insert | fuse/fuse.c:2964-3036 | afterwards each owner holds at each byte what was requested, if it is the requester and the byte is in the range, else what it held, each part with its process id; a lock that is merged has the requester's id over all of it; locks stay sorted, disjoint and maximally merged; the spare cells are there when they are used, each once; the loop ends although it may lengthen the list |
| RangeLocks.Merge | fuse/fuse.c:2987-2998 | taking over a touching lock of the same kind does not change the outcome of the request |
| RangeLocks.Split | fuse/fuse.c:3014-3018 | a lock of another kind around the request is cut in two, and everything behind is out of the way |
| RangeLocks.Drop | fuse/fuse.c:3004-3005 | a covered lock may go |
| RangeLocks.Place | fuse/fuse.c:3027-3031 | a request for a lock, where it is put at the end of the loop, keeps the list sorted and merged, and is the point update |
| RangeLocks.NothingLeft | fuse/fuse.c:3027 | an unlock request is done when the loop is: the list is the outcome |
| RangeLocks.TrimEnd | fuse/fuse.c:3006-3009 | a lock of another kind that reaches into the request keeps what is in front of it |
| RangeLocks.TrimStart | fuse/fuse.c:3010-3013 | a lock of another kind that reaches behind the request keeps what is behind it |
| RangeLocks.WideIsPointUpdate | fuse/fuse.c:2964-3036 | putting the widened lock in place is, byte by byte, what was requested: merging never claims a byte that the owner did not hold with that kind |
| RangeLocks.AlreadyHeld | fuse/fuse.c:2992-2993 | the early exit: the list already is the outcome |
| RangeLocks.HeldSome | fuse/fuse.c:2964-3036 | in a valid list a byte is held as the one lock that covers it says |
| RangeLocks.GrantKeepsExclusion | fuse/fuse.c:2938-3036 | after granting, write locks exclude all others if and only if locks_conflict found nothing |
| RangeLocks.UnlockKeepsExclusion | fuse/fuse.c:2964-3036 | giving a range up never breaks exclusion |
| RangeLocks.FlockRoundTrip | fuse/fuse.c:3038-3055 | a lock survives conversion to struct flock and back; a struct flock does just when its length is 0 or it does not reach the largest offset |
| RangeLocks.FlockMeans | fuse/fuse.c:3038-3055 | the conversions keep the kind, the process id and every byte of the range, a length of 0 meaning to the end |
| Interrupts.TakeLockKeeps | fuse/fuse_lowlevel.c:1003-1008 | taking a request's lock when no thread has it keeps the invariant |
| Interrupts.MarkKeeps | fuse/fuse_lowlevel.c:1008-1012 | marking a request keeps it: the thread has read the callback that is registered at that time |
| Interrupts.CallKeeps | fuse/fuse_lowlevel.c:1013-1014 | calling the callback keeps it |
| Interrupts.ReleaseKeeps | fuse/fuse_lowlevel.c:1015 | unlocking the request behind the callback keeps it |
| Interrupts.LeaveKeeps | fuse/fuse_lowlevel.c:1017-1022 | giving up the count keeps it, and destroys the request if it was the last |
| Interrupts.FoundIsCounted | fuse/fuse_lowlevel.c:998-1022 | a found request has a count for the thread that found it |
| Interrupts.ReplyKeeps | fuse/fuse_lowlevel.c:143-156 | replying keeps it, at any time, also from a callback and while threads register one: the request leaves the list, and lives on while threads that found it count on it |
| Interrupts.AskKeeps | fuse/fuse_lowlevel.c:1289-1292 | a thread that begins to register a callback keeps it |
| Interrupts.EnterKeeps | fuse/fuse_lowlevel.c:1292 | a registering thread that gets the lock of the request keeps it |
| Interrupts.StoreKeeps | fuse/fuse_lowlevel.c:1293-1296 | storing the callback keeps it: if the request is interrupted the storing thread will call it |
| Interrupts.CheckKeeps | fuse/fuse_lowlevel.c:1297-1298 | reading whether the request is interrupted, and calling the callback if so, keeps it |
| Interrupts.UnlockKeeps | fuse/fuse_lowlevel.c:1299 | the unlocking behind that keeps it |
| Interrupts.InterruptKeeps | fuse/fuse_lowlevel.c:994-1051 | an INTERRUPT that finds its request, repeats one that waits, or is queued keeps it |
| Interrupts.ArriveKeeps | fuse/fuse_lowlevel.c:1053-1073 | an arriving request that takes the INTERRUPT waiting for it, or has the first of the queue refused, keeps it |
| Interrupts.ArriveMarks | fuse/fuse_lowlevel.c:1053-1064 | the INTERRUPT that waits for an arrival, and no other, marks it, leaves the queue and is destroyed |
| Interrupts.ArriveRefuses | fuse/fuse_lowlevel.c:1066-1072 | an arrival that no INTERRUPT waits for takes exactly the first of the queue, which is to be answered; nothing else happens to INTERRUPTs |
| Interrupts.InterruptIs | fuse/fuse_lowlevel.c:994-1051 | an INTERRUPT for a request in flight finds it, one like a waiting one is destroyed, and any other waits behind the others |
| Interrupts.CallStep | fuse/fuse_lowlevel.c:1013-1014 | no step calls a callback but these two |
| Interrupts.CallsOnce | fuse/fuse_lowlevel.c:1013-1015 | in every run, the thread of an INTERRUPT calls a callback once |
| Interrupts.ArriveWaits | fuse/fuse_lowlevel.c:1053-1073 | no INTERRUPT is left waiting for a request in flight |
| Interrupts.StepKeeps | fuse/fuse_lowlevel.c:994-1073 | every step of every thread keeps the invariant |
| Interrupts.EveryInterruptExplained | fuse/fuse_lowlevel.c:994-1073 | in every interleaving, each INTERRUPT has found its request and will mark it, or has marked it, or waits while it is not in flight, or repeats another, or is answered EAGAIN |
| Interrupts.RefusedIsAnswered | fuse/fuse_lowlevel.c:1409-1417 | in every run, a refused INTERRUPT is still to be answered EAGAIN or has been, and is destroyed with the answer and not before |
| Interrupts.AnsweredByRefuse | fuse/fuse_lowlevel.c:1415-1416 | exactly those are answered for which the answering is a step of the run |
| Interrupts.OnlyInterrupted | fuse/fuse_lowlevel.c:994-1073 | no request is marked but by an INTERRUPT for its id |
| Interrupts.DestroyedExactlyOnce | fuse/fuse_lowlevel.c:137-156 | no request is destroyed twice; one is destroyed if and only if no list and no thread has it any more |
| Interrupts.NoUseAfterDestroy | fuse/fuse_lowlevel.c:1289-1300 | a step of a run touches a destroyed request if and only if it is one of a thread in fuse_req_interrupt_func whose request was replied to meanwhile and which no INTERRUPT counts on |
| Interrupts.CarefulIsSafe | fuse/fuse_lowlevel.c:1289-1300 | if no request is replied to while a callback is registered for it, no step touches a destroyed request |
| Interrupts.UnlocksDestroyed | fuse/fuse_lowlevel.c:1297-1299 | a run in which the callback, called while it is registered, replies: the unlocking behind it touches the destroyed request |
| Interrupts.RepliedIsOff | fuse/fuse_lowlevel.c:143-156 | a request that has been replied to is never in flight again |
| Interrupts.OffIsReplied | fuse/fuse_lowlevel.c:1289-1300 | a request that a callback is registered for is in flight unless it was replied to meanwhile |
| Interrupts.InterruptedIsCalled | fuse/fuse_lowlevel.c:994-1031 | in every run: once a request in flight is interrupted and has a callback, that callback has been called as soon as no thread has the lock of the request, whatever happens in between, replies included |
| Interrupts.StaysTold | fuse/fuse_lowlevel.c:994-1031 | no step makes a called callback uncalled, or loses the thread that is about to call it |
| Interrupts.ReplyRaces | fuse/fuse_lowlevel.c:143-156 | the race: a run in which the reply comes between the marking and the call; the callback is called all the same, and the request not destroyed before |
| Interrupts.OnlyInterruptedIsCalled | fuse/fuse_lowlevel.c:1289-1300 | no callback is called of a request that was not interrupted |
| OptString.AddOptCommon | fuse/fuse_opt.c:112-134 | what is written is the old string, a comma if it is not empty, and the option with commas and backslashes escaped; it fits what is allocated |
| OptString.EscapeIs | fuse/fuse_opt.c:126-131 | escaping goes character by character: a backslash before each comma and each backslash |
| OptString.EscapeOfPlain | fuse/fuse_opt.c:126-131 | text without those is not changed |
| OptString.Write | fuse/fuse_opt.c:126-131 | the loop writes at most two characters for each of the option |
| OptString.SplitInPlace | fuse/fuse_opt.c:289-315 | the options it processes are those of the text, although it puts them together in the buffer it reads; the write cursor never passes the read cursor, and neither leaves the buffer |
| OptString.SplitIs | fuse/fuse_opt.c:289-315 | for any text: commas separate, a backslash stands for the character behind it, or for itself at the end |
| OptString.SplitEscaped | fuse/fuse_opt.c:301-309 | reading an escaped option yields the option |
| OptString.SplitJoined | fuse/fuse_opt.c:289-315 | the options of two joined strings are those of the one and those of the other |
| OptString.SplitOfJoin | fuse/fuse_opt.c:112-134 | joining and splitting loses exactly the empty options in front, and of those not the last if there are no others |
| OptString.SplitUndoesJoin | fuse/fuse_opt.c:289-315 | splitting undoes joining if and only if there is one option or the first is not empty |
| OptString.CanonKeeps | fuse/fuse_opt.c:112-134 | dropping empty options in front does not change the joined string |
| OptString.SplitClean | fuse/fuse_opt.c:289-315 | no option has a terminator in it |
| OptParse.Context.InsertArg | fuse/fuse_opt.c:69-83 | the argument is inserted at the position, the others keep their order |
| OptParse.Context.CallProc | fuse/fuse_opt.c:151-166 | the argument is kept, as an option or an argument, or discarded, or the whole fails, as the caller's function says |
| OptParse.Context.ProcessGroup | fuse/fuse_opt.c:317-329 | all options of a group, in order, up to a failure |
| OptParse.Context.NextArg | fuse/fuse_opt.c:97-105 | fails at the last argument |
| OptParse.Context.ProcessOne | fuse/fuse_opt.c:331-352 | each argument, or pair of them, does to the state what the specification says of it |
| OptParse.Context.Close | fuse/fuse_opt.c:365-376 | the options are inserted behind the first argument, and a separator goes if the count says that it is the last |
| OptParse.Context.Parse | fuse/fuse_opt.c:354-379 | the whole loop computes the specified result, and fails exactly when it does |
| OptParse.OneOrTwo | fuse/fuse_opt.c:331-346 | -oX and -o X are the same, for every text, in every place in front of a separator, and every function |
| OptParse.GroupComesBack | fuse/fuse_opt.c:317-346 | a group whose options are all kept comes back with the text it had |
| OptParse.DanglingGroup | fuse/fuse_opt.c:338-341 | a -o without a text fails, whatever was in front |
| OptParse.DiscardedOrFailed | fuse/fuse_opt.c:151-166 | an argument that is discarded leaves no trace, and one that fails stops it all |
| OptParse.BehindSeparator | fuse/fuse_opt.c:331-352 | behind a separator even options are arguments, and the separator stays |
| OptParse.LastSeparatorGoes | fuse/fuse_opt.c:371-376 | a separator that is the last argument goes |
| OptParse.LastSeparatorStays | fuse/fuse_opt.c:365-376 | but not when options were kept in a group, since the count is not adjusted for what is inserted |
| OptParse.SeparatorGoes | fuse/fuse_opt.c:365-376 | a separator behind which nothing was kept goes if and only if no options were kept in groups |
| OptParse.PlainKept | fuse/fuse_opt.c:331-352 | arguments that are kept as they are pass unchanged |
| OptParse.KeptIsPlain | fuse/fuse_opt.c:331-352 | what is kept would be kept again, and the separator is counted right |
| OptParse.CountRange | fuse/fuse_opt.c:371-376 | the count is that of a separator among the arguments kept |
| OptParse.ParseTwice | fuse/fuse_opt.c:354-379 | parsing is idempotent: the argument vector that it leaves parses to itself |
| ArraySize.NextSize | ev.c:596-614 | the new size is enough and at least double, also after rounding to malloc chunks |
| TimerHeap.Children | ev.c:807-810 | the children of a slot are the four that downheap looks at; the truncating division makes the root its own parent |
| TimerHeap.LeastChild | ev.c:824-850 | the least of the up to four children, by the fast path and the slow path alike |
| TimerHeap.StepDown | ev.c:852-859 | moving the least child up leaves only the hole to be filled |
| TimerHeap.StepUp | ev.c:900-909 | moving the parent down leaves only the hole to be filled |
| TimerHeap.DownHeap | ev.c:813-861 | the heap is in order, every watcher knows its place, and the entries are the same |
| TimerHeap.UpHeap | ev.c:897-914 | the heap is in order, every watcher knows its place, and the entries are the same |
| TimerHeap.AdjustHeap | ev.c:916-921 | the same, from any time in slot k: it is enough that k's parent is not behind k's children |
| TimerHeap.ReHeap | ev.c:924-935 | an array in any order, with any indices, becomes a heap of the same entries with the right indices |
| TimeHeaps.AnyInSlot | ev.c:2138-2141 | whatever is put in a slot of a heap, adjustheap may be called for it |
| TimeHeaps.PutAtEnd | ev.c:2110-2115 | an entry behind the others leaves a heap but for that entry |
| TimeHeaps.TakeOut | ev.c:2136-2141 | the last entry in the place of another: the remaining timers, each once |
| TimeHeaps.RootIsLeast | ev.c:805-861 | no timer is due before the root |
| TimeHeaps.TimeHeap.Add | ev.c:2110-2115 | the timer joins with its time; all others stay; order, indices and cached times are kept, also when the array grows |
| TimeHeaps.TimeHeap.Remove | ev.c:2131-2142 | exactly that timer goes |
| TimeHeaps.TimeHeap.SetTime | ev.c:2156-2158 | exactly that timer has the new time |
| TimeHeaps.TimeHeap.SetRoot | ev.c:1676-1685 | the root's timer has the new time, and what follows is a heap again |
| TimeHeaps.TimeHeap.Rebuild | ev.c:1767 | from entries in any order to a heap of the same timers |
| TimeHeaps.TimeHeap.Places | ev.c:1476-1487 | each running watcher is found where its active field says, and the cached time is its own |
| TimeHeaps.TimeHeap.Root | ev.c:1666 | the root is due first |
| Schedules.Schedule.constructor | ev.c:1663-1748 | no timer runs at first |
| Schedules.Schedule.Start | ev.c:2100-2199 | the timer joins, due at its relative time from now, or the periodic at what its callback says, or the first time of its grid that is not past, or its offset; starting a running one does nothing |
| Schedules.Schedule.Stop | ev.c:2124-2224 | the timer goes, its time is relative again, and what it was to be called with is lost; stopping another does only that |
| Schedules.Schedule.TimerAgain | ev.c:2151-2167 | whether it ran or not, the timer is due after its repeat time, or does not run without one |
| Schedules.Schedule.PeriodicAgain | ev.c:2226-2232 | whether it ran or not, the periodic is due as if started now, and waits for nothing |
| Schedules.Schedule.FireRoot | ev.c:1667-1747 | one round: the first timer gets its next time or stops, and is fed |
| Schedules.Schedule.Reify | ev.c:1663-1748 | ends; fires exactly the watchers that were due, each once and the earliest first. A timer is due again its repeat time after it was due, or now if that is past, or stops without one; a periodic at what its callback says, or at the first time of its grid that is 1/8192 ahead, or stops. None that remains is due in the past; those that fired wait with what they were fed before unless they stopped, the others as they were |
| Schedules.Schedule.RescheduleAll | ev.c:1750-1768 | after a time jump each periodic is due at what its callback says, or at the first time of its grid that is not past, or as before without an interval; the heap is in order |
| Schedules.Schedule.Top | ev.c:1666 | while a timer is due, the root is |
| Schedules.Schedule.ActiveRuns | ev.c:2100-2149 | a watcher is active if and only if it runs |
| Schedules.Schedule.NoneInThePast | ev.c:1676-1682 | no fired watcher is due in the past again: the loop's termination rests on it |
| Expiry.FireNext | ev.c:1666-1690 | firing the first watcher that is due keeps the order of firing, repeats none, and leaves strictly fewer that are due |
| Expiry.FedNext | ev.c:1690 | feeding the next one keeps what is said of those before |
| Expiry.KeepsEarlierEvents | ev.c:1676-1690 | a watcher that fires keeps the events fed to it before if and only if it does not stop, or they add nothing to that of its expiry |
| Expiry.LosesEarlierEvents | ev.c:1676-1690 | a one-shot watcher that loses an event |
| PeriodicTimes.RoundUpIsNext | ev.c:2181 | the formula yields the first time congruent to the offset that is not before now |
| PeriodicTimes.NextTriggerIs | ev.c:1717-1738 | the next trigger is the first time of the grid that is 1/8192 ahead or, when the interval is shorter, the one an interval behind the first that is not past |
| PeriodicTimes.TriggerIsAhead | ev.c:1717-1738 | the next trigger is congruent to the offset, not in the past, less than an interval and 1/8192 away, and at least 1/8192 ahead if the interval is |
| PeriodicTimes.AlwaysAhead | ev.c:1717-1738 | the next trigger is at least 1/8192 ahead at all times if and only if the interval is at least 1/8192 |
| PeriodicTimes.TriggerAtOffset | ev.c:1717-1738 | with a shorter interval the next trigger is only that interval ahead of a time that is itself a trigger |
| PeriodicTimes.TriggerIsFirst | ev.c:1717-1738 | it is the first such time at least 1/8192 ahead, unless the interval is shorter |
| Pending.QueuedOnce | ev.c:648-660 | a waiting watcher is in exactly one slot |
| Pending.PopKeeps | ev.c:1628-1637 | the last slot of the highest queue in use has the watcher of the highest rank, or none |
| Pending.Queues.PendingIsQueued | ev.c:1468-1474 | a slot holds a watcher if and only if its priority and pending fields name that slot; pending is not 0 if and only if it waits |
| Pending.Queues.AdjustPriority | ev.c:2040-2045 | the priority is the nearest in range, which is itself when it is in range; that of a waiting watcher does not change |
| Pending.Queues.Feed | ev.c:648-660 | the watcher waits with the new events and those it had; no other is affected |
| Pending.Queues.Clear | ev.c:2019-2038 | the watcher waits no more, and what it was to be called with is returned; the others keep their places |
| Pending.Queues.Pop | ev.c:1630-1637 | the watcher of the highest rank leaves, with the events it was fed |
| Pending.Queues.CallPending | ev.c:1625-1642 | every waiting watcher is called once with all it was fed, higher priorities first, and none that an earlier callback stopped; nothing waits afterwards |
| Pending.BehindCall | ev.c:1628-1640 | calling the watcher of the highest rank keeps the order of calls |
| Pending.AccountedCall | ev.c:1636-1638 | who leaves the queues has been called or stopped |
| PollSets.PollSet.constructor | ev_poll.c:108-120 | nothing is polled at first |
| PollSets.PollSet.NeedIndex | ev_poll.c:42-57 | new slots of the index are -1, so that nothing is polled for them |
| PollSets.AddLast | ev_poll.c:61-65 | a new descriptor behind the others keeps the arrays inverse |
| PollSets.RemoveOne | ev_poll.c:74-79 | the last entry in the place of a removed one keeps the arrays inverse, also when it is that one |
| PollSets.PollSet.Modify | ev_poll.c:51-81 | exactly one descriptor changes: to the new events, or it goes; the arrays stay inverse; the assertion holds |
| Io.UnionHas | ev.c:698-699 | the collected events have a bit if and only if some watcher of the list is interested in it |
| Io.PlainBits | ev.c:2077 | taking the flag off leaves every other event of a watcher as it was |
| Io.AddKeeps | ev.c:2072-2077 | a watcher joining a list makes only that descriptor out of date |
| Io.DeleteKeeps | ev.c:2008-2017 | a watcher leaving a list makes only that descriptor out of date |
| Io.MarkKeeps | ev.c:730-739 | an out of date descriptor is in the change list after fd_change, although a mark of 0 lets it be listed twice |
| Io.ReifyKeeps | ev.c:692-725 | handling the first change brings its descriptor up to date, also when it is listed again |
| Io.NothingPending | ev.c:689-728 | with no change pending the poll set is exactly what the active watchers want |
| Io.IoLoop.Start | ev.c:2060-2080 | the watcher runs on its descriptor, for exactly the events that it was set for, without the flag; starting a running one does nothing |
| Io.IoLoop.Stop | ev.c:2082-2098 | the watcher does not run and does not wait; the assertion holds |
| Io.IoLoop.FdChange | ev.c:730-739 | the mark gets the flags; listed if it had none |
| Io.IoLoop.Delist | ev.c:2008-2017 | the watcher, and no other, leaves its list |
| Io.IoLoop.Collect | ev.c:698-699 | the loop over a list computes the union of the watchers' events |
| Io.IoLoop.Reify | ev.c:689-728 | after any run of starts and stops, the poll set has a descriptor if and only if a running watcher is interested in it, for reading and for writing exactly as one is |
| SelfPipe.SenderKeeps | ev.c:984-1000 | every step of a sender keeps: a mark is never without a sender to come or a raised flag, and a flag never without a wake-up |
| SelfPipe.PipecbKeeps | ev.c:1002-1035 | every step of pipecb keeps it: the flag is cleared before the scan, and the pipe read before the test |
| SelfPipe.StartKeeps | ev.c:2886-2901 | starting a watcher keeps it if and only if a mark left from before still has its wake-up to come |
| SelfPipe.UnmarkedIsSafe | ev.c:2886-2901 | that ev_async_pending is 0 suffices for a start to be safe; with no sender at work it is safe if and only if the watcher runs already, is not marked, or the flag is raised |
| SelfPipe.StartUnmarked | ev.c:2886-2901 | starting an async watcher that is not marked keeps the invariant |
| SelfPipe.StopKeeps | ev.c:2903-2921 | stopping a watcher, whose place the last one takes, keeps it |
| SelfPipe.StartAndStop | ev.c:2886-2921 | starting adds that watcher and stopping takes that watcher away; all others stay |
| SelfPipe.NoLostWakeUp | ev.c:984-1035 | in every interleaving, a marked slot has its sender still to raise the flag, or a raised flag with a wake-up outstanding, or the scan still to come by |
| SelfPipe.SendDelivers | ev.c:984-1070 | in every run: when the loop could sleep again, whatever was sent, and has a slot, has been fed since |
| SelfPipe.MarksAreFed | ev.c:1015-1033 | a mark goes in no other way than by being fed |
| SelfPipe.OnlyMarkedIsFed | ev.c:1015-1033 | nothing is fed that was not marked |
| SelfPipe.SleepIsSafe | ev.c:984-1035 | with no sender at work, pipecb idle and the pipe empty, nothing is marked: the loop may sleep |
| SelfPipe.ReadDelivers | ev.c:1002-1035 | one undisturbed callback feeds every marked slot, and leaves no mark and no flag |
| SelfPipe.FinishFeeds | ev.c:1015-1033 | marks only go, and those that went were fed |
| SelfPipe.StaleSendIsForgotten | ev.c:2886-2901 | a run in which a watcher is sent to before it is started: it stays marked with nothing left to wake the loop |
| Dlink.DList.Add | dlink.c:56-68 | the node is first, and all links are right |
| Dlink.DList.AddBefore | dlink.c:70-84 | the node is just before the given one |
| Dlink.DList.AddTail | dlink.c:86-98 | the node is last |
| Dlink.DList.Delete | dlink.c:100-118 | exactly that node goes, and keeps its own links |
| Dlink.DList.Find | dlink.c:120-129 | the first node with the data, if any |
| Dlink.DList.FindDelete | dlink.c:131-156 | the first node with the data goes and its links are reset |
| Dlink.DList.Move | dlink.c:162-192 | the node leaves the one list and is first of the other, or of the same |
| Balloc.PaddedIsLeast | balloc.c:198-204 | the padded size is the least multiple of the pointer size that is large enough |
| Balloc.ElementInside | balloc.c:112-153 | each element with its header lies inside the block |
| Balloc.ElementsApart | balloc.c:142-153 | elements with their headers do not overlap |
| Balloc.ElementsAligned | balloc.c:142-153 | elements of an aligned block are aligned |
| Balloc.Block.constructor | balloc.c:142-153 | a new block has all its elements on its free list, each once, and none on its used list; both lists are well linked |
| Balloc.Block.Take | balloc.c:272-281 | the first free element goes to the used list by relinking its node; both lists stay well linked |
| Balloc.Block.PutBack | balloc.c:329-331 | exactly that element goes back to the front of the free list; both lists stay well linked |
| Balloc.NodesApart | balloc.c:112-160 | the lists of two blocks share no node |
| Balloc.BlockHeap.constructor | balloc.c:198-210 | an empty heap |
| Balloc.BlockHeap.NewBlock | balloc.c:112-160 | a wholly free block is first in the chain, and the counters follow; or there is no memory and nothing changes |
| Balloc.BlockHeap.Alloc | balloc.c:244-285 | NULL exactly when no element is free and there is no memory; otherwise an element that nobody has; trying to collect garbage never helps |
| Balloc.BlockHeap.Free | balloc.c:298-334 | exactly that element is free again |
| Balloc.BlockHeap.NoneFree | balloc.c:252-284 | if no block has a free element, the counter is 0: the walk fails only then |
| Balloc.BlockHeap.GarbageCollect | balloc.c:348-386 | gives up early or removes exactly the wholly free blocks, the first included, and no used element; the root stays if and only if it gives up or the root is not wholly free |
| Balloc.FirstInUse | balloc.c:348-386 | without the wholly free blocks the first one is still the first, if and only if it is not one of them |
| Balloc.InUseIs | balloc.c:348-386 | exactly the wholly free blocks go, and the others keep their order |
| Balloc.RemoveRoot | balloc.c:336-386 | a run that removes the root block |
| Balloc.BlockHeap.RemoveBlock | balloc.c:365-379 | unlinking a block keeps the chain and the counters |
| FileTree.PathAbove | xar/filetree.c:854-866 | ascending by dirname undoes descending if and only if the name of the directory has no slash |
| FileTree.DownRemaining | xar/filetree.c:836-845 | what is to come, files and paths, when the first child is visited |
| FileTree.Along | xar/filetree.c:849-852 | what is to come, when the next file is visited |
| FileTree.Up | xar/filetree.c:854-871 | ascending by dirname changes nothing about what is to come |
| FileTree.Iter.First | xar/filetree.c:817-821 | the first file, with the rest of the walk to come; the path of an earlier walk is not cleared |
| FileTree.Iter.Next | xar/filetree.c:833-879 | the next file of the walk and the path it is reported with, or NULL exactly at the end; going up the path is never NULL; the ascending recursion ends |
| FileTree.Iter.Reusable | xar/filetree.c:817-879 | an iterator may begin another walk at any time |
| FileTree.WalkWith | xar/filetree.c:817-879 | a whole walk with an iterator that has a path already: the files and paths it reports, and the path it leaves |
| FileTree.Walk | xar/filetree.c:817-879 | the walk of a fresh iterator; when no file comes behind a directory with a slash in its name, the forest in preorder, each file with the names of its ancestors joined by "/" |
| FileTree.WalkIsPreorder | xar/filetree.c:833-879 | a walk reports each file with the path of its directory if and only if no file comes behind a directory with a slash in its name |
| FileTree.PathIsRestored | xar/filetree.c:833-879 | a walk leaves the path that it began with if and only if no directory has a slash in its name |
| FileTree.DepthAfter | xar/filetree.c:854-866 | each slash in the name of a directory is one that is not taken off the path again |
| FileTree.SlashMisleads | xar/filetree.c:854-866 | an archive with a directory "a/b" and a file beside it that is reported in "a" |
| FileTree.WalkedUnder | xar/filetree.c:817-879 | with an old path the same files are reported in the same order, each with its path behind the old one |
| FileTree.OldPathMatters | xar/filetree.c:817-821 | a walk begun with an old path reports what a fresh one does if and only if there is no old path or no file |
| FileTree.EachOnce | xar/filetree.c:833-879 | pointers that form a forest reach no file twice |
| FileTree.VisitsEachOnce | xar/filetree.c:833-879 | no file is visited twice, whatever path the walk begins with |
| TimeStr.TimeToTimestr | timestr.c:49-77 | the text of the days, hours, minutes and seconds that are not 0, or "0s"; it fits the buffer |
| TimeStr.TimestrToTime | timestr.c:12-47 | the sum of what stands in front of each unit, for text in either case; the default for no text |
| TimeStr.ReadPrinted | timestr.c:29-44 | strtol reads what printf printed, up to the unit, negative numbers included |
| TimeStr.CutPart | timestr.c:26-43 | cutting at a unit yields its number and the rest, also when the unit is not there |
| TimeStr.ReadText | timestr.c:12-77 | any text with any of its parts omitted reads as the sum of its parts |
| TimeStr.TextFits | timestr.c:51-69 | no text is longer than the static buffer |
| TimeStr.RoundTrip | timestr.c:12-77 | a time is read back from its text if and only if its number of days fits an int |
| TimeStr.TextSays | timestr.c:49-77 | the text of so many days, hours, minutes and seconds, each in its range and of one sign, says just that |
| TimeStr.AnyCase | timestr.c:18-24 | the case of the letters does not matter |
| TimeStr.NumberExamples | timestr.c:29-44 | decimal, hexadecimal and octal numbers, a sign and blanks in front, and what follows |
| TimeStr.TextExamples | timestr.c:49-77 | some texts |

## Left out

Where a contract is weaker than the code's whole behaviour:

- FuseTree.Fuse.ForgetNode: waiting on the condition variable is the result `waiting`, after which the caller tries again; the queue of waiting threads and their wake-ups are not modelled. Lookup counts are unbounded.
- FuseTree.Fuse.TryGetPath: only the locking form, with a ticket that is not 0; the two calls that build a path without locking (fuse/fuse.c:1729, 3781) are not. Tickets promise no progress.
- FuseTree.Fuse.TryGetPath2: no freedom from deadlock between the pairs of two requests, which the code does not have (the FIXME at fuse/fuse.c:704).
- FuseNode.Table.Add: `name_next` and `id_next` are a map from nodes to nodes in the table they belong to.
- RangeLocks.Inode.Insert: in which order different owners' locks are is not stated, and the locks of a node are a sequence, not `next` pointers.
- Interrupts.EveryInterruptExplained: safety only; that a waiting thread gets a lock in the end is not claimed. Requests are numbers that are not reused; that no freed one is touched is Interrupts.NoUseAfterDestroy. What a thread does after it has touched a destroyed request is modelled as if the memory were still there. A request is not replied to twice, and fuse_req_interrupt_func is not called after the reply.
- OptString.SplitInPlace: the options are collected and processed afterwards, not one by one while splitting.
- OptParse.Context.Parse: without option templates (`match_template`, `find_opt`, `process_opt`, sscanf), so every option goes to the caller's function; that function is pure, knows the argument and its key only, and adds no arguments itself; memory does not run out.
- Pending.Queues.CallPending: callbacks may stop watchers, but not feed or start them; with those the code promises no end. Priorities of waiting watchers do not change.
- Schedules.Schedule.Reify: times are real numbers without rounding; a reschedule callback is a pure function that returns no time in the past, as the code asserts.
- ArraySize.NextSize: sizes do not overflow an int.
- SelfPipe.NoLostWakeUp: one loop, sequentially consistent accesses, and watchers start and stop between callbacks.
- Balloc.Block.constructor: clearing of memory, munmap and the failing of the very first allocation are not modelled.
- FileTree.Iter.First: all files have a name; the names of those with children have no empty component (no slash at either end, none doubled), for which dirname takes off more; asprintf does not fail.
- PathBuffer.Enlarge: a need above 0xffffffff is not met, as its loop does not end then; the text that the caller of try_get_path asks for fits (`Fits`).
- TimeStr.TimestrToTime: strtol has no limits.

Parts of the repository that are not modelled:

- System calls and their wrappers (mount, sockets, fork, mmap, sqlite, libxml, zlib, OpenSSL, dlopen, logging): input and output, or foreign code.
- The `fuse_fs_*` and `fuse_lib_*` dispatchers, reply marshalling and compatibility layers: thin wrappers.
- The epoll, kqueue, port and select backends, stat watchers, fork handling and embedded loops: they rest on the kernel's behaviour.
- The binary heap of libev, compiled only without EV_USE_4HEAP.
- Idle, child, prepare, check and fork watchers, and the delivery of descriptor events: they use the same arrays and queues.
- `xar_prop_next`, which has the same shape as `xar_file_next`.
- `dictionary.c`, `conf.c`, `str.c`, `support.c`, `fuse/fuse_loop_mt.c`: easy next to the rest.
- `xar/b64.c`, `xar/io.c`, `xar/archive.c`, `pkg*.c`, `vfs*.c`: driven by libraries, or unfinished.
