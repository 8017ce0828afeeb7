# Verified models of four system programs

This project models the behaviour of four C programs and proves what they are meant to guarantee.

* **Hierarchical services** (`HierarchicalServiceManagementSystem/service.c`). A tree of processes,
  each of which knows only its own list of children, carries out `spawn`, `kill` and `exchange`.
  `Trees`, `TreeEdits`: the tree, what a spawn and a kill do to it, and what that means for its
  preorder. `ChildLists`, `Services`: the recursive child loops over per-process lists, and the linked
  list itself. `ExchangeCounts`: the child loops that pass the found-count of an exchange.
  `Exchange`: the whole exchange as a machine of four actors (the search, the first target, the second
  target, the Manager); opens of a FIFO block until they meet, an empty FIFO blocks its reader, and the
  last close drops unread bytes. `ExchangeInvariant`, `ExchangeSteps`, `ExchangeSearch`: the invariant
  and that every step keeps it. `ExchangeProgress`, `ExchangeTheorems`: a rank for the steps, and the
  main results. `ExchangeRoles`: which role the first target plays, and in which order secrets travel. `ExchangeSessions`, `ExchangeOverlap`, `ExchangeSessionRuns`, `ExchangeSessionEnds`: any
  number of exchanges one after the other, in which a target can lag behind into the next ones.
  `Text`: decimals, tokens, framing.
* **User-level threads** (`UserLevelThreadLibrary/scheduler.c`, `threadtools.h`, `threads.c`).
  `Scheduler`: the two 16-slot arrays and the lock, each scheduler entry proved against a function on
  values. `Threads`: threads as resumable programs over their control blocks, with a signal arriving
  or not at every yield. `ThreadInvariant`, `ThreadRuns`, `ThreadResults`, `ThreadBooks`: what holds in
  all runs, what each thread executes, and the books of the bank. `ThreadOrder`: the output, and its order
  in runs without signals. `ThreadDriver`: the same programs on control blocks, arrays and bank, proved to run as the machine does.
* **Thread pool** (`MultiThread/my_pool.c`). `Pool`: the critical sections on the heap, proved against
  functions on values. `PoolMachine`: all interleavings of workers and one controlling thread, with a
  sleeping set per condition variable and spurious wakeups.
* **Bulletin board** (`csieBulletinBoard/server.c`). `Board`: the scan for a free slot and the ring of
  ten posts. `PostMessage`: `removeSubstr` in place, the message format, and the record.

The step functions of the machines follow the source branch by branch: `Exchange.Receive`, `Deliver`,
`Ask`, `Answer` and `Return` are the child loops of `service.c` 1014-1040, 1443-1543, 1628-1734 and
1838-1871; `Exchange.StepFirst` and `StepSecond` are the rendezvous of 1044-1086, 1484-1502, 1554-1625
and 1674-1695; `Exchange.StepManager` is 1091-1120. `Scheduler.Enter` is `scheduler.c` 103-376.
`Threads.Next` and `Fetch` are `threads.c` 18-56, 64-85 and 104-149. `PoolMachine.StepWorker` and
`StepController` are `my_pool.c` 19-104, 131-155, 158-206 and 209-229.

A step of the exchange is one system call, or several of which the others can see only one:

* A service takes the command off its pipe, prints, creates its marker file and, as the second target,
  writes its reply in one step. Nobody else looks into that pipe, the reply waits for a parent that is
  blocked reading it, and the marker is all that the others poll; so the read can be put off, and the
  reply brought forward, to the moment the marker appears.
* The two `mkfifo` calls are part of the initial state: no other process knows of the command yet.
* A target closes and removes its marker, into which nothing is written, in one step, and converts and
  stores the secret it has read in one step: only its own memory is involved.
* In the thread machines a loop variable is incremented with the yield before it instead of on
  resumption; only the thread itself reads its control block. In the pool a job runs in the step that
  dequeues it, because the mutex is held throughout.

Seven points where the code does something a reader of its documentation might not expect are stated
exactly:

* A Manager that is itself a target can announce "have exchanged" before the other target has stored
  its new secret; a Manager that is not a target never does (`ExchangeTheorems.AnnouncementTrueIff`).
* A secret goes through `int`, so it survives exactly if its value fits (`Text.SecretSurvives`).
* The printed Fibonacci numbers and factorials fit an `int` exactly up to 46 and 12.
* A post arrives as it was sent exactly if author and content are non-empty, free of `+`, and
  "[SP]" occurs nowhere but, possibly, at the very beginning of the author: `removeSubstr` moves on
  one character after a removal (`PostMessage.PostRoundTrip`).
* `tpool_destroy` does not wait for queued jobs: none of them is executed any more
  (`PoolMachine.DestroyDropsQueue`).
* When a message arrives, the slot granted *last* is released, whichever client sent it. All messages of
  a history release their senders' slots exactly if between a client's grant and its message no other
  post is granted and, when the slot is the last one of the file, none is refused either: a refusal then
  forgets which slot was granted last (`Board.MessagesReleaseOwnIff`).
* A Manager that is a target can take the next command while the other target has still to store its
  secret (`ExchangeSessionRuns.ExchangesOverlap`). The left-over marker file can make a later first
  target open its FIFO early (`ExchangeSessionRuns.OpensEarly`); this does no harm (`SessionComposes`).

`dafny verify dfyconfig.toml` checks the whole project.

## Model

| member | source | states |
|---|---|---|
| `Text.AtoiIntToStr` | HierarchicalServiceManagementSystem/service.c:577-584 | A decimal written by `intTostr` is read back by `atoi` with its value, whatever non-digit byte follows it. |
| `Text.IntToStrPlaces` | HierarchicalServiceManagementSystem/service.c:577-584 | The decimal place by place: place k holds n / 10^k modulo ten, there are as many places as n needs, and a minus sign leads a negative number. |
| `Text.SecretSurvives` | HierarchicalServiceManagementSystem/service.c:1057-1064 | Of a 64-bit secret sent as the decimal of an `int` the low 32 bits arrive, sign-extended; it arrives unchanged if and only if it is below 2^31 or the sign extension of a negative `int`. |
| `Text.MessageOk` | HierarchicalServiceManagementSystem/service.c:1487-1500 | A secret from `rand()` is a non-empty message that fits the read buffer, and arrives unchanged. |
| `Text.CommandRoundTrip` | HierarchicalServiceManagementSystem/service.c:1187-1191 | Any rebuilt spawn, kill or exchange line is split into the command word and its fields in the order of the command line, and gives back the command and the count, with one blank or with the two blanks of the Manager's kill. |
| `Text.RenderedFits` | HierarchicalServiceManagementSystem/service.c:1007-1025 | A rebuilt line of valid names contains no NUL and leaves room for its terminator in 128 bytes. |
| `Text.Pipe.WriteMessage` | HierarchicalServiceManagementSystem/service.c:105-112 | Byte by byte, exactly the message and one terminator are appended to the pipe. |
| `Text.Pipe.ReadMessage` | HierarchicalServiceManagementSystem/service.c:136-161 | The read returns the bytes up to the first terminator, takes them and the terminator off the pipe, and stays inside its buffer. |
| `Text.NextMessage` | HierarchicalServiceManagementSystem/service.c:268-284 | On a stream of framed messages one read yields exactly the first message and leaves exactly the rest. |
| `Text.Transfer` | HierarchicalServiceManagementSystem/service.c:358-368 | Any list of NUL-free messages under 128 bytes, written one after the other, is read back message by message, in order. |
| `Text.ReadsWhatIsWritten` | HierarchicalServiceManagementSystem/service.c:136-161 | However byte-wise writes and waiting byte-wise reads are interleaved, what has been received is a prefix of the messages sent, the buffer never overflows, and when all bytes are read all messages have been received. |
| `TreeEdits.EditsCut` | HierarchicalServiceManagementSystem/service.c:1201-1412 | Each service cuts the preorder in three: what precedes it, its subtree, the rest. A spawn under it puts the new name right after its subtree, a kill takes its subtree out, and the rest keeps its order. |
| `TreeEdits.KillKeepsDistinct` | HierarchicalServiceManagementSystem/service.c:1274-1412 | A kill removes exactly the names of the target's subtree, as many as its size, and keeps names distinct. |
| `TreeEdits.SpawnKeepsDistinct` | HierarchicalServiceManagementSystem/service.c:1201-1271 | A spawn under a live parent adds exactly the child's name and keeps names distinct. |
| `TreeEdits.KillUndoesSpawn` | HierarchicalServiceManagementSystem/service.c:1274-1412 | Killing a service right after it was spawned gives back the tree, child order included. |
| `TreeEdits.PostorderCovers` | HierarchicalServiceManagementSystem/service.c:1316-1333 | Reaping children before their parent reaps every process of a subtree exactly once. |
| `TreeEdits.ReapedOrder` | HierarchicalServiceManagementSystem/service.c:1316-1333 | A service is reaped after everyone below it; of two services of which neither is below the other the one that comes first in preorder is reaped first. |
| `TreeEdits.UntilStops` | HierarchicalServiceManagementSystem/service.c:1236-1268 | A search that stops at a service has visited the services up to and including it, and all of them if it is missing. |
| `TreeEdits.GrowAt` | HierarchicalServiceManagementSystem/service.c:1210-1214 | The subtrees below the parent after a spawn are those before it followed by the new service, which has no children. |
| `ChildLists.ChildList.AddChild` | HierarchicalServiceManagementSystem/service.c:83-102 | The linked list gets one new last child, keeps all others, and stays a chain without cycles. |
| `ChildLists.ChildList.DeleteNode` | HierarchicalServiceManagementSystem/service.c:499-560 | Exactly the first child of that name is unlinked; order, acyclicity and the other links are kept; without such a child nothing changes. |
| `ChildLists.WithoutLoses` | HierarchicalServiceManagementSystem/service.c:499-560 | A list after `deleteNode` is the list with its first entry of that name cut out, or unchanged if there is none. |
| `ChildLists.AdoptGrows` | HierarchicalServiceManagementSystem/service.c:1201-1271 | A spawn appends the child to its parent's own list, gives it an empty list and touches no other; then the lists of all processes spell out the grown tree. |
| `ChildLists.GrowLists` | HierarchicalServiceManagementSystem/service.c:83-102 | The same for the tree: the parent has one more last child, the child has none, every other service has the children it had. |
| `ChildLists.DeleteShrinks` | HierarchicalServiceManagementSystem/service.c:1348-1366 | When a child has died with its subtree and its parent has run `deleteNode`, the remaining lists spell out the tree without that subtree. |
| `ChildLists.DeeperShrinks` | HierarchicalServiceManagementSystem/service.c:1348-1377 | When someone dies strictly below a child, the parent's own list is already right. |
| `ChildLists.RemoveLists` | HierarchicalServiceManagementSystem/service.c:1348-1366 | After a kill the lists of the dead are gone, the parent's list has lost the target's entry, and every other list is as it was. |
| `Services.Network.HandleSpawn` | HierarchicalServiceManagementSystem/service.c:1201-1271 | The reply is Y if and only if the parent lives in the subtree; then the child is appended to the parent's own list, gets an empty one, and no other list changes; the services that log the command are the preorder up to and including the parent, or all of it. |
| `Services.Network.KillChildren` | HierarchicalServiceManagementSystem/service.c:1316-1333 | All subtrees below are torn down, the replies sum to their sizes, and every process is waited for in postorder. |
| `Services.Network.HandleTeardown` | HierarchicalServiceManagementSystem/service.c:1382-1408 | Marked Y, or at the target, a service answers the size of its subtree, all of which is gone and, but for itself, reaped. |
| `Services.Network.HandleKill` | HierarchicalServiceManagementSystem/service.c:1274-1412 | The answer is the size of the target's subtree, 0 if and only if it is absent; the lists of the subtree are gone, the target is off its parent's list, and no other list changes; the whole subtree has been waited for; the services that log the command are the preorder up to and including the target, or all of it. |
| `Services.Network.Spawn` | HierarchicalServiceManagementSystem/service.c:783-874 | The child is appended to its live parent's own children, in the tree and in the lists, and nothing else changes; the services that log the command end with the parent; "doesn't exist" is reported if and only if the parent is not alive. |
| `Services.Network.Kill` | HierarchicalServiceManagementSystem/service.c:876-973 | The live tree becomes the tree without the target's subtree, with the target off its one list; the services that log the command end with the target; the reported number is the subtree's size minus one, for the Manager the number of all descendants; every victim but the Manager has been waited for before the report. |
| `Services.Network.Serve` | HierarchicalServiceManagementSystem/service.c:783-973 | Over any sequence of spawn and kill commands lists, tree and reports agree with the reference session. |
| `Services.SessionReports` | HierarchicalServiceManagementSystem/service.c:783-973 | The i-th report of a session is that of the i-th command on the tree that the commands before it have left. |
| `Services.ReportsBalance` | HierarchicalServiceManagementSystem/service.c:964-970 | Over any session the services there were and those reported spawned are as many as those left and those reported killed. |
| `ExchangeCounts.HeardAppend` | HierarchicalServiceManagementSystem/service.c:1838-1871 | A search over one part and then another stops in the first if that completes the pair, and goes on with the right count otherwise. |
| `ExchangeCounts.HeardCounts` | HierarchicalServiceManagementSystem/service.c:1838-1871 | Each service that receives the command receives the starting count plus the number of targets before it in preorder, which is below two. |
| `ExchangeCounts.HeardStops` | HierarchicalServiceManagementSystem/service.c:1476-1543 | The receivers are a prefix of the preorder that ends where the count reaches two; if it never does, everyone receives the command. |
| `ExchangeCounts.Searchers.HandleExchange` | HierarchicalServiceManagementSystem/service.c:1416-1878 | A subtree entered with count g below two answers min(2, g + number of targets in it), and its receivers and their counts are those of the reference visit, though a first target keeps its own count against smaller replies. |
| `ExchangeCounts.FoundIsTargets` | HierarchicalServiceManagementSystem/service.c:1014-1040 | The machine of module Exchange and the child loops count targets alike. |
| `ExchangeCounts.MachineHears` | HierarchicalServiceManagementSystem/service.c:1021-1040 | In every run of the machine the services that log the command, and the counts they get, are exactly those of the child loops. |
| `ExchangeSearch.NextVisit` | HierarchicalServiceManagementSystem/service.c:1021-1040 | A command on its way down goes to the next service in preorder, which has not received it. |
| `ExchangeSearch.SearchEnds` | HierarchicalServiceManagementSystem/service.c:1021-1040 | When the Manager's loop is over, both targets have been met and no service is waiting for a child. |
| `ExchangeSearch.TokenKeepsInv` | HierarchicalServiceManagementSystem/service.c:1838-1871 | Every step of the search keeps the invariant of the exchange: log, counts, markers, secrets and FIFO contents. |
| `ExchangeSteps.FirstTransfers` | HierarchicalServiceManagementSystem/service.c:1554-1575 | Every FIFO call of the first target, which reads and then writes, keeps the transfer invariant, also when both directions share one path. |
| `ExchangeSteps.SecondTransfers` | HierarchicalServiceManagementSystem/service.c:1484-1502 | Every FIFO call of the second target, which writes and then reads, keeps the transfer invariant. |
| `ExchangeSteps.FirstKeepsInv` | HierarchicalServiceManagementSystem/service.c:1547-1625 | Every step of the first target keeps the invariant, in all three roles: exchanging before it answers, waiting for the markers, and being the Manager. |
| `ExchangeSteps.SecondKeepsInv` | HierarchicalServiceManagementSystem/service.c:1669-1696 | Every step of the second target keeps the invariant. |
| `ExchangeSteps.ManagerKeepsInv` | HierarchicalServiceManagementSystem/service.c:1091-1120 | Every step of the Manager's watch and clean-up keeps the invariant. |
| `ExchangeTheorems.ReachableInv` | HierarchicalServiceManagementSystem/service.c:976-1123 | The invariant holds in every reachable state, for every tree, placement of two distinct targets and interleaving. |
| `ExchangeTheorems.ExchangeSwaps` | HierarchicalServiceManagementSystem/service.c:976-1123 | A finished exchange has swapped exactly the two secrets; no marker and no FIFO is left. |
| `ExchangeTheorems.NothingCrashes` | HierarchicalServiceManagementSystem/service.c:1044-1086 | In no run does a target write without a reader, read from an abandoned FIFO, or open one already removed. |
| `ExchangeTheorems.SearchLog` | HierarchicalServiceManagementSystem/service.c:1435-1435 | The services that log the command are the preorder prefix ending at the second target met, and each received the number of targets before it. |
| `ExchangeProgress.StepDescends` | HierarchicalServiceManagementSystem/service.c:1416-1878 | Every step lowers the rank or is a poll or a wait that changes nothing else. |
| `ExchangeProgress.TransferProgress` | HierarchicalServiceManagementSystem/service.c:1484-1502 | Of two targets in mid-transfer one can always make its next FIFO call return. |
| `ExchangeProgress.SomeoneAdvances` | HierarchicalServiceManagementSystem/service.c:1416-1878 | Deadlock freedom: in every reachable unfinished state some actor's next call gets on. |
| `ExchangeTheorems.ExchangeFinishes` | HierarchicalServiceManagementSystem/service.c:976-1123 | Every fair schedule finishes, within 4 * services + 48 rounds, with the secrets swapped. |
| `ExchangeTheorems.AnnouncedMeansStored` | HierarchicalServiceManagementSystem/service.c:1091-1120 | A Manager that is no target leaves its wait only in states where both targets have stored the other's secret. |
| `ExchangeTheorems.AnnouncementTrueIff` | HierarchicalServiceManagementSystem/service.c:1044-1120 | The announcement is true in all runs if and only if the Manager is not a target. |
| `ExchangeRoles.FirstTargetsRole` | HierarchicalServiceManagementSystem/service.c:1044-1625 | In every run a Manager that is a target exchanges after its search; any other first target keeps its parent waiting until it has stored the other's secret if the second target is below it, and else answers its parent first and polls for both markers. |
| `ExchangeRoles.SecondSecretGoesFirst` | HierarchicalServiceManagementSystem/service.c:1484-1575 | In every run what is in the FIFO x_to_y is the secret of x; the first target's is written only after it has read the second target's. |
| `ExchangeRoles.FilesMean` | HierarchicalServiceManagementSystem/service.c:1091-1120 | In every run the marker files are those of the targets that have received the command and are not done, the Manager excepted; both FIFOs are there until the Manager closes, and are gone before it announces the exchange. |
| `ExchangeOverlap.ActorSimulates` | HierarchicalServiceManagementSystem/service.c:1416-1878 | In a session each step of the current exchange is steps of the same exchange without laggards, or invisible there; a first target that was ahead of the search is overtaken when the second is met. |
| `ExchangeOverlap.LagKeepsVeil` | HierarchicalServiceManagementSystem/service.c:1669-1696 | No step of a laggard can be seen in the current exchange. |
| `ExchangeSessionRuns.NextIsInit` | HierarchicalServiceManagementSystem/service.c:690-1123 | Seen without laggards, the next exchange begins in the initial state, with the secrets already swapped. |
| `ExchangeSessionRuns.SessionComposes` | HierarchicalServiceManagementSystem/service.c:690-1123 | At the end of any list of exchanges, however they overlap, all have been carried out in order, the secrets are those of the swaps composed in this order, and no file is left. |
| `ExchangeSessionRuns.ComposedFirst` | HierarchicalServiceManagementSystem/service.c:690-1123 | Composing swaps means carrying out the first one and then the others. |
| `ExchangeSessionRuns.LaggardsKeepMarkers` | HierarchicalServiceManagementSystem/service.c:1669-1696 | In every session whoever has still to store a secret of an earlier exchange has its marker file, and has not received the current command. |
| `ExchangeSessionRuns.ExchangesOverlap` | HierarchicalServiceManagementSystem/service.c:1044-1120 | Whenever the Manager is a target of the first of several exchanges, some schedule begins the next one while the other target has still to store its secret. |
| `ExchangeSessionRuns.OpensEarly` | HierarchicalServiceManagementSystem/service.c:1589-1602 | A first target can take the marker left over from an earlier exchange for the new one, and open its FIFO when the second target has not received the command. |
| `ExchangeSessionEnds.SomeoneMoves` | HierarchicalServiceManagementSystem/service.c:690-1123 | Deadlock freedom of sessions: until all is over somebody can move. |
| `ExchangeSessionEnds.SessionEnds` | HierarchicalServiceManagementSystem/service.c:690-1123 | Every fair schedule ends a session, within commands * (4 * services + 54) rounds, with the composed secrets. |
| `Scheduler.ThreadTable.Setup` | UserLevelThreadLibrary/threadtools.h:78-105 | A new thread with its id and argument is appended to the ready queue. |
| `Scheduler.ThreadTable.Unlock` | UserLevelThreadLibrary/threadtools.h:187-201 | Only the owner frees the lock. |
| `Scheduler.ThreadTable.WakeFirstWaiter` | UserLevelThreadLibrary/scheduler.c:115-132 | The first waiter becomes the last ready thread and owns the lock, the other waiters move up in order, and no index leaves the arrays. |
| `Scheduler.ThreadTable.FillHole` | UserLevelThreadLibrary/scheduler.c:148-160 | The running thread leaves and the last ready thread takes its slot. |
| `Scheduler.ThreadTable.RemoveCurrent` | UserLevelThreadLibrary/scheduler.c:231-258 | As above, or, from the last slot, the first thread runs next. |
| `Scheduler.ThreadTable.SuspendRunning` | UserLevelThreadLibrary/scheduler.c:260-286 | The running thread becomes the last waiter. |
| `Scheduler.ThreadTable.ScheduleHandover` | UserLevelThreadLibrary/scheduler.c:107-201 | With waiters and a free lock the first waiter gets the lock; on an exit or a lock it takes the leaving thread's slot and runs next; on a yield it becomes the last ready thread and the next slot runs. |
| `Scheduler.ThreadTable.ScheduleHeld` | UserLevelThreadLibrary/scheduler.c:204-302 | With waiters and a held lock a leaving thread's slot goes to the last ready thread, which runs next, or, from the last slot, the first one runs; on a yield the next slot runs. |
| `Scheduler.ThreadTable.ScheduleNoWaiters` | UserLevelThreadLibrary/scheduler.c:304-376 | The same without waiters; a lock that is free is taken and the thread goes on. |
| `Scheduler.ThreadTable.Start` | UserLevelThreadLibrary/scheduler.c:95-101 | Called from main, the scheduler dispatches the thread set up first. |
| `Scheduler.ThreadTable.Schedule` | UserLevelThreadLibrary/scheduler.c:86-389 | Used slots stay filled and unused ones empty, queues and lock change as specified, and the dispatched control block is the one in the running slot. |
| `Scheduler.WhoRunsNext` | UserLevelThreadLibrary/scheduler.c:103-376 | For every state of the queues and every entry: who runs next, the order of the ready and of the waiting threads, and the owner of the lock. |
| `Threads.FibonacciIteration` | UserLevelThreadLibrary/threads.c:24-37 | Iteration i on a control block that holds the numbers before it prints Fib(i) and leaves what iteration i + 1 needs. |
| `Threads.FactorialIteration` | UserLevelThreadLibrary/threads.c:68-74 | Iteration i on a control block that holds (i - 1)! prints i!, keeps it, and changes nothing else. |
| `Threads.BankUpdate` | UserLevelThreadLibrary/threads.c:113-137 | The balance changes by the amount if it is a deposit or covered, and not at all otherwise; the two printed amounts are those before and after. |
| `Threads.SignalDecides` | UserLevelThreadLibrary/threadtools.h:134-154 | At a yield without a signal the running thread goes on; with one the next thread runs. |
| `Threads.OnlyCallsSwitch` | UserLevelThreadLibrary/threadtools.h:149-152 | Without a signal only an exit, or a lock that is not free, changes the running thread or the queues. |
| `ThreadOrder.OutputByThread` | UserLevelThreadLibrary/threads.c:18-56 | In every run what a thread has printed is its part of the output, in order. |
| `ThreadOrder.RunsToItsExit` | UserLevelThreadLibrary/threadtools.h:149-152 | Without signals the running thread runs to its exit, and the output until then is its own. |
| `ThreadOrder.OneAfterAnother` | UserLevelThreadLibrary/scheduler.c:304-389 | Without signals the output is that of one thread after the other: the first one created, then the others from the last one created backwards. |
| `ThreadBooks.Programs` | UserLevelThreadLibrary/threads.c:18-149 | The instructions of every thread from its creation to its exit: n iterations with a yield after each but the last; lock, update and unlock with a yield before and after the update. |
| `ThreadBooks.BankBooks` | UserLevelThreadLibrary/threads.c:89-151 | At the end of every run, with the bank threads in the order of their lock() calls: the opening balance is 500, each amount is added unless the balance would become negative, the last balance is the bank's, and each thread has printed that it had the lock, the balance before and after its own transaction, and that it released the lock. |
| `ThreadInvariant.EnterFacts` | UserLevelThreadLibrary/scheduler.c:103-376 | No entry loses or doubles a thread: exactly the leaving thread leaves, exactly the woken one becomes ready and owns the lock, and the running slot stays valid. |
| `ThreadRuns.QueuesAreSound` | UserLevelThreadLibrary/scheduler.c:86-389 | In every run the queues hold exactly the threads that have not exited, without duplicates and within 16 slots; the scheduler dispatches a live thread or returns to main, and returns only when all have exited. |
| `ThreadRuns.NeverEmptySlot` | UserLevelThreadLibrary/scheduler.c:382-389 | Until all threads have exited the running slot holds a thread that can go on. |
| `ThreadRuns.MutualExclusion` | UserLevelThreadLibrary/threads.c:104-146 | A ready thread is between lock() and unlock() if and only if it is the one the lock names; so at most one is. |
| `ThreadRuns.LockIsFirstComeFirstServed` | UserLevelThreadLibrary/threadtools.h:163-182 | In every run the calls of lock() are the grants so far followed by the waiting queue, in order. |
| `ThreadRuns.AllThreadsExit` | UserLevelThreadLibrary/scheduler.c:86-389 | Under every signal schedule all threads exit after as many steps as they have instructions in total. |
| `ThreadResults.OutputIsIndependent` | UserLevelThreadLibrary/threads.c:7-86 | In every interleaving a Fibonacci thread prints exactly Fib(1) to Fib(n) and a factorial thread exactly 1! to n!. |
| `ThreadResults.FibFitsIff` | UserLevelThreadLibrary/threads.c:37-37 | The printed Fibonacci numbers fit a 32-bit int if and only if n is at most 46. |
| `ThreadResults.FactFitsIff` | UserLevelThreadLibrary/threads.c:74-74 | The printed factorials fit a 32-bit int if and only if n is at most 12. |
| `ThreadResults.BankIsSerializable` | UserLevelThreadLibrary/threads.c:89-151 | The final balance is the result of every bank thread's transaction, once each, in the order of the lock() calls, starting from 500. |
| `ThreadResults.NeverOverdrawn` | UserLevelThreadLibrary/threads.c:129-136 | The balance is not negative at any point of any run. |
| `ThreadResults.NobodyFallsBack` | UserLevelThreadLibrary/scheduler.c:148-200 | No entry moves a ready thread away from the running slot, and a yield that wakes nobody brings it one closer. |
| `ThreadResults.BypassIsBounded` | UserLevelThreadLibrary/scheduler.c:371-374 | A ready thread is passed over by fewer such yields than its distance from the running thread. |
| `ThreadDriver.Process.Step` | UserLevelThreadLibrary/threads.c:7-151 | One instruction on control block, arrays and bank is one step of the machine, with every slot index in range; a yield without a signal leaves queues and running slot alone. |
| `ThreadDriver.Process.Run` | UserLevelThreadLibrary/scheduler.c:86-389 | Any number of them, under any signals, is a run of the machine, which keeps its invariant. |
| `ThreadDriver.InitThreads` | UserLevelThreadLibrary/main.c:54-77 | Creating up to 16 threads with distinct ids gives the machine's initial state. |
| `ThreadDriver.RunThreads` | UserLevelThreadLibrary/main.c:69-94 | The whole program is a run of the machine from there: no reachable state of the arrays breaks the bounds that the scheduler relies on. |
| `Pool.ThreadPool.constructor` | MultiThread/my_pool.c:255-283 | The new pool is empty, with all workers counted. |
| `Pool.ThreadPool.TakeTurn` | MultiThread/my_pool.c:23-58 | After shutdown a worker leaves, whatever is queued; else it sleeps if nothing is queued and takes the first job otherwise; the linked list loses exactly its head and stays well formed with its tail last. |
| `Pool.ThreadPool.Finish` | MultiThread/my_pool.c:62-97 | The job is no longer in flight, and Bcond is signalled exactly when nothing is queued or in flight. |
| `Pool.ThreadPool.Add` | MultiThread/my_pool.c:131-155 | The job becomes the last node of the list. |
| `Pool.ThreadPool.MustWait` | MultiThread/my_pool.c:167-197 | The caller waits exactly while something is queued or in flight. |
| `Pool.ThreadPool.BeginShutdown` | MultiThread/my_pool.c:209-214 | Shutdown is set and the queue is left alone. |
| `PoolMachine.JobsRunInOrder` | MultiThread/my_pool.c:36-54 | In every interleaving the added jobs are the executed ones followed by the queue: each runs once, in order. |
| `PoolMachine.NoLostWakeup` | MultiThread/my_pool.c:19-104 | In every reachable state `jc` and `tc` count what they should; a worker asleep means no job and no shutdown, a waiting caller asleep means work left, a destroying caller asleep means workers left. |
| `PoolMachine.WaitReturns` | MultiThread/my_pool.c:158-206 | `tpool_wait` returns only when every added job has been executed and freed. |
| `PoolMachine.DestroyDropsQueue` | MultiThread/my_pool.c:28-31 | From the call of `tpool_destroy` on no job is executed any more, and what is queued then stays queued. |
| `PoolMachine.WhoIsWoken` | MultiThread/my_pool.c:62-104 | A worker wakes the caller of `tpool_wait` if and only if nothing is queued or in flight any more, the caller of `tpool_destroy` if and only if it leaves, and no other worker. |
| `PoolMachine.DestroyedIsFinal` | MultiThread/my_pool.c:209-249 | Once `wait2` has returned, every worker is past its last access to the pool and no step changes anything. |
| `PoolMachine.AbleAdvances` | MultiThread/my_pool.c:19-104 | A step that can get work done lowers the work left; any other leaves it unchanged. |
| `PoolMachine.SomeoneAble` | MultiThread/my_pool.c:19-229 | No deadlock: until the caller's calls have returned some thread can get work done without a spurious wakeup. |
| `PoolMachine.CallsReturn` | MultiThread/my_pool.c:158-249 | Under every fair schedule, with any spurious wakeups, all calls return within 3 * calls + workers rounds. |
| `PostMessage.RemoveMarks` | csieBulletinBoard/server.c:622-632 | In place, and with the left-over bytes behind the string in view, the buffer ends up holding the specified string; no index leaves it. |
| `PostMessage.CutFields` | csieBulletinBoard/server.c:344-361 | The first field is the author, the last of the others the content; a missing one keeps the previous message's. |
| `PostMessage.PostRoundTrip` | csieBulletinBoard/client.c:112-119 | A post arrives as it was sent, whatever the buffers held, if and only if it is clean. |
| `PostMessage.EndMarkLost` | csieBulletinBoard/server.c:622-632 | A "[SP]" at the end of an otherwise clean content is always lost: the post arrives without it, whatever the buffers held. |
| `PostMessage.SeparatedMarksGo` | csieBulletinBoard/server.c:622-632 | Marks that are not next to each other are all removed, and nothing else is. |
| `PostMessage.SecondMarkStays` | csieBulletinBoard/server.c:622-632 | Of two marks next to each other the second one stays. |
| `PostMessage.ContentMarkLost` | csieBulletinBoard/server.c:622-632 | For instance "see[SP]" arrives as "see". |
| `PostMessage.RecordKeeps` | csieBulletinBoard/server.c:362-371 | With nothing written behind the 25-byte record, it gives back its post if and only if the author fits its field or what spills over equals the content. |
| `Board.EverySlotOnce` | csieBulletinBoard/server.c:409-480 | The two loops come by every slot, and by none twice. |
| `Board.ScanFirst` | csieBulletinBoard/server.c:409-480 | The granted slot is free and every slot before it in the scan is not; the count of free slots is zero exactly if none is granted. |
| `Board.GrantedIffFree` | csieBulletinBoard/server.c:484-493 | A slot is granted if and only if one is free. |
| `Board.GrantsNextFree` | csieBulletinBoard/server.c:409-480 | The slot granted is free, and no slot between the one granted last and it, going round, is; none is granted if and only if none is free. |
| `Board.LockableAll` | csieBulletinBoard/server.c:409-480 | The record locks the scan takes, and keeps, are all that no other server holds. |
| `Board.Server.HandlePost` | csieBulletinBoard/server.c:390-493 | The first free slot cyclically after `last` is locked, remembered for the client and answered with "1"; "0" is answered, and no slot touched, if and only if none is free; every record lock that no other server holds is held afterwards. |
| `Board.Server.HandleMessage` | csieBulletinBoard/server.c:339-382 | The parsed message is written to the slot granted to the connection, whose record lock is given back, and the slot granted last is released: for a locked slot that is the sender's own if and only if it was granted last. |
| `Board.MessagesReleaseOwnIff` | csieBulletinBoard/server.c:382-382 | In any history of posts and messages every message releases its sender's slot and no other if and only if none is disturbed: between grant and message no other post is granted and, if the slot is the last one of the file, none refused. |
| `Board.FromTheStart` | csieBulletinBoard/server.c:382-382 | The same for all histories from a server that has granted nothing. |
| `Board.OverlapMisses` | csieBulletinBoard/server.c:382-382 | A history that fails: two posts under way. |
| `Board.RefusalMisses` | csieBulletinBoard/server.c:397-401 | Another: one post holding the last slot of the file, and one refused. |
| `Board.Server.PostAll` | csieBulletinBoard/server.c:339-493 | Over any serial history of sendable posts, whatever the stack holds at each of them, the board shows the ring of posts, and all slots are free again. |
| `Board.KeepsNewestTen` | csieBulletinBoard/server.c:339-493 | Read from the slot to be overwritten next, the board is the last ten of its former entries followed by all posts. |

## Left out

- Creating processes: fork, exec, pipes and descriptors. A spawned service appears with an empty list and its first message Y.
- Malformed commands, duplicate service names and exchanges with an absent target.
- The linked list of each process is a value in `Services`; the operations on links are proved for one list in `ChildLists.ChildList`. The counter `childrenNum` is never read and not modelled.
- The Manager's kill loop and a service's test reply and name in opposite order; they are modelled by one loop, since a child of the target's name never replies 0.
- Text.Pipe.ReadMessage: takes a pipe without a terminator for closed; a reader that waits for more bytes is modelled in `Text.ReadsWhatIsWritten`.
- Services.Network.Serve: sessions of spawn and kill only. An exchange changes no list (`ExchangeCounts.Searchers.HandleExchange`), but spawns and kills while a laggard of an exchange is still at work are not modelled.
- Services.Network.Kill: does not model the replies of the Manager after it has killed itself, since it exits.
- ExchangeTheorems.ExchangeFinishes: assumes fair rounds, in which every actor gets a turn; fairness of the operating system is not proved.
- PoolMachine.CallsReturn: assumes fair rounds and one controlling thread; several simultaneous callers of `tpool_wait` are outside, because Bcond is signalled and not broadcast.
- Pool jobs run with the mutex held, so a job must not call the pool; what jobs do is not modelled.
- The capacity of pipes and FIFOs, and errors of system calls other than those named.
- Stack effects of setjmp and longjmp, and the freeing of control blocks. A thread is a program counter and its control block.
- Clocks, alarms and signal masks: at every yield a signal is pending or not; which of the two it is makes no difference to the scheduler.
- A thread with id -1, which is the value of a free lock; `main.c` uses the ids 0 to 3.
- Wrap-around of the C `int` in balances and counters. Where outputs stop fitting is stated by `ThreadResults.FibFitsIff` and `ThreadResults.FactFitsIff`.
- Sockets, select and the interplay of several servers. Other servers' record locks are an input of `Board.Server.HandlePost`.
- `removeSubstr` joins overlapping strings with `strcat`, which C leaves undefined; the model takes it as the forward copy it is in practice.
- Board.Server.HandleMessage: requires that the message fits the record, that the connection has been granted a slot, and that a slot granted last is remembered; otherwise the source writes outside the record, at an uninitialised offset, or outside `mylock`, which the model does not follow.
- What a `pull` prints, the wording of messages, and the Collatz benchmark of the pool.
