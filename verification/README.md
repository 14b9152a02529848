# Verification of the bakery servers, the directory walkers and the fortune file

This project models four programs of the repository in Dafny and proves what they are for.

**The threaded bakery server** (`3/proc/bakery1/bakery_server.c`). `BakeryMachine` is a machine over any
number of slots in which every step is one access to shared memory: the doorway of `GET_NUMBER` with its two
separate reads of `number[i]`, the waiting loop with its separate reads of `choosing[j]` and `number[j]`, the
split `c++`, and the join of `BAKERY_SERVICE`. A schedule is any list of actions; an action that cannot happen
changes nothing. `BakeryInvariant` proves mutual exclusion for doorways and threads that overlap in any way.
`BakeryOrder` proves first come first served, the bound on tickets, and that letters come out one after the
other without loss or repetition. `BakeryTickets` says which ticket a doorway writes and who goes first among
equal ones. `BakerySerial` adds the single dispatcher, under which the server refines two counters and slot i
is always answered `'a' + i mod 26`. `BakeryProgress` proves that doorways wait for nobody, that the least
ticket is never blocked, that fair schedules serve everybody whose elders were started, and exactly when a
join hangs. `BakeryLiveness` proves lockout freedom without the dispatcher: while new customers keep arriving,
enough fair rounds serve every slot that was issued. `ThreadedServer` updates the global arrays in place; the
loops of the handler and of the thread are cut into one access per call, dispatched on `pc`, so that calls of
different slots interleave, and each call is proved to be one step of the machine. In `number[j] < number[i]`
the thread's own entry is read together with the other one: only slot i itself ever writes `number[i]`
(`BakeryInvariant.ElsewhereSame`), so no schedule can tell the difference.

**The single-threaded bakery server** (`3/proc/bakery2/bakery_server.c`). `MonoServer` has the globals and
the two handlers with their loops, the clock being a parameter; `MonoBakery` says what holds over every
sequence of calls, and `Server.Perform` carries it to the arrays. `ServersAgree` compares the replies of the two servers.

**The directory walkers** (`1/catalog/main.c`). `FileTree` models trees, positions and the resolution of
pathnames with `/`, `.` and `..`. `PathWalker` is `dopath` with its one growable character buffer, edited in
place through the recursion; what it visits depends on what is spelled in the buffer. `ChdirWalker` is
`mydopath`, which moves the current directory and looks bare names up there. `WalkSpec` is the specification
both meet: the preorder cut after the first nonzero result of the handler. A handler is any function of all
visits so far (a node is identified by its position, as by its inode), or the counting handler of the
program. `WalkTheorems` proves that the walks agree, what the preorder contains and what the counters say.

**The fortune file** (`6/fortunka/fortune.c`). `FortunePot` has the byte buffers and the two indices;
`FortuneSpec` is the list of messages with a rotating cursor that they represent, with the laws of reading
and writing. A write with NUL bytes inside is covered: it adds several messages. The guard is the one of the
code, which lets in one byte more than is left; a write that stores outside the pot ends a run in `Outside`,
and `FortuneFile.Perform` shows that any sequence of reads and writes on the bytes goes as the abstract run.

`dafny verify dfyconfig.toml` checks the whole project.

Four properties that one might expect do not hold of the code; each is stated with its exact condition and
with a run that breaks it:

- A join inside the dispatcher can hang for good: exactly when a lower slot was issued and never started
  (`BakeryProgress.JoinHangsExactly`). With two slots or more this happens (`BakeryProgress.HangIsReachable`).
- `mydopath` does not always come back to the directory it started in. From any pathname and with any handler
  it does exactly if it entered no directory, or the pathname, spelled out, names an entry of the current
  directory (`ChdirWalker.ReturnsExactly`): not from `a/b`, and from `.` only in the root
  (`ChdirWalker.WalkEndsElsewhere`, `ChdirWalker.DotsNameEntry`).
- The pot can overflow. A sequence of reads and writes stays inside it exactly if no write, at its turn, is one
  byte longer than what is left, or is empty and the first (`FortuneSpec.StaysInsideExactly`); filling the pot
  and writing one more byte leaves it (`FortuneSpec.TwoWritesEscape`).
- What is written does not always come back byte for byte. Of all that can be written into the empty pot, a
  read returns the same bytes exactly if they were one piece that ended in a newline and left a byte free, or
  that filled the pot and ended in NUL (`FortuneSpec.ComesBackExactly`); any other single byte comes back as a
  newline (`FortuneSpec.ByteIsLost`).

## Model

| member | source | states |
|---|---|---|
| BakeryMachine.Access | 3/proc/bakery1/bakery_server.c:21-55 | one shared access of a slot keeps the shape of the state: every loop index stays below the number of slots |
| BakeryMachine.Next | 3/proc/bakery1/bakery_server.c:21-96 | the same for every action of clients, handlers and threads |
| BakeryInvariant.ElsewhereSame | 3/proc/bakery1/bakery_server.c:26-53 | a step of one slot changes neither the control nor the shared entries of another |
| BakeryInvariant.BehindIsLess | 3/proc/bakery1/bakery_server.c:47 | among set tickets, being passed in the waiting loop means having the larger (number, slot) |
| BakeryInvariant.CriticalIsLeast | 3/proc/bakery1/bakery_server.c:44-53 | a thread in its critical section holds the least set ticket |
| BakeryInvariant.MutualExclusion | 3/proc/bakery1/bakery_server.c:44-53 | in a state that meets the invariant no two slots are in the critical section |
| BakeryInvariant.ScanStep | 3/proc/bakery1/bakery_server.c:27-29 | every step keeps: the maximum found so far covers the scanned slots that had a ticket when the scan began |
| BakeryInvariant.RereadStep | 3/proc/bakery1/bakery_server.c:28-29 | every step keeps: when the tested ticket vanishes before the second read, no smaller ticket from before the scan is left |
| BakeryInvariant.OrderStep | 3/proc/bakery1/bakery_server.c:30 | every step keeps: a ticket is larger than all unserved tickets that were set before its doorway rose |
| BakeryInvariant.WaitStep | 3/proc/bakery1/bakery_server.c:44-48 | every step keeps: a slot that was passed in the waiting loop stays behind |
| BakeryInvariant.BehindStays | 3/proc/bakery1/bakery_server.c:26-53 | whatever slot j does, it stays behind a waiting slot that it was behind, and its ticket does not change while it is set |
| BakeryInvariant.StepInv | 3/proc/bakery1/bakery_server.c:21-96 | every action keeps the whole invariant |
| BakeryInvariant.RunInv | 3/proc/bakery1/bakery_server.c:21-96 | every schedule keeps the whole invariant |
| BakeryInvariant.MutualExclusionAlways | 3/proc/bakery1/bakery_server.c:25-53 | for any number of slots and any schedule, with overlapping doorways, two threads are never both between taking a letter and clearing their ticket |
| BakeryOrder.LaterTicketIsLarger | 3/proc/bakery1/bakery_server.c:26-30 | in every run, a doorway that rises after slot k had its ticket writes a larger ticket than k's while k is unserved |
| BakeryOrder.FirstComeFirstServed | 3/proc/bakery1/bakery_server.c:26-48 | in every run, if slot k has written its ticket before slot i raises `choosing`, thread i enters only after k was served |
| BakeryOrder.TicketBound | 3/proc/bakery1/bakery_server.c:25-30 | a ticket value t means that t different slots wrote tickets, so it is at most the number of slots handed out |
| BakeryOrder.HoldersCount | 3/proc/bakery1/bakery_server.c:27-30 | if the values 1 to t were all written, at least t slots wrote them |
| BakeryOrder.TakenStays | 3/proc/bakery1/bakery_server.c:30 | a ticket value once written stays written by its slot |
| BakeryOrder.NumbersStaySmall | 3/proc/bakery1/bakery_server.c:25-36 | in every run no number exceeds the count of slots handed out, and a client was told the number its slot holds |
| BakeryOrder.AloneAtTake | 3/proc/bakery1/bakery_server.c:49-51 | a thread about to take a letter finds in `c` the letter of the next customer |
| BakeryOrder.LetterStep | 3/proc/bakery1/bakery_server.c:49-53 | every step keeps: the k-th slot to take a letter has the k-th letter, and the halfway states of `c` |
| BakeryOrder.RestStep | 3/proc/bakery1/bakery_server.c:49-51 | whenever nobody is halfway through `c++` and its wrap, `c` is the letter of the next customer |
| BakeryOrder.LettersInOrder | 3/proc/bakery1/bakery_server.c:49-53 | in every run an answered slot took its letter exactly once, as k-th customer, and was sent the k-th letter, counted modulo 26 in the alphabet |
| BakeryTickets.CriticalGoesFirst | 3/proc/bakery1/bakery_server.c:44-53 | in every run a thread in its critical section has the smaller number than any other slot with a ticket, or the same number and the lower slot |
| BakeryTickets.TicketFollowsHeld | 3/proc/bakery1/bakery_server.c:26-30 | however doorways overlap, a ticket is 1 or one more than a ticket that another slot held at some time since the doorway began |
| BakeryTickets.FreshTicketIsOne | 3/proc/bakery1/bakery_server.c:26-30 | with the dispatcher, a doorway that begins when nobody holds a ticket writes ticket 1 |
| BakeryTickets.ClearedTicketResets | 3/proc/bakery1/bakery_server.c:28-30 | when the ticket found in the last slot is cleared before the second read, the doorway writes ticket 1, however large its maximum was |
| BakerySerial.NumbersIncrease | 3/proc/bakery1/bakery_server.c:25-30 | with the dispatcher, unserved numbers strictly increase with the slot and stay at most slot + 1 |
| BakerySerial.CriticalAfterLower | 3/proc/bakery1/bakery_server.c:44-48 | with the dispatcher, a slot passes its last check only after all lower slots were served |
| BakerySerial.TakerIsNext | 3/proc/bakery1/bakery_server.c:49 | with the dispatcher, the slot that takes a letter is the next in order |
| BakerySerial.SerialStep | 3/proc/bakery1/bakery_svc.c:65-103 | every step behind the single dispatcher keeps the ordering invariant |
| BakerySerial.StepRefines | 3/proc/bakery1/bakery_server.c:25-95 | each step of the server is one step of two counters (issued, served) or changes neither |
| BakerySerial.SerialRefinesCounters | 3/proc/bakery1/bakery_server.c:25-95 | every run refines the two counters, the served slots are a prefix, and slot i is always answered 'a' + i mod 26 |
| BakerySerial.SerialNumbers | 3/proc/bakery1/bakery_server.c:25-30 | in every run with the dispatcher, set numbers increase with the slot and are at most slot + 1 |
| BakeryProgress.DoorwayFinishes | 3/proc/bakery1/bakery_server.c:25-36 | a doorway returns after at most 2n + 5 of its own steps, whatever all others do |
| BakeryProgress.LeastOwnStep | 3/proc/bakery1/bakery_server.c:44-53 | with no doorway open, every step of the least started ticket brings it closer to the end: it is never blocked |
| BakeryProgress.LeastStep | 3/proc/bakery1/bakery_server.c:44-53 | no step of another thread sets the least ticket back |
| BakeryProgress.LeastFinishes | 3/proc/bakery1/bakery_server.c:44-53 | the least started ticket is served after at most 4n + 5 steps of its own thread, whatever the other threads do |
| BakeryProgress.RoundServesOne | 3/proc/bakery1/bakery_server.c:44-53 | one fair round leaves slot i served or with fewer elders |
| BakeryProgress.FairRoundsServe | 3/proc/bakery1/bakery_server.c:44-53 | as many fair rounds as slot i has elders serve it, if these were started |
| BakeryProgress.HangsForever | 3/proc/bakery1/bakery_server.c:69-88 | while a join on slot i waits and a lower slot has no thread, the join waits on and slot i is not served, under every schedule |
| BakeryProgress.JoinReturns | 3/proc/bakery1/bakery_server.c:88-95 | once the joined thread has ended, the join answers the letter of its slot |
| BakeryProgress.JoinCompletes | 3/proc/bakery1/bakery_server.c:88-95 | a join on slot i whose lower slots were started can return after any i + 1 fair rounds, and then answers letter i |
| BakeryProgress.CompletingSchedule | 3/proc/bakery1/bakery_server.c:88-95 | and there is such a schedule, at whose end the client has letter i |
| BakeryProgress.JoinHangsExactly | 3/proc/bakery1/bakery_server.c:69-88 | after any past, a waiting join is never answered under any schedule if and only if a lower slot was issued and not started |
| BakeryProgress.HangIsReachable | 3/proc/bakery1/bakery_server.c:69-88 | for every slot but the first there is a past after which its join waits and is never answered under any schedule |
| BakeryLiveness.RivalStep | 3/proc/bakery1/bakery_server.c:26-53 | no step gives a slot with a ticket a new rival, one that may still go before it |
| BakeryLiveness.RoundCloses | 3/proc/bakery1/bakery_server.c:26-36 | a full round ends every doorway that was open and starts every thread whose doorway was over |
| BakeryLiveness.PassRun | 3/proc/bakery1/bakery_server.c:46-47 | without rivals, a thread passes a slot that stays out of its doorway within five of its own steps |
| BakeryLiveness.NoRivalsServed | 3/proc/bakery1/bakery_server.c:44-53 | a started slot without rivals is served within 3n + 1 full rounds, while new doorways keep opening |
| BakeryLiveness.LeastRivalIsFree | 3/proc/bakery1/bakery_server.c:44-48 | one full round later the least rival has no rivals itself |
| BakeryLiveness.RivalsShrink | 3/proc/bakery1/bakery_server.c:26-53 | no schedule adds rivals to a slot, and the remaining ones keep their smaller tickets |
| BakeryLiveness.TicketServed | 3/proc/bakery1/bakery_server.c:44-53 | a slot with k rivals is served within (k + 1)(3n + 2) full rounds |
| BakeryLiveness.EveryIssuedSlotIsServed | 3/proc/bakery1/bakery_server.c:21-55 | lockout freedom: after any past, every issued slot is served by any schedule with (n + 1)(3n + 2) + 2 full rounds, with overlapping doorways and whoever arrives meanwhile |
| BakeryLiveness.FullRoundExists | 3/proc/bakery1/bakery_server.c:21-55 | there are full rounds for every number of slots, so lockout freedom is not vacuous |
| ThreadedServer.Server.constructor | 3/proc/bakery1/bakery_server.c:14-20 | the globals at the start |
| ThreadedServer.Server.OpenDoorway | 3/proc/bakery1/bakery_server.c:25-26 | taking a slot is a step of the machine and keeps its invariant; it stays inside the arrays exactly if a slot is left |
| ThreadedServer.Server.DoorwayStep | 3/proc/bakery1/bakery_server.c:26-36 | each access of the doorway, in place, is a step of the machine and keeps its invariant |
| ThreadedServer.Server.StartThread | 3/proc/bakery1/bakery_server.c:67-69 | starting a thread is a step of the machine |
| ThreadedServer.Server.CheckStep | 3/proc/bakery1/bakery_server.c:44-48 | each access of the waiting loop is a step of the machine |
| ThreadedServer.Server.CriticalStep | 3/proc/bakery1/bakery_server.c:49-53 | each access of the critical section is a step of the machine, and nobody else is there |
| ThreadedServer.Server.CallService | 3/proc/bakery1/bakery_server.c:88 | entering the join is a step of the machine |
| ThreadedServer.Server.ReturnService | 3/proc/bakery1/bakery_server.c:94-95 | the reply carries the letter that the thread left |
| Letters.NextLetterAdvances | 3/proc/bakery1/bakery_server.c:49-51 | incrementing and wrapping `c` leads from the k-th to the next letter |
| Letters.LettersAreAlphabet | 3/proc/bakery1/bakery_server.c:20-51 | the letters are those of the alphabet, from a to z and over again |
| MonoBakery.Highest | 3/proc/bakery2/bakery_server.c:19-21 | the scan finds a value that bounds all numbers and, unless 0, is one of them |
| MonoBakery.AheadOf | 3/proc/bakery2/bakery_server.c:35-45 | the slots waited for are exactly those with a set smaller (number, slot), each once, in slot order |
| MonoBakery.GetKeeps | 3/proc/bakery2/bakery_server.c:16-24 | handing out a number keeps the history invariant |
| MonoBakery.AheadIsLowerUnserved | 3/proc/bakery2/bakery_server.c:40 | for a client that passes back its number, the slots ahead are the lower slots that were not served |
| MonoBakery.ServeKeeps | 3/proc/bakery2/bakery_server.c:35-52 | serving keeps the history invariant, in any order of service |
| MonoBakery.HistoryKeeps | 3/proc/bakery2/bakery_server.c:12-53 | every sequence of calls meets the history invariant |
| MonoBakery.MonoLetters | 3/proc/bakery2/bakery_server.c:46-51 | the k-th client served gets the k-th letter of the alphabet, modulo 26, in any order of service |
| MonoBakery.MonoNumbers | 3/proc/bakery2/bakery_server.c:16-24 | after every sequence of calls, each number is at most slot + 1, and unserved numbers increase with the slot |
| MonoBakery.NewNumber | 3/proc/bakery2/bakery_server.c:16-24 | after any calls, the next number is one more than the largest set one, which is that of the last client not yet served, and 1 if everybody was served |
| MonoBakery.NoTimeoutIffSlotOrder | 3/proc/bakery2/bakery_server.c:35-51 | no call ever times out if and only if clients are served in slot order, and then slot i gets letter i |
| MonoBakery.TimeoutsOfReply | 3/proc/bakery2/bakery_server.c:40-44 | a served client timed out once for each lower slot that is served after it |
| MonoBakery.TimeoutsAreInversions | 3/proc/bakery2/bakery_server.c:35-45 | once everybody is served, the timeouts are as many as the pairs of clients served against slot order |
| MonoServer.Server.constructor | 3/proc/bakery2/bakery_server.c:8-11 | the globals at the start |
| MonoServer.Server.GetNumber | 3/proc/bakery2/bakery_server.c:16-27 | the handler with its loop stays inside the arrays exactly if a slot is left; then it performs the abstract call, the number exceeds all others and is 1 or one more than one of them, and `choosing` is all zero again |
| MonoServer.Server.Service | 3/proc/bakery2/bakery_server.c:30-53 | the handler terminates, times out once for each slot ahead and no other, takes at least a second for each and at most that and the time between readings of the clock, and for a client that passes back its number performs the abstract call |
| MonoServer.Server.Perform | 3/proc/bakery2/bakery_server.c:12-53 | any sequence of requests on the arrays stays inside them exactly if no more numbers are asked for than there are slots; then it goes as the abstract history, the k-th letter sent is letter k, and a second passes for each timeout |
| MonoBakery.HistoryGets | 3/proc/bakery2/bakery_server.c:16-19 | each request for a number takes one slot while there are slots |
| MonoServer.Server.WaitTurn | 3/proc/bakery2/bakery_server.c:35-45 | the loop times out exactly on the slots ahead; a slot that is not ahead costs one reading of the clock, a slot ahead the readings up to the first that is a second after its start |
| MonoServer.Server.WaitFor | 3/proc/bakery2/bakery_server.c:38-44 | the spin ends, given a clock that keeps advancing, and gives up exactly on a slot that is ahead, at the first reading a second or more after the start; otherwise it reads the clock once |
| MonoServer.TurnsTake | 3/proc/bakery2/bakery_server.c:35-45 | if at most d passes between two readings, the loop takes at most a second and d for each slot ahead, and d for each slot |
| ServersAgree.SameLetters | 3/proc/bakery2/bakery_server.c:46-51 | without timeouts, each client gets the letter that the threaded server sends to the same slot, in any run of each |
| FileTree.ResolveSlash | 1/catalog/main.c:208-210 | a slash after the path of a directory names the same directory |
| FileTree.ResolveBelow | 1/catalog/main.c:217 | a path of a directory, a slash and an entry name that entry |
| FileTree.ResolveName | 1/catalog/main.c:86-91 | a bare name names the entry of the current directory |
| FileTree.FollowLexical | 1/catalog/main.c:71-86 | a pathname that resolves leads where its components spell, whatever the tree |
| FileTree.LstatEntry | 1/catalog/main.c:192-217 | lstat of the path built in the buffer finds the entry's node |
| FileTree.LstatName | 1/catalog/main.c:71-91 | lstat of the bare name finds the entry's node |
| PathWalker.SpellBelow | 1/catalog/main.c:217 | the spelling of an entry is the spelling of its directory, a slash and the name |
| PathWalker.DoublingSuffices | 1/catalog/main.c:202-207 | one doubling makes room below every path that fits if and only if the buffer is larger than NAME_MAX |
| PathWalker.Walker.Show | 1/catalog/main.c:193-211 | the handler is called while the buffer spells the node: the path recorded is the C string in `fullpath` and the one that leads to the node; counters follow the visits |
| PathWalker.Walker.StrLen | 1/catalog/main.c:201 | finds the length of the C string in the buffer |
| PathWalker.Walker.StrCpy | 1/catalog/main.c:217 | writes the name and its NUL inside the buffer and keeps the first n bytes |
| PathWalker.Walker.Grow | 1/catalog/main.c:202-207 | afterwards there is room for a slash, any name and the NUL, and the path is intact |
| PathWalker.Walker.DoPath | 1/catalog/main.c:186-225 | shows the preorder cut after the first nonzero result, returns that result, keeps the caller's bytes, and restores the path except for the slash of a directory that cannot be opened |
| PathWalker.Walker.DoDirectory | 1/catalog/main.c:198-224 | the same for a directory |
| PathWalker.Walker.CutSlash | 1/catalog/main.c:221 | erasing from the slash on restores the path of the directory |
| PathWalker.Walker.WalkEntries | 1/catalog/main.c:213-220 | the loop shows the entries in order until a nonzero result, across reallocations |
| PathWalker.Walker.MyFtw | 1/catalog/main.c:172-184 | the whole walk shows the cut preorder of the named tree, and at every callback the string read from the buffer is the pathname followed by the names down to the node |
| ChdirWalker.Walker.Show | 1/catalog/main.c:72-84 | the handler gets the node's own name, from the node's directory, at the node's level |
| ChdirWalker.Walker.MyDoPath | 1/catalog/main.c:64-101 | shows the same cut preorder and ends in the parent of an entered directory, otherwise where it began, on every return path |
| ChdirWalker.Walker.WalkEntries | 1/catalog/main.c:87-95 | each recursive call comes back to the directory of the loop |
| ChdirWalker.Walker.MyMyFtw | 1/catalog/main.c:59-62 | the whole walk shows the cut preorder and ends in the parent of the named directory if it entered it, otherwise where it began |
| ChdirWalker.ReturnsExactly | 1/catalog/main.c:86-97 | for every pathname and handler, the walk ends where it started if and only if it entered no directory or the pathname, spelled out, names an entry of the current directory |
| ChdirWalker.PlainNamesEntry | 1/catalog/main.c:86-97 | a relative pathname without dots does so if and only if it has one component |
| ChdirWalker.AbsoluteNamesEntry | 1/catalog/main.c:86-97 | an absolute one without dots, if and only if all but its last component spell the current directory |
| ChdirWalker.DotsNameEntry | 1/catalog/main.c:86-97 | `.` and `..`, if and only if the walk starts in the root |
| ChdirWalker.WalkEndsElsewhere | 1/catalog/main.c:59-101 | a complete counting walk from `a/b` that leaves the process in `a` instead of the root |
| WalkSpec.FeedCuts | 1/catalog/main.c:198-219 | what is shown is the list up to the first visit with a nonzero result, and that result is returned |
| WalkSpec.Counters.Handle | 1/catalog/main.c:227-256 | the counting handler adds 1 to the counter of the node's kind and to no other, and rejects what cannot be examined with -1 |
| WalkSpec.TallyCounts | 1/catalog/main.c:227-256 | wherever a counting walk ends, each counter is the number of visits of its own kind |
| WalkTheorems.RunBoth | 1/catalog/main.c:28-36 | both walks show the same visits in the same order, return the same value and count the same |
| WalkTheorems.ShownIffReachable | 1/catalog/main.c:186-225 | a visit occurs if and only if its node can be reached through readable directories by names other than `.` and `..`, and tells what the node is: a file with its kind, a directory, one that cannot be opened, or that lstat fails |
| WalkTheorems.PreorderOnce | 1/catalog/main.c:186-225 | no node is shown twice, except an unreadable directory as FTW_D and then FTW_DNR, and no directory after something below it |
| WalkTheorems.PreorderInOrder | 1/catalog/main.c:186-225 | a directory is shown before what is in it, and entries are shown in the order of readdir; with what is shown this fixes the list of visits |
| WalkTheorems.CensusSum | 1/catalog/main.c:44-57 | the seven counts of a tree and its nodes of no named kind add up to its size |
| WalkTheorems.CountingFeed | 1/catalog/main.c:103-137 | the counting handler ends with 0 if everything in the tree can be examined and with -1 otherwise, and in the first case the counters grow by the tree's counts |
| WalkTheorems.CompleteWalkCounts | 1/catalog/main.c:227-256 | a counting walk returns 0 if the tree is clean and -1 otherwise; in the first case each counter is the number of nodes of its kind, counted on the tree, and they add up |
| WalkTheorems.CountBoth | 1/catalog/main.c:18-42 | both counting walks of a pathname return the same value and the same counters; the value is 0 if everything can be examined and -1 otherwise, and in the first case each counter is the number of nodes of its kind in the tree and they add up |
| FortuneSpec.FlattenCut | 6/fortunka/fortune.c:66-73 | cutting bytes at their NULs and putting the messages together again gives the bytes |
| FortuneSpec.CutFlatten | 6/fortunka/fortune.c:72-73 | and the other way round |
| FortuneSpec.OnePiece | 6/fortunka/fortune.c:66-73 | a write without an inner NUL adds one message, its bytes but the last |
| FortuneSpec.WriteThenRead | 6/fortunka/fortune.c:54-103 | with all messages read, a write that fits is what the next read returns, and it comes back byte for byte if and only if it is one piece that ended in a newline and left a byte of the pot free, or filled the pot and ended in NUL |
| FortuneSpec.ComesBackExactly | 6/fortunka/fortune.c:54-103 | for every write into the empty pot, rejected and escaping ones included, the run of that write and a read returns the same bytes if and only if the same condition holds |
| FortuneSpec.ByteIsLost | 6/fortunka/fortune.c:72-92 | a single byte other than a newline comes back as a bare newline |
| FortuneSpec.ReadsRotate | 6/fortunka/fortune.c:86-103 | in a run of any number of reads the j-th returns the message j places after the cursor, going round |
| FortuneSpec.OneRound | 6/fortunka/fortune.c:86-103 | a run of as many reads as there are messages returns each exactly once, in cyclic write order |
| FortuneSpec.DoKeeps | 6/fortunka/fortune.c:54-104 | each operation only appends, and a read that does not wrap returns the message between the old and the new cursor |
| FortuneSpec.RunAppends | 6/fortunka/fortune.c:54-104 | over every sequence of writes, rejected writes and reads without a hazardous length the pot never overflows and only grows, and until a read wraps the messages come out in write order |
| FortuneSpec.AddsWhatFits | 6/fortunka/fortune.c:60-73 | and what was added are exactly the writes that fit, in order, each ended by its NUL |
| FortuneSpec.StaysInsideExactly | 6/fortunka/fortune.c:60-73 | a sequence of operations under the guard of the code stays inside the pot if and only if no write, at its turn, has length size - used + 1 or is an empty first one; then the pot holds what fits |
| FortuneSpec.TwoWritesEscape | 6/fortunka/fortune.c:60-73 | for every size, filling the pot and writing one more byte stores outside it, and so does an empty first write |
| FortuneSpec.OutsideStays | 6/fortunka/fortune.c:54-76 | a run that left the pot does not count as inside again |
| FortunePot.FortuneFile.constructor | 6/fortunka/fortune.c:120-153 | an empty pot |
| FortunePot.FortuneFile.Write | 6/fortunka/fortune.c:54-76 | a write stores outside the pot exactly when the abstract one does; otherwise the bytes represent the old messages and the new ones, or nothing changes and the error is returned |
| FortunePot.FortuneFile.Append | 6/fortunka/fortune.c:66-73 | the used bytes grow by the data with its last byte made NUL |
| FortunePot.FortuneFile.Read | 6/fortunka/fortune.c:79-104 | returns the message under the cursor, whatever length the reader asks for, and moves the cursor to the next boundary; if the copy fails nothing is consumed; off the start or on an empty pot nothing changes |
| FortunePot.FortuneFile.ReadLine | 6/fortunka/fortune.c:79-104 | a read at a fresh position gives the line of the current message, if there is one, and is the abstract read |
| FortunePot.FortuneFile.Perform | 6/fortunka/fortune.c:54-104 | any sequence of reads and writes on the bytes stays inside the pot exactly if the abstract run does; then it ends in the same pot and returned the lines of the messages read |
| FortunePot.FortuneFile.Snprintf | 6/fortunka/fortune.c:92 | leaves the message and a newline, cut off at the size of the buffer, and returns the full length |
| FortunePot.FlattenPrefix | 6/fortunka/fortune.c:89-100 | the read index is at the write index exactly if the cursor is behind the last message; a read moves it by the message and its NUL |
| FortunePot.MessageAt | 6/fortunka/fortune.c:92 | the C string at a boundary is the message there, ending inside the used bytes |

## Left out

- The remote procedure plumbing: stubs, XDR, retransmission, the clients and the static reply records. Clients
  call get, wait, service in this order with their own slot and number; `num < N` is what the server needs of
  GET_NUMBER and is a guard of the machine. With overlapping doorways the replies through one static record
  could mix; the machine keeps one answer per slot, as the single dispatcher does.
- Weak memory and the compiler's freedom with unsynchronised spin loads: shared memory is sequentially consistent.
- `sleep`, `printf`, `perror`, timing, percentages, thread and memory allocation failures, `closedir` failures.
- BakeryProgress.LeastFinishes: this bound on a thread's own steps is stated for schedules without an open doorway; with doorways open a thread may spin on `choosing`, and `BakeryLiveness.EveryIssuedSlotIsServed` covers that by rounds.
- MonoServer.Server.WaitTurn: the spin on `choosing[j]` is a check that it is never entered, because no doorway is open between calls.
- MonoServer.Server.Service: the clock is monotone and never wraps around.
- PathWalker.Walker.MyFtw: the first size of the buffer is a parameter larger than NAME_MAX instead of what `path_alloc` computes; the system's own limit on the length of a pathname is not modelled (beyond it lstat of the long path would fail while the bare name still works).
- FileTree.Resolve: a pathname given by the user passes through no symbolic link, the tree does not change during the walk, and `chdir` succeeds whenever `opendir` does.
- WalkSpec.Counters.Handle: the branch for a directory reported as a file is unreachable and left out.
- FortunePot.FortuneFile.Write: what the program does after a store outside the pot is not modelled; the write ends as `LeftPot`, and a run ends there.
- ThreadedServer.Server.OpenDoorway: likewise for a slot past the arrays, and in `MonoServer.Server.GetNumber`; the machine has no such step.
- ThreadedServer.Server: `res`, `answer`, `pc` and `join` are sequences, one entry per slot, where the code has an array of records, the replies and the threads themselves; the loops are cut into one access per call.
- In the fortune module: registration, faults while copying from the writer, and concurrent callers; each read or write is one atomic call.
- `3/proc/bakery_server.c`, which is the same code as the threaded server, and all other programs of the repository: sockets, kernel modules that only log and register, and the formatting of `/proc` text.
