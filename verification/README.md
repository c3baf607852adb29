# Verified models of the dart:io embedder

This project models the parts of the Dart SDK's `dart:io` embedder that are state machines,
in-place algorithms or shared data structures, and proves what they promise. Code that updates
objects or buffers is a class or a loop here, proved against a specification function; what the
code is for is then proved about those functions, for all inputs and all runs. `dafny verify
dfyconfig.toml` checks everything.

| file | what it is about |
|---|---|
| `Basics.dfy` | an option type and a few definitions the others share |
| `UnixPath.dfy` | the lexical path cleaner, against the component stack and against name spaces in general |
| `UriDecoder.dfy` | percent-decoding, against section 2.1 of RFC 3986 |
| `PriorityQueue.dfy`, `SimpleHashMap.dfy` | the heap with an index and the linear-probing hash map the event handler is built on |
| `Timers.dfy`, `LateTimers.dfy` | the timeout queue and the timer descriptor, over all runs; and when a run must come to post late |
| `CircularList.dfy`, `Backpressure.dfy`, `Listening.dfy` | the circular list, token back-pressure on ports, and the listening descriptor that keeps both |
| `EventLoop.dfy` | the sockets of the Linux event handler: descriptors, epoll registrations and messages, over all runs |
| `Clients.dfy` | the event loop as its clients see it: what is registered follows from what they asked for and their tokens |
| `Handler.dfy` | the Linux event handler whole: one array and one pipe for sockets, timers and shutdown |
| `DirListing.dfy` | pausable recursive listing, against a recursive walk |
| `DirDelete.dfy` | recursive deletion by path in a file system with symbolic links and failing calls |
| `ElfImage.dfy` | the layout of an ELF image in memory |
| `PortMessage.dfy` | serializing object graphs between JavaScript and Dart |
| `StdWrite.dfy` | standard output on Windows: caller, write thread and completion handler |
| `EdgeTrigger.dfy` | edge-triggered events simulated on Fuchsia |

## Where the code does not do what is said of it

The lemmas named state the exact condition, or give a case.

- Cancelling a timer can break the heap: `RemoveAt` only moves the replacement down, which keeps
  the order exactly when the last entry is not below its new parent
  (`PriorityQueue.RemoveAtKeepsOrderIff`). A run that can happen then posts a later timer before an
  earlier one (`Timers.LateTimer`). Every unsafe cancellation leads there: some timers set after it
  make a post late, and after a safe one none do (`LateTimers.UnsafeCancelDelays`).
- A deadline of 0 disarms the timer descriptor, and with it every other timer
  (`Timers.DisarmedIff`, and the run of `Timers.ZeroDisarms`).
- `PathBuffer::Add` accepts a name that makes the path `PATH_MAX` long, although its last
  character was cut (`DirListing.AcceptsCutName`). A recursive delete then works on the shorter
  path, where it can remove a file but no directory (`DirDelete.Remover.Delete`).
- A recursive delete of a path that ends in a separator follows a link before it, and can then
  never report success (`DirDelete.TrailingSeparatorFollows`), although it has emptied the link's
  target (`DirDelete.Remover.Delete`, and the case of `DirDelete.FollowedCase`).
- `deserialize` does not know the references `serialize` writes, so the round trip works exactly
  for graphs in which nothing is reached twice (`PortMessage.RoundTrip`, and
  `PortMessage.CycleIsUnreadable` for a list that holds itself). A property called `__proto__` is
  lost (`PortMessage.ProtoIsLost`).
- The size of an ELF image is computed in machine words and no segment is checked against it. The
  reservation holds every segment exactly when none leaves the range of a word
  (`ElfImage.ReservationCoversIff`); a segment that does passes every check and lies past a
  reservation of one page (`ElfImage.WrappedReservation`).
- A segment's bytes past its file size are file bytes, while the System V ABI wants zeros
  (`ElfImage.ZeroFilledIff`, `ElfImage.NotZeroFilled`).

## Model

| member | source | states |
|---|---|---|
| UnixPath.CleanUnixPath | runtime/bin/file.cc:781-852 | fails exactly when the input and its terminator do not fit; otherwise the buffer holds the cleaned path of the component-stack rules, terminated and no longer than a non-empty input; every write is in bounds although only the input index is checked |
| UnixPath.CleanElements | runtime/bin/file.cc:798-842 | the main loop reads the whole input exactly when it fits, and the output is then the cleaned path, nothing standing for `.` |
| UnixPath.CleanElement | runtime/bin/file.cc:798-842 | one slash or element keeps the output equal to the printed stack of the input read so far, the output index behind the input index, and the barrier at the printed `..`s |
| UnixPath.CleanDotDot | runtime/bin/file.cc:807-830 | a `..` element keeps the same progress invariant |
| UnixPath.ParentDirectory | runtime/bin/file.cc:811-830 | rules 3 to 5: the buffer becomes the printed stack with `..` pushed |
| UnixPath.Backtrack | runtime/bin/file.cc:814-817 | stepping back to a separator removes exactly the last component |
| UnixPath.CopyComponent | runtime/bin/file.cc:832-840 | a normal component is appended after a separator exactly when one is due |
| UnixPath.CopyRun | runtime/bin/file.cc:837-840 | copies up to the next separator, failing only when the input does not fit |
| UnixPath.Terminate | runtime/bin/file.cc:844-851 | an empty output becomes `.` |
| UnixPath.BarrierGuards | runtime/bin/file.cc:795-817 | the output is longer than the barrier exactly when a name is left to cancel |
| UnixPath.CleanSplits | runtime/bin/file.h:282-286 | the cleaned path splits into the components of the stack it came from |
| UnixPath.CleanIdempotent | runtime/bin/file.h:282-286 | cleaning twice is cleaning once |
| UnixPath.CleanPreservesMeaning | runtime/bin/file.h:282-286 | in every tree-shaped name space, from every directory, a path that leads somewhere is cleaned to one that leads to the same node |
| UnixPath.CleaningNeedsATree | runtime/bin/file.h:282-286 | cleaning preserves the meaning of all paths exactly in the tree-shaped name spaces |
| UnixPath.CleanIsExact | runtime/bin/file.h:282-286 | two paths are cleaned alike exactly when they lead to the same place from every directory of the free name space, where every name is a new directory |
| UnixPath.CleanAlikeAgree | runtime/bin/file.h:282-286 | paths cleaned alike lead to the same node in every tree-shaped name space where both lead anywhere |
| UnixPath.CleanAlikeIff | runtime/bin/file.h:282-286 | two paths are cleaned alike exactly when they lead to the same node in every tree-shaped name space, from every directory, where both lead anywhere |
| UriDecoder.DecodeUri | runtime/bin/file.cc:1520-1553 | the result, aliased or copied, is the decoding of section 2.1 of RFC 3986 and no longer than the input |
| UriDecoder.DecodeCopy | runtime/bin/file.cc:1530-1552 | the copying loop computes the decoding, although its index stays at the first `%` |
| UriDecoder.DecodeNext | runtime/bin/file.cc:1539-1551 | one turn: the buffer goes on holding the decoding of what has been read, or the whole cannot be decoded |
| UriDecoder.HexCharPairToByte | runtime/bin/file.cc:1561-1579 | a byte exactly for two hexadecimal digits of either case, and the one their values make |
| UriDecoder.DigitTable | runtime/bin/file.cc:1565-1571 | the characters `0` to `9`, `A` to `F` and `a` to `f` are the digits of 0 to 15 |
| UriDecoder.HexPairIs | runtime/bin/file.cc:1561-1579 | two characters stand for a byte exactly when they are the digits of its two halves |
| UriDecoder.DecodeInvertsEncodings | runtime/bin/file.cc:1520-1553 | decoding gives a text exactly for the strings that encode it |
| UriDecoder.DecodeFails | runtime/bin/file.cc:1544-1548 | it fails exactly when the left-to-right scan meets a `%` without two digits after it |
| UriDecoder.RoundTrip | runtime/bin/file.cc:1520-1553 | it inverts every encoder that escapes `%`, whatever else that escapes and whichever case it writes each digit in |
| UriDecoder.DecodeNoPercent | runtime/bin/file.cc:1522-1529 | without a `%` the input is its own decoding, so the alias is right |
| UriDecoder.DecodeConcat | runtime/bin/file.cc:1539-1552 | decoding distributes over concatenation after a decodable part |
| UriDecoder.DecodeShrinks | runtime/bin/file.cc:1530-1533 | the decoding fits the buffer |
| UriDecoder.BadEscape | runtime/bin/file.cc:1544-1548 | a bad escape after a good part makes the whole undecodable |
| PriorityQueue.InsertAdds | runtime/platform/priority_queue.h:49-60 | inserting adds one entry and loses none |
| PriorityQueue.RemoveAtRemoves | runtime/platform/priority_queue.h:150-166 | removing takes away exactly the entry at the offset |
| PriorityQueue.ChangePriorityChanges | runtime/platform/priority_queue.h:96-120 | changing a priority changes exactly one entry |
| PriorityQueue.BubbleUpOrders | runtime/platform/priority_queue.h:168-178 | moving up repairs the order when one entry is below its parent |
| PriorityQueue.BubbleDownOrders | runtime/platform/priority_queue.h:180-209 | moving down repairs the order when one entry is above its children |
| PriorityQueue.InsertOrders | runtime/platform/priority_queue.h:49-60 | inserting keeps the heap order |
| PriorityQueue.ChangePriorityOrders | runtime/platform/priority_queue.h:96-120 | changing a priority keeps the heap order, with either branch |
| PriorityQueue.RemoveAtKeepsOrderIff | runtime/platform/priority_queue.h:150-166 | removing keeps the heap order exactly when the last entry is not below its new parent |
| PriorityQueue.RootIsMinimum | runtime/platform/priority_queue.h:65-68 | in a heap the first entry is a minimum |
| PriorityQueue.CancelledHeap | runtime/platform/priority_queue.h:79-89 | a concrete heap on which a cancellation leaves a smaller entry below the root |
| PriorityQueue.Queue.SwapEntries | runtime/platform/priority_queue.h:216-223 | swaps two entries and keeps the index in step |
| PriorityQueue.Queue.DoBubbleUp | runtime/platform/priority_queue.h:168-178 | the loop is the function, with the index in step |
| PriorityQueue.Queue.DoBubbleDown | runtime/platform/priority_queue.h:180-209 | the loop is the function, with the index in step |
| PriorityQueue.Queue.InsertEntry | runtime/platform/priority_queue.h:49-60 | the heap is the inserted one, the index maps each value to its offset, and the capacity doubles when full |
| PriorityQueue.Queue.RemoveEntry | runtime/platform/priority_queue.h:150-166 | the heap without the entry, the index in step, and half the capacity when a quarter is enough and 16 are left |
| PriorityQueue.Queue.RemoveMinimum | runtime/platform/priority_queue.h:71-74 | removes the root and keeps a heap a heap |
| PriorityQueue.Queue.RemoveByValue | runtime/platform/priority_queue.h:79-89 | removes the entry the index finds, and says whether there was one |
| PriorityQueue.Queue.InsertOrChangePriority | runtime/platform/priority_queue.h:96-120 | inserts or changes, and keeps a heap a heap |
| SimpleHashMap.PlacedAnywhere | runtime/platform/hashmap.cc:138-155 | an entry is reachable by probing from its home exactly when it is seen so from any free slot |
| SimpleHashMap.ProbeMisses | runtime/platform/hashmap.cc:138-155 | a probe that ends at a free slot proves the key absent |
| SimpleHashMap.FreeSlot | runtime/platform/hashmap.cc:146-146 | a table with fewer entries than slots has a free one, which ends every probe |
| SimpleHashMap.InsertKeeps | runtime/platform/hashmap.cc:30-34 | entering a key where its probe ended represents the map with the key added |
| SimpleHashMap.MayMoveIs | runtime/platform/hashmap.cc:95-103 | the two-case pointer test is the cyclic distance test it stands for |
| SimpleHashMap.VacateStep | runtime/platform/hashmap.cc:76-104 | one turn of the deletion loop keeps every other entry findable |
| SimpleHashMap.VacateEnd | runtime/platform/hashmap.cc:86-108 | clearing the last candidate represents the map without the key |
| SimpleHashMap.HashMap.Probe | runtime/platform/hashmap.cc:138-155 | terminates at the key's slot exactly when the key is in the map |
| SimpleHashMap.HashMap.Lookup | runtime/platform/hashmap.cc:20-47 | finds exactly the keys of the map, or enters one, and has twice the slots exactly when 80 percent are used |
| SimpleHashMap.HashMap.Enter | runtime/platform/hashmap.cc:30-34 | the map gains the key |
| SimpleHashMap.HashMap.SetValue | runtime/platform/hashmap.cc:174-174 | assigning through an entry changes that key's value only |
| SimpleHashMap.HashMap.Remove | runtime/platform/hashmap.cc:49-109 | the map loses exactly the key |
| SimpleHashMap.HashMap.Vacate | runtime/platform/hashmap.cc:73-107 | the backward-shift loop terminates and represents the rest |
| SimpleHashMap.HashMap.Clear | runtime/platform/hashmap.cc:111-121 | the map is empty |
| SimpleHashMap.HashMap.NextUsed | runtime/platform/hashmap.cc:127-136 | the next used slot |
| SimpleHashMap.HashMap.Iterate | runtime/platform/hashmap.cc:123-136 | iteration meets every key of the map once |
| SimpleHashMap.HashMap.Resize | runtime/platform/hashmap.cc:164-181 | twice the slots, the same map |
| Timers.TimeSpecFaithful | runtime/bin/eventhandler_linux.cc:283-285 | seconds and nanoseconds add up to the deadline, and are zero exactly for 0 |
| Timers.EveryRun | runtime/bin/eventhandler_linux.cc:199-201 | after every run of updates and expiries the queue holds exactly the deadlines still set and the descriptor is armed for its root |
| Timers.ArmedForEarliest | runtime/bin/eventhandler_linux.cc:279-289 | in runs without unsafe cancellations the descriptor is armed for the earliest deadline still set |
| Timers.DisarmedIff | runtime/bin/eventhandler_linux.cc:279-289 | in such runs it is disarmed exactly when no deadline is set or one of them is 0 |
| Timers.ZeroDisarms | runtime/bin/eventhandler_linux.cc:279-289 | a timer set for 0 and one set for 5, of which neither can ever be posted |
| Timers.NeverEarly | runtime/bin/eventhandler_linux.cc:351-359 | no port is posted before its deadline, and a post removes exactly that port |
| Timers.StepOrders | runtime/bin/eventhandler.h:83-89 | a step keeps the heap order exactly when it is not an unsafe cancellation |
| Timers.SafeRunOrders | runtime/bin/eventhandler.h:83-89 | runs without unsafe cancellations keep the heap order |
| Timers.EarliestFirst | runtime/bin/eventhandler_linux.cc:355-358 | in such runs every post is of an earliest deadline |
| Timers.SetAllRun | runtime/bin/eventhandler.h:83-89 | every heap with distinct values is reached by setting its entries in order |
| Timers.LateTimer | runtime/bin/eventhandler.h:83-85 | a run that can happen and then posts a timer although an earlier one is due |
| LateTimers.SinkKeepsStuck | runtime/platform/priority_queue.h:180-209 | moving another entry down leaves an entry stuck below a larger one |
| LateTimers.PutOff | runtime/bin/eventhandler.h:83-89 | from a heap out of order, setting the root's timer later again and again leads to a late post |
| LateTimers.OrderedIffOnTime | runtime/bin/eventhandler.h:83-89 | after a run that can happen the heap is in order exactly when no continuation without cancellations posts late |
| LateTimers.UnsafeCancelDelays | runtime/bin/eventhandler.h:83-89 | a cancellation in an ordered heap is safe exactly when no such continuation posts late |
| Timers.TimerLoop.UpdateTimerFd | runtime/bin/eventhandler_linux.cc:279-289 | the descriptor is armed for the queue's root |
| Timers.TimerLoop.HandleTimerMessage | runtime/bin/eventhandler_linux.cc:199-201 | a timer message is the update step and posts nothing |
| Timers.TimerLoop.HandleTimerEvent | runtime/bin/eventhandler_linux.cc:351-359 | a timer event is the expiry step, and posts to the port at the root, if there is one |
| CircularList.CircularLinkedList.Add | runtime/bin/eventhandler.h:117-133 | the circle's items are the old ones and the new one last; says whether it was empty |
| CircularList.CircularLinkedList.RemoveHead | runtime/bin/eventhandler.h:135-150 | the items without the first |
| CircularList.CircularLinkedList.Remove | runtime/bin/eventhandler.h:152-180 | the items without the first occurrence, in one turn around the circle |
| CircularList.CircularLinkedList.Find | runtime/bin/eventhandler.h:162-178 | the first node with the item, or proof that there is none |
| CircularList.CircularLinkedList.Unlink | runtime/bin/eventhandler.h:165-172 | the circle without the node, the head moved on if it was the node |
| CircularList.CircularLinkedList.Bypass | runtime/bin/eventhandler.h:165-168 | the neighbours name each other and nothing else changes |
| CircularList.CircularLinkedList.RemoveAll | runtime/bin/eventhandler.h:182-186 | no items |
| CircularList.CircularLinkedList.Rotate | runtime/bin/eventhandler.h:192-197 | the first item goes last |
| CircularList.RemoveFirstAt | runtime/bin/eventhandler.h:162-178 | removing the first occurrence is cutting at its index |
| Backpressure.SetEntryAgrees | runtime/bin/eventhandler.h:398-423 | changing a port keeps the readers queue exactly the ready ports, each once |
| Backpressure.RemovePortAgrees | runtime/bin/eventhandler.h:452-474 | removing a port keeps that agreement |
| Backpressure.NotifyAgrees | runtime/bin/eventhandler.h:488-510 | serving the head keeps that agreement |
| Backpressure.NotifyAllAgrees | runtime/bin/eventhandler.h:512-533 | broadcasting keeps that agreement |
| Backpressure.RoundRobin | runtime/bin/eventhandler.h:488-510 | n consecutive events go to the n readers in queue order |
| Backpressure.AlwaysInRound | runtime/bin/eventhandler.h:488-510 | after any number of events each reader has been served the same number of rounds, or one more |
| Backpressure.Fair | runtime/bin/eventhandler.h:488-510 | readers that still have tokens have been served equally often, give or take one |
| Backpressure.NotifyCostsOne | runtime/bin/eventhandler.h:497-505 | an event takes one of the readers' tokens |
| Backpressure.TokensAfter | runtime/bin/eventhandler.h:488-510 | after k events k tokens are gone |
| Backpressure.Exhausts | runtime/bin/eventhandler.h:552-557 | the mask drops to nothing after exactly the sum of the readers' tokens |
| Listening.DescriptorInfoMultiple.SetPortMask | runtime/bin/eventhandler.h:398-423 | objects, list and map become the state with the port set, and agree |
| Listening.DescriptorInfoMultiple.NewPort | runtime/bin/eventhandler.h:402-411 | a new port comes with four tokens, queued if it reads |
| Listening.DescriptorInfoMultiple.ChangePort | runtime/bin/eventhandler.h:412-423 | a known port enters or leaves the queue as its readiness changes |
| Listening.DescriptorInfoMultiple.RemovePortEntry | runtime/bin/eventhandler.h:452-474 | the state without the port; an unknown port changes nothing |
| Listening.DescriptorInfoMultiple.RemoveAllPorts | runtime/bin/eventhandler.h:476-486 | the new state, whatever the iteration order |
| Listening.DescriptorInfoMultiple.NextNotifyDartPort | runtime/bin/eventhandler.h:488-510 | serves the head port, and 0 without readers |
| Listening.DescriptorInfoMultiple.NotifyAllDartPorts | runtime/bin/eventhandler.h:512-533 | posts to every port once and takes one token from each, whatever the order |
| Listening.DescriptorInfoMultiple.ReturnPortTokens | runtime/bin/eventhandler.h:535-550 | returns tokens and queues a port that becomes ready |
| Listening.DescriptorInfoMultiple.GetMask | runtime/bin/eventhandler.h:552-557 | the mask of the state |
| EventLoop.AddKeeps | runtime/bin/eventhandler_linux.cc:51-69 | adding a registration, or failing to and broadcasting a close, restores the invariant |
| EventLoop.UpdateEpollKeeps | runtime/bin/eventhandler_linux.cc:136-148 | after a mask change the update makes registration and mask agree again and touches no other descriptor |
| EventLoop.UpdateAdds | runtime/bin/eventhandler_linux.cc:136-148 | every change to another mask that is not empty ends in removing and adding, so that edge-triggered events are reported anew |
| EventLoop.AddIs | runtime/bin/eventhandler_linux.cc:51-69 | an accepted add registers pointer, mask and edge trigger; a refused one changes no registration, is told to every port and costs each a token |
| EventLoop.SingleIo | runtime/bin/eventhandler_linux.cc:326-373 | by the kernel's bits: input, output or a hang-up without an error is told to the single port, for one token |
| EventLoop.ListeningIo | runtime/bin/eventhandler_linux.cc:326-373 | on a listening descriptor it is told to the port at the head alone, which pays a token and goes last, or leaves with its last one |
| EventLoop.ErrorIo | runtime/bin/eventhandler_linux.cc:326-367 | an error on a readable descriptor is told to all ports, for a token each |
| EventLoop.NoIo | runtime/bin/eventhandler_linux.cc:326-364 | any other bits change nothing |
| EventLoop.EventKeeps | runtime/bin/eventhandler_linux.cc:361-373 | handling an event of a registered descriptor keeps the invariant and leaves every other descriptor alone |
| EventLoop.ErrorKeeps | runtime/bin/eventhandler_linux.cc:365-367 | so does an error event, which goes to all ports |
| EventLoop.IoKeeps | runtime/bin/eventhandler_linux.cc:368-373 | so does an input or output event, which goes to one port |
| EventLoop.BatchKeeps | runtime/bin/eventhandler_linux.cc:348-375 | a whole array of events keeps the invariant, and what is not in it stays registered |
| EventLoop.EventsDelivered | runtime/bin/eventhandler_linux.cc:361-373 | each event of a batch finds its descriptor live, with a port to serve and a token for it |
| EventLoop.IoReachesPort | runtime/bin/eventhandler_linux.cc:361-373 | input, output or a hang-up reported in a batch is told to a port of its descriptor that has a token for it |
| EventLoop.CloseKeeps | runtime/bin/eventhandler_linux.cc:221-258 | closing a descriptor without a mask removes it from map, heap and epoll together |
| EventLoop.MessageKeeps | runtime/bin/eventhandler_linux.cc:205-275 | every command keeps the invariant |
| EventLoop.MessagesKeep | runtime/bin/eventhandler_linux.cc:193-277 | so does every sequence of commands |
| EventLoop.FirstRequest | runtime/bin/eventhandler_linux.cc:264-271 | the first request on a descriptor registers it for just that mask, edge-triggered unless it listens, with 16 tokens or 4 |
| EventLoop.LastTokenStops | runtime/bin/eventhandler_linux.cc:368-373 | the event that takes a single port's last token ends its registration |
| EventLoop.ReturnResumes | runtime/bin/eventhandler_linux.cc:259-263 | tokens given back register it again for what it asked for |
| EventLoop.EveryRun | runtime/bin/eventhandler_linux.cc:345-381 | the invariant holds after every run of turns |
| EventLoop.RegistrationsExact | runtime/bin/eventhandler_linux.cc:136-148 | after every run a registration is of the live descriptor, for exactly its mask, which is not empty; and a mask means a registration unless adding it failed once |
| EventLoop.NoEventAfterFree | runtime/bin/eventhandler_linux.cc:376-380 | no event of a batch names a deleted descriptor, in any run |
| EventLoop.ClosingFirstWouldDangle | runtime/bin/eventhandler_linux.cc:377-378 | handling the messages before the events would break that |
| EventLoop.TokensConserved | runtime/bin/eventhandler.h:299-335 | in every run a port's tokens are the limit less events posted plus tokens returned, and a single port has 0 to 16 |
| EventLoop.EventHandlerImplementation.AddToEpollInstance | runtime/bin/eventhandler_linux.cc:51-69 | the whole new state, accepted or refused |
| EventLoop.EventHandlerImplementation.UpdateEpollInstance | runtime/bin/eventhandler_linux.cc:136-148 | the whole new state for every pair of masks |
| EventLoop.EventHandlerImplementation.GetDescriptorInfo | runtime/bin/eventhandler_linux.cc:150-170 | the descriptor of the fd, made if need be |
| EventLoop.EventHandlerImplementation.HandleSocketEvent | runtime/bin/eventhandler_linux.cc:361-373 | the event step |
| EventLoop.EventHandlerImplementation.HandleCommand | runtime/bin/eventhandler_linux.cc:205-275 | the command step |
| Clients.MessageShows | runtime/bin/eventhandler_linux.cc:205-275 | every command does to the ports and masks held exactly what its message asks for, as computed from the messages alone |
| Clients.EventShows | runtime/bin/eventhandler_linux.cc:361-373 | an event changes nothing of what clients asked for |
| Clients.RunShows | runtime/bin/eventhandler_linux.cc:345-381 | after every run the loop holds exactly what the messages asked for, whatever events came in between |
| Clients.MaskIsInterest | runtime/bin/eventhandler.h:330-335 | a descriptor's mask has a bit exactly when some port asked for it and has a token |
| Clients.InterestExact | runtime/bin/eventhandler_linux.cc:136-148 | after every run a descriptor is registered for exactly the events that some port asked for and has a token for, edge-triggered unless it listens, and, unless adding it failed once, registered exactly when there are any |
| Handler.Recorded | runtime/bin/eventhandler_linux.cc:345-381 | a turn that can happen is one turn more of a possible run of the sockets, and its expiry and updates are so many events more of a possible run of the timers |
| Handler.ReachedNext | runtime/bin/eventhandler_linux.cc:345-381 | so where possible runs of sockets and timers have brought the handler, with what they posted, a turn that can happen brings it again |
| Handler.NextReady | runtime/bin/eventhandler_linux.cc:348-375 | socket events and expiries of the array are its socket and timer entries, in order |
| Handler.NextMessage | runtime/bin/eventhandler_linux.cc:196-276 | commands and timer updates are the messages of either kind, in order |
| Handler.PostsOfTurn | runtime/bin/eventhandler_linux.cc:355-358 | a turn posts to the port at the root when the timer was ready, and messages post nothing |
| Handler.EntryDone | runtime/bin/eventhandler_linux.cc:348-375 | each socket event of the array finds its descriptor live, and sockets and timers have then seen exactly their own entries so far |
| Handler.MessageDone | runtime/bin/eventhandler_linux.cc:196-276 | the same of the messages: each command is one the sockets admit |
| Handler.EventHandler.constructor | runtime/bin/eventhandler_linux.cc:71-102 | a new handler has had no turn |
| Handler.EventHandler.HandleEvents | runtime/bin/eventhandler_linux.cc:345-381 | the array first, and then, exactly when the pipe was in it, the messages: sockets and timers go through their entries and their messages, a ready timer posts to the port at the root, and a shutdown message shuts down; so that both are after every turn where a possible run of their own brings them |
| Handler.EventHandler.TakeTurn | runtime/bin/eventhandler_linux.cc:345-381 | the same on the two parts |
| Handler.TurnIs | runtime/bin/eventhandler_linux.cc:376-380 | what a turn is for sockets and timers, with and without the pipe |
| Handler.EventHandler.HandleReady | runtime/bin/eventhandler_linux.cc:348-375 | the whole array, sockets and timer, and whether the pipe was readable |
| Handler.EventHandler.HandleInterruptFd | runtime/bin/eventhandler_linux.cc:193-277 | the whole messages: timers updated, commands handled in order, closed sockets passed over, shutdown noted |
| DirListing.Descends | runtime/bin/directory_linux.cc:161-192 | entering a directory uses up a link not in the chain or goes down the physical tree, so the walk ends on every finite file system, cyclic links or not |
| DirListing.FollowUsesUp | runtime/bin/directory_linux.cc:163-172 | a followed link is one less to follow |
| DirListing.WalkEntryIs | runtime/bin/directory_linux.cc:119-222 | what is listed for an entry, by what it is: files, subdirectories and what is inside, dot entries, links followed or not, broken, met before, or to files, and entries of unknown type |
| DirListing.ListedIff | runtime/bin/directory_linux.cc:83-222 | an item is listed exactly when a trail of directories and followed links, no link twice, leads to an entry it is reported for, or to a directory that cannot be opened or read |
| DirListing.LinksNotEntered | runtime/bin/directory_linux.cc:141-144 | without following links a listing is the same whatever is outside the physical subtree |
| DirListing.AppendsWholeIff | runtime/bin/directory_linux.cc:56-68 | a name is appended whole exactly when the path stays below `PATH_MAX` |
| DirListing.AcceptsCutName | runtime/bin/directory_linux.cc:56-68 | at `PATH_MAX` exactly a cut name is accepted |
| DirListing.ResetKeeps | runtime/bin/directory_linux.cc:232-240 | giving up a link frees a node exactly when the entry owns one, and the others stay live |
| DirListing.ResetChains | runtime/bin/directory_linux.cc:232-240 | freeing it changes no other entry's chain |
| DirListing.FollowKeeps | runtime/bin/directory_linux.cc:183-186 | a new node is live and owned by the top entry alone |
| DirListing.NextOk | runtime/bin/directory_linux.cc:83-222 | a step reports what the walk lists next, with its full path, and keeps buffer, stack and chains in order |
| DirListing.PushOk | runtime/bin/directory.cc:592-596 | pushing a directory puts its walk in front of what is left |
| DirListing.PopOk | runtime/bin/directory.h:118-123 | popping keeps the rest in order |
| DirListing.ListNextOk | runtime/bin/directory.cc:584-614 | each turn hands over the next item of the walk, or pops |
| DirListing.AsyncDirectoryListing.constructor | runtime/bin/directory.h:93-106 | a new listing has the whole walk and one marker to come |
| DirListing.AsyncDirectoryListing.InChain | runtime/bin/directory_linux.cc:164-172 | the scan finds exactly the links of the chain |
| DirListing.AsyncDirectoryListing.TypeOf | runtime/bin/directory_linux.cc:128-207 | the type of an entry; a link to a directory is added to the chain |
| DirListing.AsyncDirectoryListing.PrepareTop | runtime/bin/directory_linux.cc:100-117 | opening, resetting the buffer and resetting the link are the prepare step |
| DirListing.AsyncDirectoryListing.NextEntry | runtime/bin/directory_linux.cc:83-222 | the method is the step function, dot entries passed over |
| DirListing.AsyncDirectoryListing.PopAll | runtime/bin/directory.h:127-131 | stopping early frees every link node |
| DirListing.AsyncDirectoryListing.AddToResponse | runtime/bin/directory.cc:447-463 | two slots more, and whether there is room for two others |
| DirListing.CodesAre | runtime/bin/directory.h:159-165 | the two cells of each kind of item, by number |
| DirListing.CellsTellItems | runtime/bin/directory.cc:447-463 | responses that are equal tell of the same items |
| DirListing.AsyncDirectoryListing.ListNextItem | runtime/bin/directory.cc:584-614 | what is written to the response is the next item to come, and nothing is skipped |
| DirListing.AsyncDirectoryListing.List | runtime/bin/directory.cc:616-624 | fills the response with the items to come, to its end or theirs |
| DirListing.AsyncDirectoryListing.ListNextRequest | runtime/bin/directory.cc:388-407 | a batch no longer than asked for, full unless the listing is over, after which there is nothing |
| DirListing.AsyncDirectoryListing.ListAll | runtime/bin/directory.cc:388-407 | for every even positive batch length the batches put together are the walk and one final marker, and every link node has been freed |
| DirDelete.WalkShrinks | runtime/bin/directory_linux.cc:256-368 | while entries are being removed a path leads to the same node or nowhere |
| DirDelete.EmptiedIs | runtime/bin/directory_linux.cc:304-311 | a pruned subtree with an empty top is empty throughout |
| DirDelete.DirectoryRemoved | runtime/bin/directory_linux.cc:304-311 | the final removal succeeds only on the emptied subtree, and removes the entry first named |
| DirDelete.FileRemoved | runtime/bin/directory_linux.cc:260-265 | a file or link is always removable, and only its entry goes |
| DirDelete.AfterIs | runtime/bin/directory_linux.cc:256-368 | after success the subtree is empty, its own entry is gone and every other node is as it was |
| DirDelete.PlainIsRemovable | runtime/bin/directory_linux.cc:256-311 | what is named by directories alone, without links and dots, can always be removed, and the entry removed is the one named |
| DirDelete.LinkIsNotFollowed | runtime/bin/directory_linux.cc:257-265 | a path that ends at a link deletes the link alone |
| DirDelete.TrailingSeparatorFollows | runtime/bin/directory_linux.cc:257-265 | with a separator after it the path stands for the link's target, and its deletion never reports success |
| DirDelete.FollowedCase | runtime/bin/directory_linux.cc:257-311 | a directory with a link and its target: deleting the link with a separator after it fails, and the target has lost its entries |
| DirDelete.ChildDone | runtime/bin/directory_linux.cc:244-254 | a deletion below an open directory keeps to its subtree, also under a cut name |
| DirDelete.AddedIs | runtime/bin/directory_linux.cc:56-68 | an accepted append keeps what was there and adds the name, whole or short of one character; and below `PATH_MAX` it is accepted whole |
| DirDelete.Remover.Reset | runtime/bin/directory_linux.cc:70-73 | cutting the buffer back restores it, the prefix being intact |
| DirDelete.Remover.DeleteRecursively | runtime/bin/directory_linux.cc:256-368 | whatever calls fail: the path prefix is intact; on failure only entries of the subtree are gone, and no directory with anything in it; on success the file system is the emptied one without the entry; and if nothing fails and paths fit, it succeeds when the path still resolves with the subtree empty, and otherwise has emptied a subtree whose paths kept resolving |
| DirDelete.Remover.DeleteDirectory | runtime/bin/directory_linux.cc:267-311 | the same for a directory, from the separator on |
| DirDelete.Remover.DeleteContents | runtime/bin/directory_linux.cc:287-367 | the loop prunes the subtree only, and empties it when nothing gets in the way |
| DirDelete.Remover.DeleteEntry | runtime/bin/directory_linux.cc:313-359 | one entry, of reported or unreported type; dots are passed over |
| DirDelete.Remover.LookAt | runtime/bin/directory_linux.cc:329-341 | the type of an unreported entry, and the buffer is back |
| DirDelete.Remover.DeleteNamed | runtime/bin/directory_linux.cc:244-254 | removes the named entry when nothing gets in the way, and prunes the subtree at most |
| DirDelete.Remover.RemoveHere | runtime/bin/directory_linux.cc:304-311 | succeeds exactly on the emptied subtree when no call fails |
| DirDelete.Remover.Delete | runtime/bin/directory_linux.cc:484-490 | the entry point: with no failing call and paths that fit it succeeds exactly when the path still names the subtree once that is empty, and either way the subtree is empty if its paths kept resolving; at `PATH_MAX` it works on the cut path and removes no directory; above it fails |
| PortMessage.Numbering | client/dart.js:61-71 | objects are numbered densely, outermost first, each once, and references are to numbers given before |
| PortMessage.NumberMeansObject | client/dart.js:61-71 | the number at each place, written or referred to, is that of the object there |
| PortMessage.ReferenceIffMetAgain | client/dart.js:61-101 | no reference is written exactly when no object is reached on two ways, and then the visited objects are the reached ones |
| PortMessage.ReadableIffNoReference | client/dart.js:110-123 | a message can be read exactly when it has no reference |
| PortMessage.ReadsBack | client/dart.js:59-161 | what is read back is the graph's tree with `undefined` as `null`, exactly without a `__proto__` property |
| PortMessage.RepresentsOne | client/dart.js:59-161 | a graph has one such tree at most |
| PortMessage.RoundTrip | client/dart.js:59-161 | the round trip succeeds exactly when no list or map is reached on two ways, and loses nothing exactly without `__proto__` |
| PortMessage.CycleIsUnreadable | client/dart.js:61-71 | a list that holds itself is written as a reference and cannot be read |
| PortMessage.ProtoIsLost | client/dart.js:125-136 | a map with the one key `__proto__` comes back empty |
| PortMessage.SerializedPaired | client/dart.js:93-100 | a serialized map has as many values as keys |
| PortMessage.MessageIs | client/dart.js:73-102 | the form of the message for each kind of value: number, keys and as many values as there are |
| PortMessage.Serializer.DoSerialize | client/dart.js:73-102 | the recursive method is the function, and ends on every finite graph, cyclic or not |
| PortMessage.Serializer.CheckedSerialization | client/dart.js:61-71 | a reference, or the object under the next number |
| PortMessage.Serializer.SerializeItems | client/dart.js:81-87 | the loop threads the visited objects through the items |
| PortMessage.DeserializeHelper | client/dart.js:110-123 | the tree of a message, or the exception |
| PortMessage.DeserializeList | client/dart.js:153-161 | the loop builds the list, or stops at the first exception |
| PortMessage.DeserializeMap | client/dart.js:125-136 | the loop assigns the properties in order |
| ElfImage.ReservationCoversIff | runtime/bin/elf_loader.cc:374-395 | the reservation holds every segment's pages exactly when none leaves the range of a machine word |
| ElfImage.WrappedReservation | runtime/bin/elf_loader.cc:374-395 | one segment that passes every check and lies past its reservation |
| ElfImage.LastWriter | runtime/bin/elf_loader.cc:397-453 | every byte of the image comes from the last segment that covers it, at its place in the file, or is zero past the file's end |
| ElfImage.NoWriter | runtime/bin/elf_loader.cc:397-453 | other bytes are as reserved |
| ElfImage.SegmentReadsAsFile | runtime/bin/elf_loader.cc:397-453 | a segment on pages of its own reads as the file does, up to its memory size |
| ElfImage.ZeroFilledIff | runtime/bin/elf_loader.cc:413-415 | past its file size it is zero exactly where the file is |
| ElfImage.NotZeroFilled | runtime/bin/elf_loader.cc:413-415 | a segment that is not zero there |
| ElfImage.LoadableIff | runtime/bin/elf_loader.cc:404-450 | a segment can be loaded exactly when its offsets agree within a page, its flags are R, RW or RX, and its first page starts in the file |
| ElfImage.IsPowerOfTwoIff | runtime/bin/elf_loader.cc:385-386 | the alignments let through are the powers of two |
| ElfImage.AlignedAsAsked | runtime/bin/elf_loader.cc:385-395 | an image at a multiple of the largest alignment aligns every segment as it asks |
| ElfImage.PieceAddressIff | runtime/bin/elf_loader.cc:273-274 | the address of a file piece is right exactly when the ELF data starts on a page |
| ElfImage.PieceOk | runtime/bin/elf_loader.cc:524-531 | the mapped range is page-aligned and holds the whole piece |
| ElfImage.LoadedElf.Map | runtime/bin/elf_loader.cc:83-129 | file bytes, zeros past the end, nothing else written; fails exactly for a position past the end |
| ElfImage.LoadedElf.MapFilePiece | runtime/bin/elf_loader.cc:524-541 | the bytes at the returned address are the piece |
| ElfImage.LoadedElf.Reserve | runtime/bin/elf_loader.cc:374-390 | the size of the reservation, unless an alignment is no power of two |
| ElfImage.LoadedElf.LoadSegment | runtime/bin/elf_loader.cc:397-453 | one segment: loaded exactly when it can be, its bytes at their place and no others changed |
| ElfImage.LoadedElf.CheckSegment | runtime/bin/elf_loader.cc:404-426 | offsets that differ within a page are refused first, then flags other than R, RW and RX |
| ElfImage.LoadedElf.CopySegments | runtime/bin/elf_loader.cc:397-453 | fails exactly when some segment fails a check, and otherwise the image is the fold of the segments over what was reserved |
| ElfImage.LoadedElf.LoadSegments | runtime/bin/elf_loader.cc:372-456 | succeeds exactly when all checks pass and the reservation is granted, and then the image is the fold of the segments over zeros |
| StdWrite.StepKeeps | runtime/bin/eventhandler_win.cc:726-808 | every turn of caller, thread and completion handler keeps the system's bytes the acknowledged ones and the next `thread_wrote_` bytes |
| StdWrite.EveryRun | runtime/bin/eventhandler_win.cc:726-808 | so after every run, and the writes' results add up to what was acknowledged |
| StdWrite.Quiet | runtime/bin/eventhandler_win.cc:726-808 | with nothing under way the system has exactly what was reported |
| StdWrite.CanFinish | runtime/bin/eventhandler_win.cc:726-808 | every run can be gone on with, without further bytes, until the system has the whole stream and the caller has been told of all of it |
| StdWrite.UsefulGetsOn | runtime/bin/eventhandler_win.cc:726-808 | while bytes are not reported there is a turn that brings the end nearer |
| StdWrite.FirstWrite | runtime/bin/eventhandler_win.cc:765-808 | up to 64 KiB presented for the first time are queued, written, and reported in full when they are presented again |
| StdWrite.Told | runtime/bin/eventhandler_win.cc:778-784 | bytes reported as written are the ones presented, and the system has them |
| StdWrite.UnaskedWake | runtime/bin/eventhandler_win.cc:734-740 | a wake-up before the completion is harmless exactly when the repeated bytes happen to be the next ones |
| StdWrite.StdHandle.Write | runtime/bin/eventhandler_win.cc:765-808 | with a write pending nothing changes; with credit the least of buffer, 64 KiB and credit is reported and taken off it; otherwise up to 64 KiB are queued and the thread is woken; the result counts presented bytes the system has |
| StdWrite.StdHandle.Enqueue | runtime/bin/eventhandler_win.cc:765-808 | the same three cases, for any bytes presented |
| StdWrite.StdHandle.WriteSyncCompleteAsync | runtime/bin/eventhandler_win.cc:746-763 | the thread's turn |
| StdWrite.StdHandle.WriteComplete | runtime/bin/eventhandler_win.cc:225-231 | the completion |
| EdgeTrigger.FlagsAreHistory | runtime/bin/eventhandler_fuchsia.cc:78-153 | for every history each flag is up exactly when its event is due |
| EdgeTrigger.DeliveredIff | runtime/bin/eventhandler_fuchsia.cc:266-350 | a toggle lets through exactly the bits that are up and due, and all others |
| EdgeTrigger.WriteBetween | runtime/bin/eventhandler_fuchsia.cc:268-285 | a write separates any two delivered out-events |
| EdgeTrigger.CloseOnce | runtime/bin/eventhandler_fuchsia.cc:330-348 | a close is delivered once at most |
| EdgeTrigger.RearmedBetween | runtime/bin/eventhandler_fuchsia.cc:287-328 | after an in-event with bytes or with a close the next one waits for an accept, a failed read or one that drained the tracked bytes |
| EdgeTrigger.FirstToggle | runtime/bin/eventhandler_fuchsia.cc:266-350 | the first packet comes through whole |
| EdgeTrigger.OutAfterWrite | runtime/bin/eventhandler_fuchsia.cc:107-122 | the first out-event after a write comes through |
| EdgeTrigger.InAfterDrain | runtime/bin/eventhandler_fuchsia.cc:78-138 | the first in-event after an accept, a failed read or one that took all there was comes through |
| EdgeTrigger.InHeldBack | runtime/bin/eventhandler_fuchsia.cc:306-328 | after one with bytes or a close none comes through before a read or an accept |
| EdgeTrigger.EmptyInRepeats | runtime/bin/eventhandler_fuchsia.cc:306-328 | one without bytes and close holds nothing back |
| EdgeTrigger.IOHandle.ToggleEvents | runtime/bin/eventhandler_fuchsia.cc:266-350 | the returned mask is what the history lets through |
| EdgeTrigger.IOHandle.ReadBytes | runtime/bin/eventhandler_fuchsia.cc:78-105 | the flags after a read are those of the history with it |
| EdgeTrigger.IOHandle.WriteBytes | runtime/bin/eventhandler_fuchsia.cc:107-122 | the flags after a write are those of the history with it |
| EdgeTrigger.IOHandle.AcceptSocket | runtime/bin/eventhandler_fuchsia.cc:124-138 | the flags after an accept are those of the history with it |
| EdgeTrigger.IOHandle.AvailableBytes | runtime/bin/eventhandler_fuchsia.cc:140-153 | the tracked count, an error counting as one byte; no flag changes |

## Left out

- System calls, `errno`, EINTR retries, mutexes and monitors: answers of the system are parameters or events, and a body that holds a lock is one step.
- `ListeningSocketRegistry`: whether a listening socket is the last on its address is an answer given with the close message.
- The poll loop around `HandleEvents` and the wake-up pipe's own reads and writes; what a read of the pipe returns is part of the turn.
- Which bits a posted event carries: `GetPollEvents` is computed, but only whether an event is an error, input or output, or nothing matters to what is proved.
- `disable_tokens_`, which is off on Linux.
- The destroyed event posted to the port after a close, which costs no token.
- Clients that return tokens they did not get, use port 0 or change the listening flag of a descriptor: the source asserts against them, and messages here are those it admits.
- The single-port descriptor is a value inside `EventLoop`, not an object of its own.
- The hash map takes `hash & (capacity - 1)` as the remainder by the capacity, which it is for powers of two, and the hash as a function of the key.
- Iteration order of the hash map in `Listening` is a parameter; `SimpleHashMap.HashMap.Iterate` shows that an order with every key once exists.
- DirListing.AsyncDirectoryListing.constructor: asks that every path of the walk stays below `PATH_MAX`; beyond it the source leaves `path_length_` unset or lists cut names.
- `DirListing` opens a directory by its number, so the resolution of listed paths and changes to the file system during a listing are not captured.
- Synchronous listing, and the error string of a listing whose first path does not fit.
- DirDelete.Remover.Delete: other processes changing the file system meanwhile are not modelled, except as failing calls.
- The descriptors `DeleteRecursively` opens and closes.
- ElfImage.LoadedElf.LoadSegments: asks that segments stay in the range of a machine word, which the source does not check; `ElfImage.ReservationCoversIff` shows that the reservation needs exactly this, and beyond it the source writes outside its memory. File and image together are smaller than the address space.
- ElfImage.LoadedElf.LoadSegment: asks that the segment lies in the image, for the same reason; offsets in the file wrap as in the source.
- ElfImage.LoadedElf.CopySegments: asks the same of all segments.
- ElfImage.LoadedElf.Map: takes positions and lengths in machine words, and asks that a range that starts in the file does not leave them; `position + length` is not computed beyond.
- ElfImage.LoadedElf.MapFilePiece: asks the same of the piece rounded to pages.
- Page protection, the Fuchsia branch of `LoadSegments`, and ELF sections and symbols.
- Numbers in messages are reals, so NaN and signed zero are not told apart; accessor properties and objects with methods count as maps of their own properties.
- StdWrite.StdHandle.Write: asks that the caller presents the bytes after those it was told are written, as the socket code does; closing the handle is left out.
- Windows sockets, the accept queue and completion ports otherwise.
- The macOS, Android, Windows and Fuchsia event handlers and directory code beyond the above, `dfe.cc`, and the Dart API glue: the same algorithms with other calls, or thin wrappers.
