# Verification model of the OpenFlow 1.3 proxy

The proxy sits between a switch and its controller. It reassembles OpenFlow messages from two
byte streams, strips its own tags out of FLOW_MOD and PACKET_OUT messages in the receive buffer,
charges the senders named in those tags to two-second accounting windows, sorts every message into
one of ten queues, and sends from the queues under a budget of twelve unacknowledged messages. This
project models these four pieces and proves what they keep. `dafny verify dfyconfig.toml` checks
all of it.

## How it is laid out

| File | Models |
|---|---|
| `Bytes.dfy` | machine integers, byte order, the byte-copying loops |
| `Formats.dfy` | match, instruction, action list, FLOW_MOD and PACKET_OUT: values, bytes, strict parsers |
| `Splits.dfy`, `RingBuffer.dfy`, `PriorityManager.dfy` | the accounting windows, against a plain log of all charges |
| `ActionFilter.dfy`, `MatchFilter.dfy`, `InstFilter.dfy` | the three filters that work through the scratch buffer |
| `FlowModFilter.dfy`, `PacketOutFilter.dfy` | the two in-place rewriters |
| `Charges.dfy`, `Demotion.dfy` | what filtering does to the accounts, and which messages are demoted |
| `Framing.dfy` | reassembly of messages from reads of any size |
| `Messages.dfy`, `Responses.dfy`, `Queue.dfy` | one queue: scan, acknowledgement, clean-up |
| `Steps.dfy`, `Runs.dfy` | the scheduler as a state machine, and its invariant |
| `Guarantees.dfy`, `Acknowledgements.dfy`, `Lifecycle.dfy`, `Progress.dfy`, `CloseWrites.dfy` | what holds in every run |
| `Schedule.dfy`, `Proxy.dfy` | the scheduler's objects and loops, and putMessage as a whole |

The rewriters, the ring and the queues are arrays and classes, as in the source. Each is proved
against functions on values: *parse, filter, serialise* for the rewriters, a log of charges for the
ring, a state machine for the scheduler. In the scheduler every stretch between two points where
another thread can come in is one step; messages put, responses delivered and time passing may
happen between any two of them, and `Schedules.Schedule.Run` takes such interference as its
argument. Its objects are kept equal to the state the machine reaches by the same steps, so the
theorems about runs are theorems about the objects.

The network, the clock, the window clock, the response pipe and the number ln 2 are parameters. A
host with little-endian byte order is modelled: `Le16` is a raw read of a 16-bit field, `Be16` one
through `ntohs`.

## Results that are not what one might expect

* **The match length arithmetic loses the old padding.** If the old match length was not a multiple
  of 8 and the new one is, the header keeps counting the old padding, and the message no longer
  parses: `FlowModFilter.ResidueHappens` gives an ADD this happens to.
* **Only the first instruction moves.** The instructions behind it stay where they were received, so
  with a match that has got shorter they come out right only if the received bytes happen to repeat
  at the place they should move to. If the first instruction loses actions they never come out right:
  the copy loop leaves four zero bytes behind the filtered instruction, and no instruction starts
  with them. `FlowModFilter.SecondInstructionLost` gives an ADD this happens to.
* **When an ADD is rewritten correctly.** Both points together: `FlowModFilter.AddKeepsMeaning` says
  of every ADD, whatever its match and instructions, that the rewritten message parses to the
  filtered one exactly if the message received meets `FlowModFilter.Survives`.
* **The EtherType test can read past the frame.** For frames shorter than 14 bytes
  `PacketOutFilter.TypeIsTheFrames` says which old bytes decide, in full or for the second byte;
  `PacketOutFilter.NoFrameIsLldp` is a PACKET_OUT without a frame that is taken for LLDP.
* **An ADD without removed actions is judged by slot 0.** It is taken to come from sender 0, 0 in
  window 0, and so judged by the last window booked on that slot, which is 0, 20, 40 and so on.
  `Demotion.UntaggedAddIsDemoted` gives the exact condition for queue 7, `Demotion.UntaggedAddIsSlow`
  accounts under which every such ADD goes there; `Demotion.UntaggedAddIsFast` says that none does
  as long as sender 0, 0 was never charged.
* **A bad header lets fragmentation show.** If a header claims fewer than 8 bytes, what the reader
  returns is the size of its last read: `Framing.BadHeaderShowsThePieces`.
* **The rate limit is one on fetches.** Between two writes of a queue a whole interval can be
  missing, because the thread may be held up after a fetch. `Guarantees.WritesAreSpaced` gives the
  bound that always holds, `Guarantees.EvenWritesAreSpaced` the full one, for a message that was not
  held up longer than the later one, and `CloseWrites.WritesCanBeClose` a run of two PACKET_OUTs that
  are written closer together than the interval.
* **Towards the controller the budget only grows.** Removals are credited and sends never debited:
  `Guarantees.BudgetIsKept`. The source's counter is 32 bits wide, so this is exact for the first
  2^31 - 13 removed messages.
* **A window id behind the ring is booked at its tail.** The contract of
  `Priority.PriorityManager.UpdateSplitOfUEP` covers this; `Priority.InOrderIsExact` says that it
  does not happen as long as the clock does not step back, `Priority.OnlyInOrderIsExact` that at the
  shipped window size it does as soon as the clock does.

## Model

| member | source | states |
|---|---|---|
| Bytes.CopyBytes | schedule.cpp:507-510 | the byte loops between scratch buffer and message write exactly the source bytes and nothing else |
| Bytes.SlideLeft | schedule.cpp:587-591 | the overlapping slide towards the start of the same buffer leaves the moved bytes intact |
| Bytes.WrapAround | PriorityManager.h:37-45 | the unsigned conversions are reduction modulo 2^16, 2^32 and 2^64 |
| Formats.ActionsParseBack | openflow_common.h:1616-1624 | parsing the bytes of an action list gives the list back |
| Formats.ActionsPrintBack | openflow_common.h:1616-1624 | every byte string that parses as an action list is the serialisation of what it parses to |
| Formats.MatchParseBack | openflow_common.h:1484-1497 | the same for a match with its padding |
| Formats.FlowModParseBack | openflow_common.h:1510-1526 | parsing the bytes of a FLOW_MOD gives it back |
| Formats.FlowModPrintBack | openflow_common.h:1510-1526 | what parses as a FLOW_MOD is its serialisation, all three length fields included |
| Formats.PacketOutParseBack | openflow_common.h:1552-1564 | parsing the bytes of a PACKET_OUT gives it back |
| Formats.PacketOutPrintBack | openflow_common.h:1552-1564 | what parses as a PACKET_OUT is its serialisation |
| ActionFilter.FilterSplits | schedule.cpp:353-378 | the filter splits an action list into kept and SET_FIELD actions, losing and adding nothing |
| ActionFilter.KeptAppend | schedule.cpp:324-391 | filtering two lists one after the other filters them joined, so order is kept |
| ActionFilter.KeptIsFree | schedule.cpp:353-378 | no SET_FIELD action is kept |
| ActionFilter.FilterIsByType | schedule.cpp:353-378 | exactly the actions of type 25 are removed, every other is kept as often as it occurs |
| ActionFilter.ChargeAt | schedule.cpp:353-378 | the k-th removed action is charged in the k-th window, to the eid and uid its bytes 9 and 8 name, with the little-endian number in bytes 12 and 13 |
| ActionFilter.SenderIsTheLast | schedule.cpp:353-378 | a message is judged by the last removed action and the window of its clock reading; without one by sender 0, 0 in window 0 |
| ActionFilter.FilterIsIdempotent | schedule.cpp:353-391 | filtering a filtered list removes nothing |
| ActionFilter.CopyValidActionToBuf | schedule.cpp:318-397 | the scratch buffer gets the serialisation of the kept actions, new length plus kicked length is the old length, the last removed action's sender is returned, and the log grows by exactly the charges of the removed actions |
| MatchFilter.UntaggedSplits | schedule.cpp:251-289 | exactly the fields of class 0x8000, field byte 0x36 and first value byte 0x7F go, every other one stays as often as it occurred |
| MatchFilter.UntaggedAppend | schedule.cpp:233-289 | filtering two field lists one after the other filters them joined, so order is kept |
| MatchFilter.UntaggedIsIdempotent | schedule.cpp:257-279 | filtering a filtered match removes nothing |
| MatchFilter.PackFields | schedule.cpp:228-290 | the walk over the fields, its extra turn over five to seven padding bytes included, packs exactly the untagged fields and counts the others |
| MatchFilter.NewLengths | schedule.cpp:292-313 | the new total is the new length rounded up to 8, and together with the counted bytes it falls short of the old total by exactly the residue |
| MatchFilter.PackMatchExceptType | schedule.cpp:208-316 | the scratch buffer holds the serialised filtered match, padding included |
| MatchFilter.PaddedLength | schedule.cpp:198-206 | the match length rounded up to a multiple of 8 |
| InstFilter.PackInstExceptType | schedule.cpp:399-468 | an APPLY_ACTIONS instruction is filtered and its length patched, every other type is left alone |
| InstFilter.FilterIsByBytes | schedule.cpp:409-412 | an instruction whose first two bytes are 0, 4 loses its actions of type 25 and nothing else, any other is left as it is |
| FlowModFilter.DoFlowModProcessed | schedule.cpp:471-563 | for every well-formed FLOW_MOD whose parts fit the scratch buffer: an ADD is rewritten, charged, booked and sorted, any other command leaves buffer, accounts and their pointers unchanged |
| FlowModFilter.DoAdd | schedule.cpp:487-559 | every byte of the rewritten buffer: head and filtered match, the first instruction filtered, with four zeros and the rest of its old bytes behind it, or moved whole if it lost nothing, and from there on what was received; also log, pointers and queue |
| FlowModFilter.AddKeepsMeaning | schedule.cpp:499-548 | for every ADD: the first header.length bytes parse to the filtered message if and only if the match lengths leave no residue and, with several instructions, the first lost nothing and the received bytes of the others recur at their new place; with a residue, or several instructions of which the first lost actions, they parse to nothing |
| FlowModFilter.ParsedMatch | schedule.cpp:251-289 | whenever a rewritten ADD parses: version, the 44 fixed bytes and the match type are those received, and exactly the fields of class 0x8000, field byte 0x36 and first value byte 0x7F are gone |
| FlowModFilter.ParsedInstructions | schedule.cpp:511-548 | where it was rewritten correctly the instructions are those received, except that a first one of type 4 has lost its actions of type 25 |
| FlowModFilter.ResidueHappens | schedule.cpp:292-313 | an ADD with a residue of three bytes, which never parses again |
| FlowModFilter.SecondInstructionLost | schedule.cpp:545-548 | an ADD with two instructions and no residue, which never parses again |
| FlowModFilter.LaterInstructionsStay | schedule.cpp:511-517 | instructions after the first are not moved, and the new length cuts off as many of their bytes as were removed; head, match and first instruction before them are the filtered ones |
| FlowModFilter.ParsedIsAt | schedule.cpp:471-486 | the rewriter's demand on a received buffer is exactly that its first header.length bytes parse to the message |
| FlowModFilter.FilterIsStable | schedule.cpp:471-563 | a rewritten message is a fixed point of the rewriting, with nothing more to charge and no residue, and it survives a second pass in any buffer |
| PacketOutFilter.DoPacketOutProcessed | schedule.cpp:564-628 | the buffer holds the filtered message followed by what was there before, the accounts are charged and their pointers moved, and the queue follows from share and EtherType |
| PacketOutFilter.RewriteKeepsMeaning | schedule.cpp:582-593 | for every message the first header.length bytes parse to the filtered one, which differs from the received one in its actions alone; exactly those of type 25 are gone, and the length shrinks by exactly their bytes |
| PacketOutFilter.TypeIsTheFrames | schedule.cpp:617-621 | the LLDP test on the rewritten buffer reads the original frame's type if there is one; of a 13-byte frame its last byte and one old byte, of a shorter one two old bytes |
| PacketOutFilter.NoFrameIsLldp | schedule.cpp:617-626 | a PACKET_OUT with one removed action and no frame that goes to queue 0 as LLDP, whatever its sender's share |
| PacketOutFilter.ParsedIsAt | schedule.cpp:564-582 | the rewriter's demand on a received buffer is exactly that its first header.length bytes parse to the message |
| PacketOutFilter.RewriteIsIdempotent | schedule.cpp:564-628 | filtering a filtered message changes nothing |
| Splits.SplitHoldsTheSums | PriorityManager.h:37-45 | a window's map and cached total are the exact sums of its charges modulo 2^32, and the total is the sum of the map |
| Splits.SplitHoldsTheSenders | PriorityManager.h:29-44 | a window has an entry for exactly the senders charged in it |
| Ring.RingBuffer.PutData | RingBuffer.h:31-45 | the element goes to the tail's slot, and head, tail and size move as stated, wrap-around included |
| Ring.RingBuffer.GetTotal | RingBuffer.h:50-56 | the sum of the cached totals of a span of slots, modulo 2^32 |
| Priority.PriorityManager.UpdateSplitOfUEP | PriorityManager.h:77-95 | for any window id: from the head on the charge is booked under its own window, behind it under the tail; where head and tail go; and every slot still holds exactly the charges of the last window booked on it |
| Priority.PriorityManager.GetUEPRatioOfSplitK | PriorityManager.h:97-109 | the share computed from slot and span total |
| Priority.InOrderIsExact | PriorityManager.h:79-91 | charges whose window ids never step back are booked under the windows they name |
| Priority.OnlyInOrderIsExact | PriorityManager.h:79-91 | at window size 1 exactly these are: charges are booked under the windows they name if and only if the ids never step back |
| Priority.RecentWindowIsExact | PriorityManager.h:77-95 | a charged window within bufferSize of the latest holds exactly its per-sender sums and its total |
| Priority.SpanIsExact | RingBuffer.h:50-56 | getTotal equals the log's sum when every window of the span was charged and is within reach |
| Priority.RatioIsExact | PriorityManager.h:97-109 | at window size 1 the ratio of a charged window is the exact share in the log |
| Priority.SlotRatioIsExact | PriorityManager.h:97-109 | whatever slot is read, for any clock: the ratio is the share, modulo 2^32, in the last window booked on that slot, and 0 if there is none |
| Priority.UnchargedHasNoShare | PriorityManager.h:97-109 | a sender never charged has ratio 0 in whatever slot is read |
| Priority.AtMostOneDangerous | PriorityManager.h:111-126 | at most one sender of a window is above the threshold ln 2 |
| Priority.DangerousInIntegers | PriorityManager.h:97-126 | a number is dangerous in a total only if it is above 0.6931 times, and always if at least 0.6932 times, the total plus 5 |
| Priority.DangerousFromTwelve | PriorityManager.h:111-126 | nobody is dangerous below a total of 12, and a sender alone in its window is from exactly there |
| Charges.ChargesAreConserved | schedule.cpp:353-378 | over any span that takes the charges in, each sender's sum rises by exactly the numbers of its removed actions and the totals by the same overall amount |
| Charges.ChargesPerWindow | schedule.cpp:353-378 | the same window by window |
| Charges.RingShowsTheCharges | PriorityManager.h:77-95 | with a clock in order, the slots of the ring show the old sums plus the removed numbers |
| Demotion.JudgedByItsShare | PriorityManager.h:97-126 | a message with removed actions is judged by the exact share of its sender in the current window |
| Demotion.AddIsDemoted | schedule.cpp:532-541 | an ADD with removed actions goes to queue 7 exactly if its sender's share is above ln 2, else to queue 1 |
| Demotion.PacketOutIsDemoted | schedule.cpp:595-626 | a PACKET_OUT with removed actions goes to queue 8 exactly if its sender's share is above ln 2, else to queue 2, LLDP always to queue 0 |
| Demotion.JudgedByItsSlot | PriorityManager.h:97-126 | for any clock a sender is judged by its exact share in the last window booked on the slot that is read, short of overflow |
| Demotion.AddIsJudgedByItsSlot | schedule.cpp:528-541 | so every ADD, tagged or not, goes to queue 7 exactly if its sender's share in that window is above ln 2, else to queue 1 |
| Demotion.PacketOutIsJudgedByItsSlot | schedule.cpp:595-626 | the same for every PACKET_OUT with queues 8 and 2; LLDP and messages that lost no action go to queue 0 |
| Demotion.UntaggedAddIsDemoted | schedule.cpp:403-411 | an ADD without removed actions goes to queue 7 exactly if sender 0, 0 has a share above ln 2 in the last window booked on slot 0, else to queue 1 |
| Demotion.UntaggedAddIsSlow | schedule.cpp:403-411 | with a single charge of 12 to sender 0, 0 in window 20 every such ADD goes to queue 7 |
| Demotion.UntaggedAddIsFast | schedule.cpp:528-541 | if sender 0, 0 was never charged, every such ADD goes to queue 1, at any window size |
| Framing.ReadOfpMsg | ofmsg.cpp:44-175 | one call returns exactly the next message whatever the sizes of the reads, 0 if the stream ends inside it, the error of a failed read, or the last read's size for a header below 8 |
| Framing.ReadAll | main.cpp:36-64 | of a stream of well-framed messages, cut off anywhere in a further one, exactly those messages are handed on, in order, under every fragmentation without errors; if a read fails, the first of them, and the others are left |
| Framing.FramingIsInOrder | ofmsg.cpp:81-148 | what such a stream has delivered at any moment is its first messages, in order, and what is left is the others |
| Framing.FramingIsExact | ofmsg.cpp:81-148 | what such a stream delivers is unique, and what is left over is the message cut off |
| Framing.BadHeaderShowsThePieces | ofmsg.cpp:81-85 | with a header length below 8 two fragmentations give different results |
| Messages.ScanIsFifo | schedule.h:252-263 | where sent messages come first, the scan returns the oldest unsent one in spite of priorities and the early exit for users 2 and 4 |
| Messages.NeverLess | schedule.cpp:751-761 | no two messages a run can bring about differ in priority |
| Messages.ScanIsUnsent | schedule.h:251-264 | for messages of any priorities: the scan finds one exactly if one is unsent, and the one it finds is unsent |
| Messages.WhenLess | schedule.cpp:751-761 | a message gives way to one of higher priority if it can still wait, and to one that has waited longer if neither can |
| Messages.CleanSplits | schedule.cpp:726-749 | a clean-up loses and adds nothing |
| Messages.RemainingAppend | schedule.cpp:726-749 | a clean-up of two parts is the clean-up of each, so order is kept |
| Messages.CleanSorts | schedule.cpp:735-737 | exactly the messages that are sent and finished are removed |
| Messages.CleanCounts | schedule.cpp:726-749 | it removes as many sent messages as it says, and the sent ones left are the open ones |
| Messages.SentIsTheNumber | schedule.cpp:726-749 | what the budget theorems count are the messages with in_process set |
| Queues.Queue.MarkFinished | schedule.h:174-198 | exactly the first sent, unfinished message with the identity is finished |
| Queues.Queue.FetchMsg | schedule.h:232-266 | nothing inside the interval, else the message the scan finds |
| Queues.Queue.FindMsg | schedule.h:251-264 | the scan over the objects is the scan over their values |
| Queues.Queue.CleanFinishMsg | schedule.cpp:726-749 | the erase loop with its wrapping index leaves exactly the messages that are not sent and finished, in order, and returns the number removed |
| Responses.RespondIsMarked | schedule.cpp:63-70 | a response finishes at most one message, the first in the order of queue index and position |
| Messages.MarkedIsByIdentity | schedule.h:174-198 | in a queue exactly one message changes, if any: the first that is sent, not finished and has the identity of the response; it becomes finished |
| Responses.RespondIsByIdentity | schedule.cpp:63-70 | the same over all queues, the first in the order of queue index and position |
| Responses.StrangerChangesNothing | schedule.cpp:63-70 | a response whose identity no sent and unfinished message has leaves every queue as it is |
| Responses.ResponsesFinishTheFirst | schedule.cpp:50-82 | k responses with one identity finish exactly the first k messages that wait for it |
| Responses.ResponsesAreUsedUp | schedule.cpp:50-82 | k responses answer k messages as long as there are so many |
| Responses.UnmatchedChangesNothing | schedule.cpp:63-70 | an unmatched response changes nothing |
| Runs.StepKeepsInv | schedule.cpp:89-186 | every step of every thread keeps the invariant of the scheduler |
| Guarantees.RunKeepsInv | schedule.cpp:89-186 | so it holds in every reachable state |
| Guarantees.PutsAreTheEvents | schedule.cpp:7-26 | the recorded messages of a queue are exactly those put on it, in order |
| Guarantees.BudgetIsKept | schedule.cpp:98-179 | the budget is never negative, at most 12 messages are sent and not removed, at every loop head the two make up 12; towards the controller the budget is 12 plus all removals |
| Guarantees.CleanUpSettles | schedule.cpp:110-117 | a clean-up the budget called for ends with 12 less the messages that are sent and still queued, which are those it found open |
| Guarantees.OpenMessagesAwaitResponses | schedule.h:137-145 | between sends every sent and unfinished message is of type 14 or 18 and has an identity |
| Acknowledgements.OnlyItsResponse | schedule.h:137-145 | a message of type 14 or 18 with an identity that a step finishes was sent, and the step is a response with that identity offered to its queue |
| Acknowledgements.AnswersArePaid | schedule.cpp:144-147 | of the messages of these types and one identity, or any, at most as many are finished or removed as such responses were offered to their queue |
| Acknowledgements.FinishedWasAnswered | schedule.cpp:144-147 | each one that is finished or was removed has had a response with its identity in the run |
| Acknowledgements.FlowIsControlled | schedule.cpp:98-179 | towards the switch a queue never writes more than 12 of them beyond the responses offered to it |
| Guarantees.WritesAreFifo | schedule.h:232-266 | the k-th write from a queue is of the k-th message put on it |
| Guarantees.WireIsTheWrites | schedule.cpp:143 | what goes out on the connection is what is recorded as written, each once |
| Guarantees.WireIsFifo | schedule.cpp:122-143 | the connection carries an interleaving of what the ten queues send, and the k-th message sent from a queue is the k-th one put on it |
| Guarantees.NothingIsLost | schedule.cpp:122-184 | every message put is queued or removed, and only once |
| Guarantees.WrittenOnceBeforeRemoval | schedule.cpp:122-184 | a message is written at most once, and before it is removed |
| Guarantees.FetchesAreSpaced | schedule.h:238-249 | between the i-th and j-th fetch from queue q of 5 to 9 lie more than (j - i) times 2q milliseconds |
| Guarantees.WritesAreSpaced | schedule.cpp:126-143 | between the i-th and j-th write lie more than (j - i - 1) times 2q milliseconds |
| Guarantees.EvenWritesAreSpaced | schedule.cpp:126-143 | they lie more than (j - i) times 2q milliseconds apart if the i-th message was held up between fetch and write no longer than the j-th |
| CloseWrites.WritesCanBeClose | schedule.cpp:126-143 | a run in which two PACKET_OUTs on queue 8, whose interval is 16 ms, are written less than 2 ms apart |
| Guarantees.PriorityIsStrict | schedule.cpp:122-127 | when a message is being sent from queue q, every queue j before it was scanned q - j steps earlier in the same pass, and then had nothing unsent, or is one from 5 on that had been scanned at most 2 j milliseconds before |
| Lifecycle.StagesOnlyAdvance | schedule.h:174-198 | every step moves every message by at most one stage of unsent, in process, finished, removed, and never back |
| Lifecycle.StagesAre | schedule.h:174-198 | the stages of queued messages by their two flags, of others by whether their number was used |
| Lifecycle.ErasedIsRemoved | schedule.cpp:735-737 | a message that is no longer queued is among the removed ones |
| Progress.NextPassSends | schedule.cpp:122-171 | with budget left and nothing else happening, the oldest unsent message of the first queue that has one and was last scanned more than 2 q milliseconds ago (for q of 5 to 9) is written within q + 4 steps; one step later it is finished unless it is of type 14 or 18 with an identity, and paid for unless it goes to the controller |
| Progress.EmptyPass | schedule.cpp:122-163 | if no queue is ready, a pass ends after twelve steps and nothing was sent |
| Progress.CleansUp | schedule.cpp:107-117 | with a budget of at most 1, or towards the controller, the clean-up of all queues takes twelve steps and ends, towards the switch, with 12 less what is still sent |
| Progress.NoneFinishedLeft | schedule.cpp:726-749 | no message that is sent and finished is left after it |
| Progress.HeadsLeadOn | schedule.cpp:107-119 | with a budget of 2 or more towards the switch there is no clean-up, and without budget no pass |
| Schedules.Schedule.constructor | schedule.h:386-414 | ten empty queues, a budget of 12, and intervals of -1 for queues 0 to 4 and 2 q milliseconds for the others |
| Schedules.Schedule.PutMessage | schedule.cpp:7-26 | a message with the given type, identity, uid and payload, priority 1 and a wait of 0 for LLDP or else 1, stands at the end of its queue, and no other queue changes |
| Schedules.Schedule.Response | schedule.cpp:63-70 | the listener's loop over the queues is Respond on their messages; it changes something only if a sent and unfinished message has the identity |
| Schedules.Schedule.CleanPhase | schedule.cpp:109-117 | the clean-up of all queues takes the machine's ten steps, under interference |
| Schedules.Schedule.SendPhase | schedule.cpp:124-171 | one pass sends one message and pays for it, or finds nothing, under interference |
| Schedules.Schedule.Run | schedule.cpp:100-185 | the scheduler's loop takes exactly the steps of the machine, each after whatever the other threads do before it; objects, budget and connection end as the machine says |
| Proxy.PutFlowMod | schedule.cpp:7-26 | the message stands at the end of the queue decided on, and no other queue changes: type 14, identity the number in bytes 8 to 15 of the message received, the uid charged last; what is queued for an ADD parses to its filtered self exactly if it meets Survives, and to nothing with a residue or a second instruction behind one that lost actions; any other FLOW_MOD is queued as received; accounts and pointers move as stated; where the accounts of the window are exact, an ADD with removed actions is put on queue 7 exactly if its sender's share is above ln 2, else on queue 1; for any clock, every ADD is sorted by the last window booked on the slot that is read, slot 0 if it lost no action; queue 7 has an interval of 14 ms, the others it can go to have none |
| Proxy.PutPacketOut | schedule.cpp:7-26 | the message stands at the end of the queue decided on, and no other queue changes: type 13, the uid charged last, for LLDP the transaction id as identity and a wait of 0; what is queued parses to the filtered message, and under the same condition it is put on queue 8 exactly if its sender's share is above ln 2, else on queue 2, LLDP on queue 0; for any clock, by the last window booked on the slot that is read; queue 8 has an interval of 16 ms, the others it can go to have none |
| Proxy.IdentityOfEight | schedule.cpp:528-541 | an identity of eight bytes is their little-endian number |
| Proxy.IdentityOfFour | schedule.cpp:617-626 | the identity of an LLDP message is the little-endian number of its transaction id |
| Proxy.AddGoesByShare | schedule.cpp:532-541 | an ADD's queue from the log before its charges, for any pointers the accounts can have |
| Proxy.PacketOutGoesByShare | schedule.cpp:595-626 | the same for a PACKET_OUT |

## Left out

- Malformed messages: the rewriters check nothing of what they read, so they are modelled on messages that parse; an OXM payload has at least one byte, padding is zero, a SET_FIELD action is at least 16 bytes long.
- Messages whose parts do not fit the 600-byte scratch buffer: that they fit is a precondition, as the source does not test it.
- Proxy.PutFlowMod: an ADD without instructions is left out, because the source leaves its queue unset.
- Guarantees.FetchesAreSpaced: time is whole microseconds, not a double of milliseconds; at whole-millisecond intervals the comparison is the same.
- PriorityManager in a multi-threaded setting: its methods take no lock, and are modelled as running one at a time.
- Identities the source leaves uninitialised are an arbitrary parameter of the two putMessage methods.
- PACKET_IN, STATS_REQUEST and the default branch of getOFPMsgArg are not modelled as messages. A PACKET_IN goes to queue 0 if it is LLDP, else to queue 1; the other two go to queue 0. A STATS_REQUEST is also charged, with number 1, to the sender eid 0x55, uid 0x56: to the model that is one more charge in the log, which the theorems about the accounts leave open.
- STATS_REPLY: it is the event of a response offered to queue 0 of the other schedule.
- FEATURES_REPLY and the start of the listener thread: connection set-up.
- Priorities as doubles: ratios are real numbers, and exp enters only through the threshold ln 2.
- Window ids beyond 16 bits: the clock parameter has 16 bits, and its wrap-around is a step back.
- Short writes: a write appends all of a message to what was sent.
- Split as an object: the source copies Splits in and out of the ring by value, so it is a value here.
- The loop of Run ends where its script of interference does, while the source's runs for ever.
- pos_map, the markFinished with a position, decMsgTime, send_list, read_to_be_sent and the log files: unused, constant or display only.
