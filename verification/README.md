# A verified model of one node of the multiverse simulation

The simulation lets many peers exchange messages that form a directed acyclic graph, the tangle. Each peer stores what it
receives, in any order, and keeps several incremental records about it. This project models one node in Dafny, part by part
in the shape of the Go code, and proves what these parts promise, alone and together.

- **The pipeline** (`Storage`, `Solidifier`, `Requester`, `Booker`, `ApprovalManager`, `OpinionManager`, wired up by `Tangle`).
  Messages are stored; they become solid when their past cone is; they are coloured, counted as votes, approved and enqueued.
  Everything the node records is shown to equal a plain function of the stored graph (`Dag`, `Voting`, `Witnessing`,
  `Solidifier.MissingSet`) whenever the node has worked off an input, so that the order of delivery does not matter
  (`Convergence`). The handlers of one event are called in any order, since the order of attachment is not part of what is
  promised; children, parents and colours are iterated over in any order.
- **The ICCA+ scheduler** (`IccaScheduler`, over `Buffers`, `Schedule`, `Heaps` and `RoundRobin`): a deficit round robin with
  fractional rounds and a deficit cap. It is fair, serves a backlogged issuer in bounded time, loses no wake-up, trims the
  longest queue, and schedules who has to wait at most once and after the parents. Messages wait forever only for invalid or
  dropped ones.
- **The ManaBurn scheduler** (`ManaBurn`): a bounded priority queue that keeps the best messages and loses no wake-up.
- **The price of a slot** (`ManaCost`, and the tables of `Storage`): its bounds, and the burn that is enough in every run
  (`Prices`).
- **Opinions** (`Opinions`, `PeerWeights`, `Listing`): weights move with the latest votes, colours are confirmed by quorum, and
  the own opinion depends on the order of delivery in one case, which is described exactly.
- **Runs of nodes** (`Runs`): what two nodes are delivered or issue, in whatever order, is what they agree on; the failing
  inputs of what does not hold; and what still waits when the scheduler has nothing left to do.
- **The topology** (`WattsStrogatz`): rewiring keeps a simple graph, whatever is drawn.

Reading order: `Messages`, `Dag`, `Metadata`, `Storage`; then `Witnessing`, `Voting`, `Opinions`, `Buffers`, `RoundRobin`,
`Schedule`; then the classes `ICCAScheduler`, `ApprovalManager`, `Booker`, `Solidifier`, `Tangle`; finally `Listing`,
`Convergence`, `Runs` and `Prices`.

Objects of the program are classes with the same fields. A ghost field `view` of `Storage` mirrors the metadata objects as
values, so that most reasoning is about values; ghost histories record which events were announced. `float64` is `real`,
times are integers in nanoseconds, a time stamp that is only tested for being set is a boolean, and the bitmap of witnesses
is an array of bytes. Unsigned 64-bit wrap-around is written out in the running total of the weights and in the reported
changes; the weights of messages and colours are unbounded numbers that are shown to stay below the total, which is assumed
to fit 64 bits.

Five properties one might expect do not hold. Each has a failing input and the exact condition under which it holds:

- *The same messages lead to the same opinion.* A colour stays listed after all its voters went over to others
  (`multiverse/opinion_manager.go:105-121`), so where nobody with weight has voted, as for the peers that
  `network/utility.go:30-42` gives no weight, the order decides (`Runs.ChangeOfColor`). It does not matter iff somebody with
  weight has voted, or the smallest colour that any order lists is listed by all (`Listing.OpinionDeterminedIff`).
- *The same deliveries lead to the same stored messages.* The price of a slot depends on the slots that were touched before
  (`multiverse/storage.go:221`), so a message may be too cheap in one node and not in another (`Runs.OrderDecides`). Whoever
  burns the highest price that the slot can have, a number computed from the settings (`ManaCost.Highest`), is stored in every
  run (`Tangle.ProcessMessages`), and under settings without negative prices nobody else is (`Prices.Dearest`). Before the
  first update this is the initial price, and it is never above RMCmax where no other setting is.
- *A message is scheduled once, after its parents.* Validation blocks and own messages of a spammer bypass the scheduler and
  then enter it like any other (`Runs.ValidationOvertakes`, `Runs.ScheduledTwice`). It holds for every message that does not
  bypass, and exactly how often each message is scheduled is stated by `Tangle.SchedulingIsExact`.
- *The buffer holds at most MaxBuffer messages.* It is trimmed when a message is enqueued, but not when messages are woken up
  by a tick or a confirmation (`Runs.Overflow`). It overflows iff those that would have nothing to wait for are more than there
  is room for, which is known before (`Tangle.ScheduleMessage`, `ICCAScheduler.MessageConfirmed`).
- *Prices stay within their bounds.* Slots may be touched out of order, and a missing predecessor counts as zero
  (`ManaCost.OutOfOrder`, `ManaCost.AlwaysInRangeIff`). The upper bound holds in every order.

Where code and documentation disagree the model follows the code: of several heaviest colours the smallest number wins
(`multiverse/opinion_manager.go:181`), not the largest (`README.md:48`).

What is assumed of the environment: parents have smaller identities than their children and the genesis is 0
(`multiverse/messagefactory.go:24-29`, `multiverse/models.go:182-184`), sequence numbers start at 1 and are unique per issuer
(`multiverse/messagefactory.go:33`), weights are fixed after the setup, quanta are positive, and a walk yields each element at
most once (hive.go is not part of this model).

## Model

| member | source | states |
|---|---|---|
| Tangle.Tangle.ProcessMessage | multiverse/tangle.go:63-67 | delivering any message leaves a node at rest: everything solid that can be, booked, approved and enqueued, and exactly the missing parents requested; the message is stored iff it is new and burns what its slot costs, and only a new message touches its slot; nothing announced is taken back |
| Tangle.Tangle.ProcessMessages | main.go:181-213 | the same over any run of deliveries, issued messages, ticks, cost questions and request retries, in any order; what is stored afterwards was stored before, delivered, or asked to be issued; the identity of every own message is taken, and so is that of every delivered message that burns the highest price its slot can have; every tick of the run ticked, and every question touched its slot |
| Tangle.Tangle.ProcessInput | main.go:193-213 | what a single input does: a delivered message is stored iff it is affordable and new, a message is issued as asked for iff the access mana reaches its price, a tick credits and schedules, a question touches its slot, a retry changes no request |
| Tangle.Tangle.TicksAreCalls | main.go:200-205 | in every run the ticks that found a message are the calls of the round robin, and each of them scheduled another message |
| Tangle.Tangle.constructor | multiverse/tangle.go:27-61 | a node that was just set up is at rest, with nothing stored, priced, announced, scheduled or earned, and with the genesis time, quanta and weights it was given |
| Tangle.Tangle.Store | multiverse/storage.go:51-87 | storing disturbs no record of the other parts |
| Tangle.Tangle.ScheduleMessage | main.go:200-205 | a tick credits ten quanta of access mana to everybody and pops, iff some queue holds a message, one of the issuer that the round robin chooses: one with the least offset in its second, which is scheduled; the node stays at rest; those leave the waiting room that have nothing to wait for once that message is scheduled, and the queues exceed MaxBuffer iff these are more than there is room for |
| Tangle.Tangle.BurnValue | multiverse/icca_scheduler.go:118-122 | asking for a price touches the slot but leaves the node at rest; the answer is the price of the slot, and whether the own access mana is at least that |
| Tangle.Tangle.CreateMessage | multiverse/messagefactory.go:24-45 | an own message is created iff the access mana reaches the price; it burns exactly the price, carries the next sequence number, and the issuer does not get into debt |
| Tangle.Tangle.IssueMessage | multiverse/node.go:67-71 | an own message that was created, with what was asked for and the next number, is also stored, unless its identity was taken: its price cannot have changed since it was asked for |
| Tangle.Tangle.OwnMessagesArePaid | multiverse/messagefactory.go:24-45 | own messages carry different numbers, and over any run they burned no more than the ticks earned, because the access mana is what was earned without what they burned, and never negative |
| Tangle.Tangle.RecordsAreExact | multiverse/tangle.go:43-67 | between inputs solid flags, colours, the invalid set, bitmaps, weights, votes, colour weights, the listed colours, the own opinion and the requests equal the functions of the stored messages, and for the listed colours of the order of booking, that they cache |
| Tangle.NodesAgree | multiverse/tangle.go:63-67 | two nodes with the same stored messages agree on all that follows from these after any runs; on the own opinion if somebody with weight has voted, and also if the messages determine the smallest listed colour |
| Tangle.Tangle.EveryMessageResides | multiverse/icca_scheduler.go:69-100 | no lost wake-up: a message waits, is queued or was popped (one of the three) iff it is solid and valid; it waits iff moreover a parent was neither scheduled nor, where that is enough, confirmed; readyLen is the summed queue length |
| Tangle.Tangle.WaitsIffStuck | multiverse/icca_scheduler.go:77-100 | once no queue holds a message, a solid valid message still waits iff a chain of ineligible ancestors leads to one that is invalid or was dropped |
| Runs.Drain | multiverse/icca_scheduler.go:172-195 | which comes about after as many ticks as messages leave the queues, at most as many as were enqueued and not popped |
| Tangle.Tangle.SchedulingIsExact | multiverse/icca_scheduler.go:128-140 | a message was scheduled as often as it bypasses the scheduler, and once more if a tick served it; one that does not bypass was scheduled at most once, by a tick, and its parents are eligible; one that bypasses is scheduled iff it is booked, whether or not its parents are eligible |
| Tangle.Tangle.ScheduledAfterParents | multiverse/icca_scheduler.go:172-195 | at every scheduling event that did not bypass, each parent had been scheduled before, or was confirmed at the event and eligible by that |
| Tangle.Tangle.AncestorsAreJudged | multiverse/approvalweight_manager.go:66-73 | every ancestor of a confirmed message is confirmed or orphaned, never both |
| Tangle.Tangle.EventsAreExact | multiverse/solidifer.go:38-42 | exactly the solid messages were announced solid, each once and after its parents; exactly the confirmed ones were announced confirmed, each once |
| Tangle.Tangle.MissingAreRequested | multiverse/requester.go:45-87 | exactly the parents of stored messages that are not stored are pending, and a request went out for each |
| Tangle.Tangle.TimesAreExact | multiverse/storage.go:276-293 | the accepted tangle time is the latest issuance of a confirmed message, and every orphan was issued more than the committable age before it |
| Tangle.Tangle.ConfirmedAreHeavy | multiverse/approvalweight_manager.go:59-73 | a confirmed message weighs what its witnesses weigh, and at least the threshold times the total; a witnessed message that weighs that much is confirmed unless it was issued more than the committable age before the accepted tangle time |
| Tangle.Tangle.ConfirmationsAreDeserved | multiverse/opinion_manager.go:137-165 | over every run, each reported confirmation was that of the heaviest colour, leading by more than the threshold times the total weight at that time; each retraction was that of a colour that was no longer the heaviest; an opinion that leads by enough is confirmed |
| Tangle.Tangle.PricesAreBounded | multiverse/storage.go:180-188 | in a node at rest whose slots were first touched in order, all prices are within the bounds, constant within a period, and move by at most the step |
| Tangle.Tangle.PricesInRangeIff | multiverse/storage.go:221 | in whatever order the slots of a node were touched: no price was ever out of bounds iff each new price continued a known one or what it made of zero is within the bounds |
| Tangle.Tangle.PricesAreCapped | multiverse/storage.go:261-265 | no slot of a node ever costs more than the highest price, in any order of touches |
| Tangle.Tangle.PricesAreBelowHighest | multiverse/storage.go:211-274 | and none costs more than the highest price for that very slot, which is computed from the settings |
| Convergence.OrderDoesNotMatter | multiverse/tangle.go:63-67 | delivery-order independence on the level of states: equal stored messages imply equal records |
| Convergence.OwnOpinion | multiverse/opinion_manager.go:152-160 | the own opinion is a function of the stored messages and the order in which they were booked |
| Convergence.WeightDecides | multiverse/opinion_manager.go:177-187 | of the stored messages alone as soon as somebody with weight has voted |
| Convergence.MessagesDecide | multiverse/opinion_manager.go:177-187 | and without weight if the smallest colour that some order lists is listed by every order |
| Runs.TwoRuns | main.go:181-213 | two fresh nodes, each with own messages, that have the same messages delivered or issued, the delivered ones burning the highest price of their slots, in any order and with any other inputs between, store the same messages and so agree |
| Runs.NewRun | main.go:181-213 | a fresh node stores exactly what was delivered, if that burns the highest price of its slot, and what it issued |
| Runs.OrderDecides | multiverse/storage.go:221 | the failing input: message 1 burns the initial price in slot 0 and message 2 nothing in slot 1; who gets them in this order stores the first alone, who gets them in the other order stores both |
| Prices.Dearest | multiverse/storage.go:51-62 | the exact condition: for every message there is a run that stores it iff it burns the highest price of its slot, which is enough in every run |
| Prices.TrafficIsBest | multiverse/storage.go:169-178 | in that run each update counts as many messages as make the price highest, since the ranges of different updates share no slot |
| Prices.AskedIsDear | multiverse/storage.go:180-188 | so slots that are asked for in order have their highest prices, prefilled or not |
| Runs.Replay | multiverse/solidifer.go:30-52 | every order in which messages can be booked comes about in a node, by delivering them in it |
| Runs.TwoReplays | multiverse/opinion_manager.go:80-124 | so any two orders come about in two nodes with the same messages, with the opinions these orders lead to; they are equal if somebody with weight has voted or the smallest listable colour has an anchor |
| Runs.ChangeOfColor | multiverse/opinion_manager.go:105-121 | the failing input: a peer without weight goes over from colour 1 to 2, and the nodes that hear of this in different order keep the opinions 1 and 2 |
| Runs.ValidationOvertakes | multiverse/icca_scheduler.go:128-133 | a validation block whose parent still waits for a tick is scheduled at once |
| Runs.ScheduledTwice | multiverse/icca_scheduler.go:128-152 | a validation block on the genesis is scheduled when it is booked and again by the next tick |
| Runs.Overflow | multiverse/icca_scheduler.go:90-100 | with room for one message, a tick that schedules the parent of two waiting messages leaves two in the queues |
| Listing.ListedIff | multiverse/opinion_manager.go:95-121 | a colour is listed iff some message of it was booked before all that outdates it |
| Listing.ListedIsListable | multiverse/opinion_manager.go:95-121 | what any order lists is carried by a message that nothing in its past cone outdates |
| Listing.ListableIsListed | multiverse/opinion_manager.go:95-121 | and for each such colour there is an order that lists it |
| Listing.AnchoredIsListed | multiverse/opinion_manager.go:95-121 | every order lists a colour with an anchor: messages of it such that whatever outdates one of them is above one of them |
| Listing.Avoid | multiverse/opinion_manager.go:95-121 | and a colour without an anchor is avoided by some order |
| Listing.SmallestDeterminedIff | multiverse/opinion_manager.go:177-187 | all orders list the same smallest colour iff the smallest listable colour has an anchor |
| Listing.OpinionDeterminedIff | multiverse/opinion_manager.go:177-187 | all orders lead to the same own opinion iff somebody with weight has voted or the smallest listable colour has an anchor |
| Listing.LatestIsAnchored | multiverse/opinion_manager.go:95-121 | which holds when the smallest colour of all is the colour of a latest vote |
| Listing.StoringKeepsListing | multiverse/storage.go:71-86 | storing messages changes neither votes nor listed colours |
| Dag.ClosedAndCompleteIsSolidSet | multiverse/solidifer.go:30-52 | a parent-closed set that overlooks no message is the set of solid messages |
| Dag.SolidIffConeStored | multiverse/solidifer.go:54-87 | a message is solid iff it and all parents within its past cone are stored, down to the genesis |
| Dag.SolidGrows | multiverse/solidifer.go:40-42 | storing more messages never takes solidity away |
| Dag.MonochromeCone | multiverse/booker.go:48-64 | along strong paths of valid messages a message reaches only its own colour and uncoloured messages |
| Dag.BlendIsInherited | multiverse/booker.go:48-64 | a colour that all colours met agree on is the inherited one, so the order of parents does not matter |
| Dag.ColorFixed | multiverse/booker.go:48-64 | what is stored later does not change the colour of a solid message |
| Dag.ConeFixed | multiverse/approvalweight_manager.go:52-84 | past cones of solid messages never change |
| Solidifier.Solidifier.Solidify | multiverse/solidifer.go:30-52 | after the recursive call the message and everything it completes is solid, booked and approved; nothing becomes overlooked; missing parents are requested and nothing else; the recursion ends because the stored messages that are not solid become fewer |
| Solidifier.Solidifier.SolidifyAll | multiverse/solidifer.go:43-50 | the same for a set of children |
| Solidifier.Solidifier.SetSolid | multiverse/solidifer.go:38-42 | the flag of a message with solid parents is set; a message is announced once, after its parents |
| Solidifier.Solidifier.Announce | multiverse/solidifer.go:42 | the handlers bring all parts back in step with the solid messages, in either order |
| Solidifier.Solidifier.MessageSolid | multiverse/solidifer.go:54-64 | solid iff all parents are, of both kinds; every parent that is not stored is requested, even after one was found missing |
| Solidifier.Solidifier.ParentsSolid | multiverse/solidifer.go:66-87 | the same for one kind of parents |
| Solidifier.NoneOverlooked | multiverse/solidifer.go:30-52 | when no message is overlooked the solid flags mark exactly the solid messages |
| Solidifier.NothingStillMissing | multiverse/requester.go:38-69 | stopping the request of a stored message and starting those of its parents, in either order, leaves exactly the missing messages requested |
| Pipeline.BecomingSolid | multiverse/solidifer.go:38-42 | announcements stay unique and after those of the parents |
| Pipeline.StoringKeepsApprovals | multiverse/storage.go:71-86 | bitmaps, weights and judgements stay exact when a message is stored |
| Pipeline.StoringKeepsBookings | multiverse/storage.go:71-86 | so do colours, votes, the invalid set and the set of enqueued messages |
| Pipeline.BookingKeeps | multiverse/booker.go:32-46 | booking leaves solidity and approvals as they are |
| Pipeline.ApprovalKeeps | multiverse/approvalweight_manager.go:41-85 | approving leaves solidity and bookings as they are |
| Pipeline.BookedValid | multiverse/booker.go:43-45 | colouring, voting and enqueueing one more message keeps the bookings exact |
| Pipeline.BookedInvalid | multiverse/booker.go:36-40 | a message in which colours conflict changes no vote and is reported invalid |
| Pipeline.DatedConfirmed | multiverse/storage.go:280-293 | accepting a confirmed message keeps the accepted slots and the accepted tangle time exact |
| Requester.Requester.StartRequest | multiverse/requester.go:45-56 | the identity is pending afterwards, and a request goes out iff it was not |
| Requester.Requester.StopRequest | multiverse/requester.go:58-69 | only this identity is no longer pending |
| Requester.Requester.Retry | multiverse/requester.go:79-88 | a pending request is sent again, any other is not, and what is pending stays |
| Booker.Booker.Book | multiverse/booker.go:32-46 | booking a solid message whose parents are booked colours it, counts its vote and enqueues it, or reports it invalid, and keeps all bookings exact; only a valid message that bypasses the scheduler is scheduled by it |
| Booker.Booker.InheritColor | multiverse/booker.go:48-64 | an error iff colours conflict, else the inherited colour of the graph, for every order of the parents |
| Booker.Booker.ColorsOfStrongParents | multiverse/booker.go:66-76 | exactly the recorded colours of the strong parents that are not the genesis |
| Booker.Booker.MessageBooked | multiverse/node.go:48-51 | voting and enqueueing commute |
| Booker.PaletteIsRecorded | multiverse/booker.go:66-76 | the recorded colours of booked parents are the ones the graph gives them |
| ApprovalManager.ApprovalManager.ApproveMessages | multiverse/approvalweight_manager.go:41-85 | after approving, the bitmaps hold exactly the issuers of approved validation blocks above each message, weights are the sums over set bits, whoever reached the threshold is confirmed or orphaned; newly confirmed is nobody who had been issued more than the committable age before the accepted tangle time, newly orphaned nobody who has not been by now; each confirmation was announced once |
| ApprovalManager.ApprovalManager.Walk | multiverse/approvalweight_manager.go:52-84 | the walk ends, and stopping at set bits loses no message of the past cone |
| ApprovalManager.ApprovalManager.Visit | multiverse/approvalweight_manager.go:57-83 | a visit sets the bit of the peer on this message alone, once, and follows the parents iff it did; no message ever weighs more than all peers together |
| ApprovalManager.ApprovalManager.Judge | multiverse/approvalweight_manager.go:63-74 | a message that weighs at least the threshold times the total and is not judged yet is orphaned if it was issued more than the committable age before the accepted tangle time, and confirmed otherwise; no other is judged |
| Witnessing.WalkEnds | multiverse/approvalweight_manager.go:59-84 | when nothing is pending, the bits are exact for one more validation block: set bits are closed under parents |
| Witnessing.WalkSteps | multiverse/utils.go:29-34 | one visit keeps the walk on course, whichever pending message it picks |
| Witnessing.WitnessCounts | multiverse/approvalweight_manager.go:59-63 | weight and bitmap stay in step, and only the visited message may have to be judged |
| Witnessing.ConfirmationClosure | multiverse/approvalweight_manager.go:64-73 | every ancestor of a confirmed message is confirmed or orphaned, whatever the threshold is |
| Witnessing.WitnessesOfAncestors | multiverse/approvalweight_manager.go:76-82 | who witnesses a message witnesses its past cone |
| Witnessing.WeightWithinTotal | multiverse/approvalweight_manager.go:62 | no message weighs more than all peers together |
| Metadata.SetBitAddsWitness | multiverse/approvalweight_manager.go:58-61 | setting the bit of a peer adds that peer to the witnesses and no other |
| Walker.Walker.PushAll | multiverse/utils.go:24-27 | elements that were pushed before are not pushed again |
| Walker.Walker.Next | multiverse/utils.go:29-30 | a pending element is yielded and removed, in any order |
| Voting.OneMoreVote | multiverse/opinion_manager.go:80-124 | updating by sequence number keeps, for each issuer, the vote with the highest number among the booked messages, in any order of booking |
| Voting.LatestVotesAreUnique | multiverse/opinion_manager.go:95-98 | with unique sequence numbers the latest votes are determined by the messages |
| Voting.StoringKeepsVotes | multiverse/storage.go:71-86 | storing a message changes no vote |
| Opinions.OpinionManager.FormOpinion | multiverse/opinion_manager.go:70-78 | afterwards the votes are updated, colour weights are the summed weights of the voters, exactly a counted colour is newly listed, the reported changes sum up to the weights, none of which wraps; where weights moved, the own opinion is the heaviest colour, it is confirmed iff it was and stayed the same or leads by more than the threshold, and exactly these changes are announced; otherwise nothing changes |
| Opinions.OpinionManager.UpdateWeights | multiverse/opinion_manager.go:80-124 | the weight of an issuer moves with its vote; exactly the colours of counted votes are listed, and none is ever taken off; no subtraction goes below zero and no sum exceeds 64 bits; the lowest weight is reported iff the confirmed own opinion lost the vote and no longer passes |
| Opinions.OpinionManager.WeightsUpdated | multiverse/opinion_manager.go:152-160 | the own opinion becomes the heaviest colour; it is confirmed iff it was before and stayed the same, or leads by more than the threshold; exactly a lost confirmation is retracted and exactly a new one announced |
| Opinions.OpinionManager.UpdateConfirmation | multiverse/opinion_manager.go:137-148 | confirmations and retractions alternate, and each retraction names the colour confirmed last |
| Opinions.OpinionManager.CheckColorConfirmed | multiverse/opinion_manager.go:162-175 | passes iff the colour leads by more than the threshold, over nothing or over the heaviest other colour |
| Opinions.GetMaxOpinion | multiverse/opinion_manager.go:177-187 | finds the heaviest colour, the smallest among equals, for every iteration order |
| Opinions.WeightIsConserved | multiverse/opinion_manager.go:105-121 | all colours together weigh exactly what the peers that voted weigh, any colours at most that, and never more than all peers |
| Opinions.ColorsWithinTotal | multiverse/opinion_manager.go:105-121 | two colours share no voter, so together they weigh no more than the peers that voted |
| Opinions.ColorFits | multiverse/opinion_manager.go:118 | where all peers together fit 64 bits, so does the weight of every colour |
| Opinions.SameWinner | multiverse/opinion_manager.go:177-187 | tables of equal weights have the same winner as soon as any colour weighs something |
| Opinions.ReportedChangeIsReal | multiverse/opinion_manager.go:108-119 | the reported 64-bit changes are the real ones exactly for weights below 2^63 (2^63 itself for the decrease) |
| Opinions.QuorumIntersection | multiverse/opinion_manager.go:162-175 | two nodes that pass the check for different colours, in either mode, record different votes for peers that weigh more than twice the threshold exceeds half of the total |
| Opinions.OneMajority | multiverse/opinion_manager.go:162-175 | one node never passes it for two colours if T is at least one half, or at least zero where leads are compared |
| Opinions.TwoMajoritiesIff | multiverse/opinion_manager.go:162-164 | with the absolute check one node can pass two colours iff half of the total weight, rounded down, exceeds the threshold |
| PeerWeights.ConsensusWeightDistribution.SetWeight | network/consensus_weight.go:20-35 | the running total is the 64-bit sum of the table; the largest weight stays an upper bound |
| PeerWeights.ConsensusWeightDistribution.RescanForLargestWeight | network/consensus_weight.go:53-60 | a rescan finds the exact maximum |
| PeerWeights.LargestStaysExact | network/consensus_weight.go:24-34 | the largest weight stays exact iff the update does not make the only heaviest peer lighter |
| PeerWeights.SumUnion | network/consensus_weight.go:37-47 | weights of sets of peers add up by inclusion and exclusion |
| IccaScheduler.ICCAScheduler.ScheduleMessage | multiverse/icca_scheduler.go:172-195 | a tick pops exactly one message iff some queue holds one: the first one of the issuer that the deficit round robin selects; it is scheduled; exactly the waiting messages that became eligible are queued, and readyLen changes by their number less one |
| IccaScheduler.ICCAScheduler.SelectIssuer | multiverse/icca_scheduler.go:198-215 | finds the backlogged issuer with the least rounds to wait, the first of them from the pointer, and leaves the pointer where it was |
| IccaScheduler.ICCAScheduler.Credit | multiverse/icca_scheduler.go:177-185 | everybody earns the rounds, issuers before the selected one a quantum more; the pointer loop ends at the selected issuer |
| IccaScheduler.ICCAScheduler.Serve | multiverse/icca_scheduler.go:177-190 | settling and popping is one step of the round robin |
| IccaScheduler.ICCAScheduler.IncrementDeficit | multiverse/icca_scheduler.go:276-283 | one deficit changes, and not beyond the cap |
| IccaScheduler.ICCAScheduler.ServedFairly | multiverse/icca_scheduler.go:172-215 | over any last ticks, issuers that stay backlogged are served in proportion to their quanta up to 1 + MaxDeficit/q_i + MaxDeficit/q_j |
| IccaScheduler.ICCAScheduler.ServedInTime | multiverse/icca_scheduler.go:172-215 | an issuer that was backlogged over the last ticks was served within them if they exceed a bound computed from the quanta and the cap, for every positive quantum and every cap of at least one |
| IccaScheduler.ICCAScheduler.ServedInTimeWithRoom | multiverse/icca_scheduler.go:172-215 | a shorter bound for an issuer whose quantum and the price of a message fit under the cap |
| IccaScheduler.ICCAScheduler.ServedSoon | multiverse/icca_scheduler.go:172-215 | with a deficit of at least one before these it was served within (N - 1) * floor(MaxDeficit) + 1 ticks |
| IccaScheduler.ICCAScheduler.EnqueueMessage | multiverse/icca_scheduler.go:124-155 | the message enters exactly one buffer, by the eligibility of its parents; if it bypasses the scheduler it is scheduled at once, once for each reason, and its children are woken up; readyLen grows by what was woken up and entered, up to MaxBuffer; messages are dropped iff it would grow beyond that, each the head of a longest queue |
| IccaScheduler.ICCAScheduler.UpdateChildrenReady | multiverse/icca_scheduler.go:77-88 | afterwards no message with eligible parents waits, and readyLen grew by the number of those that did |
| IccaScheduler.ICCAScheduler.MarkScheduled | multiverse/icca_scheduler.go:192-194 | one scheduling event of a message that bypasses or has eligible parents; telling the children twice changes no more than telling them once |
| IccaScheduler.ICCAScheduler.SetReady | multiverse/icca_scheduler.go:90-100 | a waiting message moves to the queue of its issuer, all others stay |
| IccaScheduler.ICCAScheduler.MessageConfirmed | multiverse/icca_scheduler.go:69-74 | the handler wakes up exactly what waited for the confirmed message if confirmation makes eligible, and accepts the message in its slot; the queues exceed MaxBuffer afterwards iff it wakes up more messages than there is room for |
| IccaScheduler.ICCAScheduler.BufferManagement | multiverse/icca_scheduler.go:157-170 | ends with the smaller of the old length and MaxBuffer; each drop comes from a nonempty queue that was longest relative to its quantum at that moment, the last one if there were several, and no message that stays has a smaller offset in its second than one of its queue that was dropped |
| IccaScheduler.ICCAScheduler.LongestIssuer | multiverse/icca_scheduler.go:159-167 | finds the last issuer of maximal scaled queue length |
| IccaScheduler.ICCAScheduler.Push | multiverse/icca_scheduler.go:256-261 | one queue gains the message and stays a heap; readyLen stays the summed length |
| IccaScheduler.ICCAScheduler.Pop | multiverse/icca_scheduler.go:263-268 | one queue loses a message with the least offset in its second |
| IccaScheduler.ICCAScheduler.StorageChanged | multiverse/icca_scheduler.go:69-88 | records of other parts cannot disturb the buffers unless they make a message eligible |
| IccaScheduler.ICCAScheduler.DecreaseNodeAccessMana | multiverse/icca_scheduler.go:112-116 | paying leads into debt exactly if it exceeds the access mana |
| Schedule.OneMoreScheduled | multiverse/icca_scheduler.go:192-194 | an event that bypasses, or whose message has eligible parents, keeps the log in order |
| Schedule.OneMoreEnqueued | multiverse/icca_scheduler.go:128-140 | a message that enters was scheduled never before, and then as often as it bypasses |
| Schedule.OnceAndAfterParents | multiverse/icca_scheduler.go:172-195 | a scheduled message that does not bypass occurs once in the log, was served by a tick, and has eligible parents |
| Schedule.JustifiedKept | multiverse/icca_scheduler.go:69-74 | storing and confirming messages keeps the log in order |
| Buffers.OneMoreEligible | multiverse/icca_scheduler.go:77-88 | when one message becomes eligible, only its children can have become ready |
| Buffers.ChildrenWereAll | multiverse/icca_scheduler.go:77-88 | once its ready children moved, nothing with eligible parents waits |
| Buffers.Popping | multiverse/icca_scheduler.go:263-268 | a popped message leaves the one place it was in |
| Buffers.OneMoreDropped | multiverse/icca_scheduler.go:157-170 | dropping heads one by one leaves, in every queue, only messages whose offset in the second is no smaller than those of the dropped ones |
| Buffers.EnteringReady | multiverse/icca_scheduler.go:142-145 | a message whose parents are eligible enters the queue of its issuer and no other place |
| Buffers.EveryoneIsSomewhere | multiverse/icca_scheduler.go:124-155 | conservation: the number of enqueued messages is that of the waiting, queued and popped ones |
| Buffers.EligibleIsForeseen | multiverse/icca_scheduler.go:77-88 | who has nothing to wait for after a message was scheduled and its children were told is known before |
| Buffers.WaitingIsStuck | multiverse/icca_scheduler.go:77-100 | waiting has no cycles: if everybody who waits is kept waiting by somebody who waits or is bad, chains end at the bad |
| RoundRobin.Fairness | multiverse/icca_scheduler.go:172-215 | fairness of the deficit round robin for every run and every two backlogged issuers |
| RoundRobin.BoundedWait | multiverse/icca_scheduler.go:172-215 | bounded wait for every run, every positive quantum and every cap of at least one |
| RoundRobin.BoundedWaitWithRoom | multiverse/icca_scheduler.go:172-215 | a shorter bound where the cap leaves room for a quantum above the price of a message |
| RoundRobin.ShortWait | multiverse/icca_scheduler.go:172-215 | the short bound for an issuer that can already pay |
| RoundRobin.BackloggedIsNotClipped | multiverse/icca_scheduler.go:276-283 | the cap never clips a backlogged issuer with 1 + quantum within the cap |
| RoundRobin.DeparturesAreEven | multiverse/icca_scheduler.go:181-185 | the pointer leaves any two issuers behind equally often, up to one |
| RoundRobin.StepKeepsDeficits | multiverse/icca_scheduler.go:172-195 | deficits stay between zero and the cap |
| RoundRobin.SelectionIsUnique | multiverse/icca_scheduler.go:198-215 | the choice is determined by the deficits, the backlog and the pointer |
| RoundRobin.LeastRounds | multiverse/icca_scheduler.go:198-215 | the rounds are the least after which a backlogged issuer has a deficit of one, and the chosen issuer is the first on the ring that has it then |
| RoundRobin.StepSettles | multiverse/icca_scheduler.go:177-190 | each deficit grows by the rounds and, if the pointer passed the issuer, by a quantum more, both times up to the cap; the chosen issuer pays one |
| RoundRobin.PaidBeforeDrops | multiverse/icca_scheduler.go:172-215 | while an issuer that can pay waits, each call uses up a paid message of somebody before it |
| Heaps.Push | multiverse/icca_scheduler.go:256-261 | keeps the heap and adds exactly the message |
| Heaps.Pop | multiverse/icca_scheduler.go:263-268 | keeps the heap and takes out a message that comes no later than any other |
| Heaps.RemoveAt | multiverse/manaburn_scheduler.go:166-171 | keeps the heap and takes out exactly the message at the index |
| Heaps.Tail | multiverse/scheduler.go:117-124 | finds a message that comes no earlier than any other |
| Heaps.RootComesFirst | multiverse/scheduler.go:90-98 | the root of a heap comes no later than any of its messages: it burns more, or as much (if burns count) with no larger offset in its second |
| ManaBurn.MBScheduler.EnqueueMessage | multiverse/manaburn_scheduler.go:149-164 | a ready message becomes a contender, any other waits; the queue holds the MaxBuffer best of all contenders; nobody waits who is ready |
| ManaBurn.MBScheduler.SetReady | multiverse/manaburn_scheduler.go:114-122 | a waiting message becomes a contender, and the queue is trimmed to the best |
| ManaBurn.MBScheduler.UpdateChildrenReady | multiverse/manaburn_scheduler.go:101-112 | exactly the waiting children that are ready become contenders |
| ManaBurn.MBScheduler.ScheduleMessage | multiverse/manaburn_scheduler.go:136-147 | serves a message of the highest burn in the queue and of the least offset in its second among those, takes that burn from its issuer unless that is the own peer, and makes contenders of all messages that became ready, so that nobody waits who is ready |
| ManaBurn.MBScheduler.MessageConfirmed | multiverse/manaburn_scheduler.go:37-42 | the handler makes contenders of all messages that became ready by the confirmation, if confirmation makes eligible, and accepts the message in its slot |
| ManaBurn.OneMoreEligible | multiverse/manaburn_scheduler.go:101-112 | when one message becomes eligible, only its children can have become ready |
| ManaBurn.MBScheduler.BufferManagement | multiverse/manaburn_scheduler.go:166-171 | the MaxBuffer best of the queue remain |
| ManaBurn.MBScheduler.GetMaxManaBurn | multiverse/manaburn_scheduler.go:128-134 | the highest burn in the queue, zero if it is empty |
| ManaBurn.BestOfBest | multiverse/manaburn_scheduler.go:114-122 | trimming after every arrival keeps the best of all arrivals |
| ManaBurn.BestIsUnique | multiverse/scheduler.go:90-98 | the best are determined up to exchanging messages of equal burn and time |
| Storage.Storage.Store | multiverse/storage.go:51-87 | a known or too cheap message is not stored; a new one touches its slot and enters all tables, with metadata of its own that is orphaned iff it was issued more than the committable age before the accepted tangle time |
| Storage.Storage.StoreChildReferences | multiverse/storage.go:105-113 | each named parent gains the child, and nothing else changes |
| Storage.Storage.IsReady | multiverse/storage.go:115-142 | ready iff solid with eligible parents |
| Storage.Storage.RMC | multiverse/storage.go:180-188 | the answer is the price of the slot after one more touch, and the tables stay in order |
| Storage.Storage.NewRMC | multiverse/storage.go:211-274 | the loops compute the price step that the bounds are proved of |
| Storage.Storage.AddToAcceptedSlot | multiverse/storage.go:280-293 | the accepted tangle time is the latest issuance accepted |
| Storage.Storage.MessagesCountInRange | multiverse/storage.go:169-178 | counts the stored messages that were issued in the slots |
| Storage.CountIsNumberOfMessages | multiverse/storage.go:169-178 | counting slot by slot is counting the messages of the slots |
| Storage.ChildrenStayIndexed | multiverse/storage.go:84-85 | the child tables list, for every parent, exactly the stored messages that name it |
| Storage.SlotsStayIndexed | multiverse/storage.go:70 | the slot table lists every stored message in the slot of its issuance |
| Storage.SlotIffTime | multiverse/storage.go:144-147 | the interval of times that each slot holds |
| Storage.TrafficIsAverage | multiverse/storage.go:228-231 | the traffic is the number of messages stored in a period of slots that ends one committable age back, divided by the period |
| ManaCost.CostsStayBounded | multiverse/storage.go:211-274 | when slots are first touched in order, all prices stay within the bounds, are constant within a period and move by at most the step between periods, despite entries filled in ahead |
| ManaCost.PriceStep | multiverse/storage.go:211-274 | the price of a slot is carried on unless the slot begins an update period after the initial time; there it falls or rises by a step, limited by the bounds, as the traffic is below the lower or above the upper threshold, for the whole period |
| ManaCost.ConstantWithinPeriod | multiverse/storage.go:223-227 | slots of one period have one price |
| ManaCost.SlotsHaveCost | multiverse/storage.go:57-62 | every slot with messages has a price |
| ManaCost.AskingPrefilledChangesNothing | multiverse/storage.go:180-188 | asking for a slot that was filled in ahead computes the same price again |
| ManaCost.InRangeIffGrounded | multiverse/storage.go:211-274 | a new price is within the bounds iff it is that of the first slot, continues a known price, or what it makes of the price zero of an unknown one is within them |
| ManaCost.OutOfOrder | multiverse/storage.go:221 | the failing input: the first slot touched is not slot 0, and gets the price zero |
| ManaCost.AlwaysInRangeIff | multiverse/storage.go:211-274 | over every run of touches in any order: prices never leave the bounds iff that holds of every new price |
| ManaCost.NeverAboveMaximum | multiverse/storage.go:261-265 | over every run of touches in any order no price exceeds the highest one |
| ManaCost.NeverAboveHighest | multiverse/storage.go:211-274 | over every run of touches no price exceeds the highest one of its slot |
| ManaCost.HighestIsReached | multiverse/storage.go:211-274 | and every slot has its highest price after some run |
| ManaCost.PaysAlwaysIff | multiverse/storage.go:57-62 | so a burn reaches the price of a slot after every run of touches iff it reaches the highest price, for all settings |
| ManaCost.HighestIsCapped | multiverse/storage.go:261-265 | which is at most RMCmax where no setting exceeds that |
| ManaCost.HighestBeforeUpdates | multiverse/storage.go:221-232 | and which before the first update is the initial price, or zero if that is negative |
| ManaCost.KnownPriceStays | multiverse/storage.go:57-62 | storing a message does not change the price of a slot that has one |
| WattsStrogatz.Peer | network/network.go:269-328 | an odd mean degree is rejected; otherwise peers are connected along the lattice rewired as coins and draws decided, neighbours are symmetric, and for a mean degree below the number of nodes nobody is its own neighbour and degrees total N * k, for every sequence of draws |
| WattsStrogatz.Lattice | network/network.go:278-284 | each node leads to the next k / 2 nodes of the ring |
| WattsStrogatz.LatticeIsSimpleIff | network/network.go:278-284 | the lattice has neither a self-loop nor an edge in both directions iff k is below the number of nodes |
| WattsStrogatz.RewireNode | network/network.go:287-297 | every edge of the node gets a coin, in any order and whether or not added edges are visited too; afterwards the node leads to exactly what was drawn and what no coin led away; edges of other nodes and degrees stay, and a simple graph stays simple |
| WattsStrogatz.Rewire | network/network.go:286-298 | each node has one turn, in any order, and leads afterwards to exactly what its coins and draws decided; degrees stay and a simple graph stays simple; it fails only when the random source ran out |
| WattsStrogatz.RewiringKeeps | network/network.go:290-295 | leading one edge to an acceptable node moves that edge and no other, keeps degrees, and keeps a simple graph simple |
| WattsStrogatz.HeadsAfter | network/network.go:286-298 | after its turn a node leads to exactly those heads that were drawn for it or that it had before, and that no later coin led away |
| WattsStrogatz.DrawHead | network/network.go:289-292 | the rejection loop takes the first acceptable draw, if there is one |
| WattsStrogatz.Connect | network/network.go:299-320 | peers are neighbours iff an edge leads from one to the other; degrees of a simple graph total twice its edges |
| WattsStrogatz.OneMoreEdge | network/network.go:304-316 | connecting both ways adds two neighbours unless they were neighbours before |

## Left out

- Sockets, delays, packet loss, gossip, metrics, tickers, shutdown, logging and flags: input and output. Delivery is an arbitrary sequence of inputs, and a retry of a request is an input.
- Tip selection (`multiverse/tipmanager.go`): depends on random draws and the clock. Parents are arbitrary among earlier identities.
- `adversary/` and `singlenodeattacks/`: they set opinions from outside; what is proved of the own opinion is about the base manager.
- Mutexes: all changes of one node happen on one goroutine.
- Floating-point rounding: quanta, deficits, burns and thresholds are reals. The search for an issuer starts from no candidate instead of from the largest float.
- Times of arrival, enqueueing, scheduling, dropping and confirmation: only whether scheduling, confirmation and orphanage happened. The test for an orphan uses issuance times.
- IccaScheduler.ICCAScheduler.SetReady: does not trim the buffer, as in the code, so MaxBuffer can be exceeded until the next message is enqueued.
- IccaScheduler.ICCAScheduler.UpdateChildrenReady: says that only the mark of being ready changes, but not of which children; the program sets that mark (`multiverse/models.go:107-113`) and never reads it.
- IccaScheduler.ICCAScheduler.ServedFairly: counts ticks that found a backlog, since the other ticks change nothing.
- Heaps.RootComesFirst: compares the offset within the second, as in the code; it is not the age of a message.
- ManaBurn.MBScheduler.EnqueueMessage: has its readiness from the same storage, but is not wired up with the pipeline, which is done for ICCA+ only, where the code is the same.
- Accrual of mana and burn policies of ManaBurn, and the rate setter: simple arithmetic, or inputs.
- Prices.Dearest: is about settings for which no price can be negative (initial price, RMCmax and the increase are at least zero, and no update comes before slot 1). For all other settings `ManaCost.PaysAlwaysIff` states the same over arbitrary sequences of touches, whose counts of messages may not come about.
- Runs.TwoRuns: two nodes whose deliveries burn less than the highest price of a slot may differ; which of them are stored then depends on every slot touched before.
- Opinions.OpinionManager.UpdateWeights: an opinion is a value in the table rather than an object behind a pointer.
- Settings are read from one immutable value; `NodesCount` issuers exist from the start, and messages of other issuers are not delivered.
- WattsStrogatz.Peer: connections carry no delay or loss, and running out of draws stands for a rejection loop that does not end.
- The unused parts of the program: weak parents' colours, trimming of identity sets, slots per count, the alternative price rule in comments.
