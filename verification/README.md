# PlexSpaces actor runtime: a verified model

This project models the bookkeeping of the PlexSpaces actor runtime (`crates/actor`) in Dafny and proves what it keeps
over every run: the link and monitor tables and the protocol that keeps them consistent across nodes, the spread of
failures over links, the activation guard of virtual actors, the supervision forest, the registration tables, the
discovery cache in front of the object registry, ask correlation, the race between stop and the termination watcher,
connection pooling, exit-reason conversions, and the protobuf frames of the WebSocket load test.

Check everything with `dafny verify dfyconfig.toml`.

## How it is built

| file | what it holds |
|---|---|
| `ActorIds.dfy`, `ExitReasons.dfy` | canonical actor identities; exit reasons over protobuf, as text, and as a message header |
| `LinkTable.dfy`, `MonitorTable.dfy`, `ActorMonitor.dfy` | link and monitor tables as values; the class that updates them in place; handling of one termination |
| `LinkProtocol.dfy` | link and unlink between nodes with calls under way: what nodes believe (`LinkBeliefs`), refined by their tables (`LinkProtocol`) |
| `LinkRaces.dfy`, `LinkEcho.dfy` | the same protocol with guard read and write taken apart, and with actors that end: when nodes agree, and whether calls come to rest |
| `DownDelivery.dfy` | DOWN notifications over whole runs |
| `ExitCascade.dfy`, `CascadeOrder.dfy`, `CascadeOutcomes.dfy`, `CascadeBlame.dfy` | how one failure spreads over links; who can die in some order of deliveries; every set of actors a cascade can leave dead; whom each of them blames |
| `ActivationGuard.dfy`, `ActivationOutcomes.dfy` | any number of callers racing to activate one virtual actor, which may also be passivated or activated elsewhere; what each caller is told and the order of arrival, from the events of a run |
| `Supervision.dfy`, `RegistryIndex.dfy`, `ActorRegistry.dfy` | parent and child maps; live, registered and indexed actors; the class that updates them in place |
| `SupervisionRaces.dfy`, `RegistryRaces.dfy` | the same maps and tables with the lock sections of an operation apart |
| `DiscoveryCache.dfy`, `Discovery.dfy` | the LRU and TTL cache as a recency list (`RecencyList`) and as map plus queue; the helpers around it |
| `DiscoveryAnswers.dfy` | what the helpers answer, from the history of calls; which cached answers a write drops; the limits of the cache |
| `DiscoveryRaces.dfy` | the helpers running side by side |
| `Asks.dfy`, `AskHistory.dfy` | pending asks and the local ask call; which outcome an ask returns, from the events of a run |
| `StopWatch.dfy` | explicit stops racing with the watcher of the actor's message loop |
| `ConnectionPool.dfy` | round-robin pools as values (`RoundRobin`) and as classes (`ConnectionPool`) |
| `Frames.dfy`, `FrameContents.dfy`, `FrameLoops.dfy` | varints (`Varints`) and the frames built from them (`Frames`); what a frame says field by field; the parser's loops on arbitrary bytes |

Objects that update fields are classes whose methods are proved against specification functions on values; runs are
sequences of events or operations, and every main result holds for all of them.

## What the model found

* **Link and unlink.** If a call reads its guard and writes in one step, then whenever two nodes disagree about a pair a
  call under way carries one side's value to the other, so the tables agree once nothing is under way. But nothing may
  never be under way: if a link and an unlink for the same pair are in flight together, some order of deliveries echoes
  them forever, and only then (`QuietIffUnmixed`).
* **Silent writes.** The code reads the guard and writes under two locks. A write whose guard said "already so" but no
  longer holds changes its own node and tells nobody; the nodes then disagree until a later call changes a view
  (`SilentWriteReachable`). In a quiet end the nodes of a pair agree iff, since the last told write of the pair and the
  taking of its call, the silent writes of its two views are both odd or both even in number (`AgreeIff`,
  `QuietSplits`); in particular if no call about the pair is disturbed between its read and its write, by another write
  of the same view or by the end of the actor it belongs to (`UndisturbedConverges`).
* **Echoes.** With read and write apart, calls come to rest in every order iff for every pair one kind can no longer be
  passed on, or both are about to run out (`QuietIffCalm`).
* **Ended actors.** The end of an actor cleans its own node only: nodes that agreed still do iff it had no link to
  another node (`EndKeepsAgreementIff`).
* **Exit spelling.** The sender prints reasons in lower case, the receiver parses capitalised tags. A trapping actor
  that chooses to propagate therefore ends `Normal` unless the text happens to start with `Error:` or `Linked:`. Which
  message reaches it first can then decide who dies; `DeadSetIff` lists every set of actors a cascade can leave dead,
  `MayDieIff` says who can die and `AlwaysGoneIff` who must.
* **`Killed` does not propagate.** Comments say it does; `is_error` covers `Error` and `Linked` only, and the model
  follows the code.
* **Who is blamed.** Whoever dies of a link without trapping names the actor whose EXIT it took, which had an error and
  was linked to it at the start (`BlameIsRight`, `ExitNamesTheBlamed`).
* **Stranded messages.** A caller that wins the guard when the actor already runs, or whose activation finds it running,
  reports success while its message stays in the pending queue (`LateWinnerStrands`). A queued message arrives iff the
  queue is drained afterwards (`QueuedArrivesIff`, `WinnerArrivesIff`).
* **Missed wake-up.** `notify_waiters` wakes only those already listening; a caller refused by a guard that is released
  before it listens waits forever (`MissedWakeUpReachable`, `MissedIsForever`).
* **Lost replies.** A reply is reported delivered and lost iff the ask times out and the reply came between its last look
  at the channel and the drop of the receiving half, or its dispatch is reported failed and the actor answered all the
  same before the cancel (`LostReplyIff`, `LostReplyReachable`, `LostToFailureReachable`).
* **Overlapping registrations.** Operations take their locks one after another. An unregister between the live insert and
  the index push of a register leaves an index member that is not registered (`RegistryRaces.OverlapBreaks`), two
  registrations of one child leave it on two lists (`SupervisionRaces.OverlapBreaks`). If operations on the same
  identity do not overlap the tables stay coherent (`SerialIsCoherent`, `SerialIsInverse`).
* **Stale stopping flag.** A stop that marks after the watcher has looked leaves its mark behind, and the next
  incarnation's crash is then never handled (`HandledOnceIff`, `CrashHandledIff`).
* **Linked identity in text.** The colons of a canonical id end the second part too early: the text form never recovers
  it (`LinkedTextTrip`).
* **Discovery keys.** A query shares its cache key with another exactly when a part contains a colon (`KeySharedIff`), and
  exactly then a serial run can show the cache (`TransparentIff`). Side by side, a hit is wrong only if an accepted write
  in scope overlaps with the entry: invalidated before its insert, took effect after its read (`WrongOnlyIfOverlap`).
  Actor writes give the cache lock back in between, so a whole query fits inside one (`QueryInside`).
* **Register reply.** The last field 2 wins even if it is empty, so an earlier identifier is forgotten (`EmptyIdForgets`).
* **Backward lengths.** A length that reads as negative moves the parser's cursor back; it ends iff its cursor is never
  twice at the same place (`ParserEndsIff`), and there are six bytes on which it does not end (`BackNeverEnds`).
* **Connection bound.** The documented bound on connections always covers the pooled ones. All ever opened are still
  pooled iff no request replaced a pool that held one (`AllStillPooledIff`), and stay within the bound iff those thrown
  away would fit beside the pooled ones (`OpenedIsBoundedIff`).

## Model

| member | source | states |
|---|---|---|
| `ActorIds.ParseThenPrint` | crates/service-traits/src/actor_id.rs:135-148 | whatever parses prints back as the same text, and is a valid identity |
| `ActorIds.CanonicalRoundTrip` | crates/service-traits/src/actor_id.rs:81-148 | the text of a valid identity parses iff its node id does not end in `@`, always to an equal text, and to the same four fields iff the node id has no `@` |
| `ActorIds.CanonicalInjective` | crates/service-traits/src/actor_id.rs:351-355 | for node ids without `@`, equality of canonical texts is equality of fields |
| `ExitReasons.ProtoTripKeepsShape` | crates/actor/src/exit_reason.rs:90-187 | encoding to protobuf with details and back keeps the variant, the immediately nested variant and `is_error`, at any depth |
| `ExitReasons.ProtoTripIdempotent` | crates/actor/src/exit_reason.rs:90-178 | a second trip changes nothing more |
| `ExitReasons.ProtoTripIdentity` | crates/actor/src/exit_reason.rs:90-178 | nothing is lost iff the message is not empty, the linked id has no `@` in its node, and the cause is one the wire can hold |
| `ExitReasons.DecodeFillsGaps` | crates/actor/src/exit_reason.rs:122-178 | any variant with any details decodes to the reason whose encoding it is, with a missing variant read as normal, a missing message as "unknown error", an identity that does not parse as the placeholder and a cause out of range as normal |
| `ExitReasons.TextRoundTrip` | crates/actor/src/actor_monitor.rs:370-390 | printing then parsing a reason that is not linked is the identity iff an error message is not one of the reserved texts |
| `ExitReasons.CauseToldIff` | crates/actor/src/actor_monitor.rs:370-390 | the texts of two linked reasons of one actor meet, where one has an error as cause, iff the causes are equal or the message is the one word by which the other is told; a nested link is told as "linked", whatever is inside |
| `ExitReasons.LinkedTextTrip` | crates/actor/src/exit_reason.rs:209-230 | every linked reason comes back linked, always to the placeholder actor, with the rest of the id inside the cause |
| `ExitReasons.HeaderTrip` | crates/actor/src/mod.rs:216-252 | the receiver of an exit sees an error iff the reason is an error whose own message starts with a capitalised tag; a linked reason reads as normal |
| `ExitReasons.HeaderReads` | crates/actor/src/mod.rs:216-252 | the receiver reads shutdown and killed from exactly their capitalised words, an error message exactly behind "Error:", and a linked reason exactly behind "Linked:", with the identity if its node id has no `@` |
| `LinkTable.AddLinkRelation` | crates/actor/src/actor_monitor.rs:225-245 | adding links exactly the pair, both ways, and refuses self-links |
| `LinkTable.RemoveLinkRelation` | crates/actor/src/actor_monitor.rs:247-263 | removing unlinks exactly the pair, both ways |
| `LinkTable.CleanupLinksRelation` | crates/actor/src/actor_monitor.rs:275-284 | after cleanup the actor is in no list and all other pairs are as before |
| `LinkTable.RunKeepsCoherent` | crates/actor/src/actor_monitor.rs:225-284 | every run of add, remove and cleanup keeps the table symmetric, irreflexive and duplicate-free |
| `LinkTable.RunIsHistory` | crates/actor/src/actor_monitor.rs:225-284 | after any run a pair is linked iff some add joined it and nothing later parted it |
| `LinkTable.PeersInOrder` | crates/actor/src/actor_monitor.rs:225-284 | after any run the peers of an actor are listed in the order in which they became linked |
| `LinkTable.RemoveUndoesAdd` | crates/actor/src/actor_monitor.rs:225-263 | removing a pair just added restores every list, order included |
| `ActorMonitors.ActorMonitor.AddMonitor` | crates/actor/src/actor_monitor.rs:131-155 | the table becomes the old one with this watch last in its target's list |
| `ActorMonitors.ActorMonitor.RemoveMonitor` | crates/actor/src/actor_monitor.rs:157-166 | every watch with the reference goes, an emptied list goes with it |
| `ActorMonitors.ActorMonitor.GetMonitors` | crates/actor/src/actor_monitor.rs:168-177 | the watches of the target in registration order, none if it has none |
| `ActorMonitors.ActorMonitor.RemoveMonitorsForActors` | crates/actor/src/actor_monitor.rs:179-191 | exactly the named targets lose their lists |
| `ActorMonitors.ActorMonitor.CleanupMonitorsForActor` | crates/actor/src/actor_monitor.rs:193-203 | the actor is gone as target and as watcher, emptied lists are pruned |
| `ActorMonitors.ActorMonitor.AddLink` | crates/actor/src/actor_monitor.rs:225-245 | the new table is the specified one; a self-link is refused and changes nothing |
| `ActorMonitors.ActorMonitor.RemoveLink` | crates/actor/src/actor_monitor.rs:247-263 | the new table is the specified one |
| `ActorMonitors.ActorMonitor.GetLinks` | crates/actor/src/actor_monitor.rs:265-273 | the peers of the actor, none if it has no list |
| `ActorMonitors.ActorMonitor.CleanupLinksForActor` | crates/actor/src/actor_monitor.rs:275-284 | the new table is the specified one: the actor's list is gone and it is in no other |
| `ActorMonitors.HandleActorTermination` | crates/actor/src/actor_registry.rs:2035-2102 | one DOWN per watch of the actor, to its watcher with its reference, scope and the reason's text; one EXIT from the actor to each peer with that text iff the reason is an error or linked; both read before cleanup, then both tables are cleaned of the actor |
| `ActorMonitors.TerminationIsIdempotent` | crates/actor/src/actor_registry.rs:2289-2301 | handling the same end again, for any reason, sends no DOWN and no EXIT and leaves both tables as they are |
| `LinkBeliefs.StepKeepsInvariant` | crates/actor/src/actor_registry.rs:1915-1933 | every request and every delivery, guard read and write in one step, keeps: each disagreement about a pair is carried by a call under way |
| `LinkBeliefs.DeliveryLowersRank` | crates/actor/src/actor_registry.rs:1915-1933 | while no pair has both kinds under way, each delivery lowers calls under way plus unsettled views |
| `LinkBeliefs.MixedStep` | crates/actor/src/actor_registry.rs:1915-1985 | while a pair has both kinds under way, some delivery keeps both kinds under way |
| `LinkProtocol.StepRefines` | crates/actor/src/actor_registry.rs:1915-1933 | a step on the nodes' tables is the step on what they believe |
| `LinkProtocol.Convergence` | crates/actor/src/actor_registry.rs:1915-1985 | with guard read and write in one step, after any interleaving of requests and deliveries every disagreement has a call under way that carries one side's value to the other; with none under way all nodes agree |
| `LinkProtocol.QuietIffUnmixed` | crates/actor/src/actor_registry.rs:1903-2008 | with guard read and write in one step, from every reachable state the remaining deliveries are bounded in every order iff no pair has a link and an unlink under way together |
| `LinkProtocol.EchoForeverReachable` | crates/actor/src/actor_registry.rs:1915-1985 | a link followed by an unlink on one node, before the first call is delivered, reaches a state whose deliveries never need end |
| `LinkProtocol.LocalFirstOutcome` | crates/actor/src/actor_registry.rs:1915-1933 | from any tables, which views a local-first call settles and how many calls to peers it makes |
| `LinkProtocol.EchoTerminates` | crates/actor/src/actor_registry.rs:1903-2008 | for actors on two nodes, from tables that agree on the pair, link and unlink end with both owning nodes settled after exactly 2, 3 or 4 calls (fewer when already settled), touching no other view |
| `LinkProtocol.CallSettles` | crates/actor/src/actor_registry.rs:1903-2008 | for every placement of the two actors and the caller: the call is refused iff it links an actor to itself; otherwise both views of the pair end as asked and every other view is as before, agreement beforehand being needed only between two nodes; for two actors on one node it makes no call there and two from elsewhere |
| `LinkProtocol.LocalFirstHealsIff` | crates/actor/src/actor_registry.rs:1915-1933 | from tables that disagree, a local-first call repairs the pair iff its own side had to change |
| `LinkRaces.AgreeIff` | crates/actor/src/actor_registry.rs:1915-1985 | with guard reads and writes apart, in a quiet end the nodes of a pair agree iff the silent writes of its one view since the last told write and of the other since its call was taken are both odd or both even in number |
| `LinkRaces.QuietSplits` | crates/actor/src/actor_registry.rs:1915-1985 | in every quiet end either nobody was ever told about the pair and its nodes agree, or there is a last told write and its call was taken |
| `LinkRaces.RacesConverge` | crates/actor/src/actor_registry.rs:1915-1985 | the nodes of a pair agree in a quiet end if no write of that pair is silent, whatever happens to others |
| `LinkRaces.UndisturbedConverges` | crates/actor/src/actor_registry.rs:1923-1933 | if no call about the pair is disturbed between guard read and write, by a write of the same view or the end of its actor, no write of the pair is silent and its nodes agree |
| `LinkRaces.SilentWriteSplits` | crates/actor/src/actor_registry.rs:1976-1985 | a silent write flips exactly its own view and sends nothing, so it turns agreement on the pair into disagreement and back |
| `LinkRaces.SilentWriteReachable` | crates/actor/src/actor_registry.rs:1915-1985 | an unlink overtaken by a whole link between its read and its write leaves two nodes disagreeing with nothing under way |
| `LinkRaces.EndKeepsAgreementIff` | crates/actor/src/actor_monitor.rs:275-284 | nodes that agree still do after an actor ends iff it had no link to another node |
| `LinkEcho.QuietIffCalm` | crates/actor/src/actor_registry.rs:1903-2008 | with guard read and write apart, from any state the calls under way come to rest in every order iff for every pair one kind can no longer be passed on, or both are about to run out |
| `DownDelivery.WatchThroughRun` | crates/actor/src/actor_monitor.rs:131-203 | through any run, a watch is in the table exactly while nothing has ended it, nowhere else, and its notifications so far are one if due, else none |
| `DownDelivery.DownExactlyWhenDue` | crates/actor/src/actor_registry.rs:2035-2102 | with fresh references a watch is notified exactly once if its target ended while it was registered, and never otherwise |
| `DownDelivery.DownCarriesReason` | crates/actor/src/actor_monitor.rs:308-335 | the notification that is due names the watch, its watcher and scope, the target and the reason of that very end |
| `DownDelivery.WatchersInOrder` | crates/actor/src/actor_monitor.rs:131-203 | after any run the watchers of an actor are listed, and so told, in the order in which they began to watch |
| `ExitCascade.QuietIffStuck` | crates/actor/src/actor_registry.rs:2216-2280 | a cascade can go on iff a message waits or somebody is half dead |
| `ExitCascade.ReachedAreGone` | crates/actor/src/actor_registry.rs:2035-2057 | in every order and for every answer of trapping actors, when all is quiet everyone reached through certain forwarders is gone |
| `ExitCascade.CascadeEnds` | crates/actor/src/actor_factory_impl.rs:401-442 | no cascade takes more than (most links + 1) steps per actor |
| `CascadeOrder.MayDieIff` | crates/actor/src/mod.rs:1216-1440 | an actor dies in some order of deliveries and answers iff a chain of deaths, each caused by the very message the one before sends over an original link, leads to it |
| `CascadeOrder.CascadeBetween` | crates/actor/src/actor_registry.rs:2216-2301 | in every quiet end the reached are gone, and the gone have such a chain |
| `CascadeOrder.CascadeExactIff` | crates/actor/src/actor_registry.rs:2216-2301 | the dead are exactly those reached through certain forwarders, in every order and for every answer, iff every chain of deaths ends at one of those |
| `CascadeOrder.CascadeExact` | crates/actor/src/actor_types.rs:62-70 | that holds when each trapping actor survives all or none of its messages and propagating comes to nothing |
| `CascadeOrder.RowSettledIff` | crates/actor/src/mod.rs:216-252 | on a chain failing, propagating, plain actor, that condition holds iff the failure's message does not itself start with a tag the receiver reads as an error |
| `CascadeOutcomes.DeadSetIff` | crates/actor/src/actor_registry.rs:2216-2301 | a set of actors is what some quiet end leaves dead iff it is the outcome of a list of deaths, each caused by an earlier one, that every survivor may survive |
| `CascadeOutcomes.AlwaysGoneIff` | crates/actor/src/mod.rs:1216-1440 | an actor is gone in every quiet end iff no outcome spares it |
| `CascadeOutcomes.OrderIsIrrelevantIff` | crates/actor/src/mod.rs:1216-1440 | all quiet ends leave the same actors dead iff there is only one outcome |
| `CascadeBlame.BlameIsRight` | crates/actor/src/mod.rs:1216-1440 | at every point of every run, whoever is ending and was not the first was sent, over a link of the start, the reason of somebody who ended with an error and is no longer alive; without trapping it ends linked to exactly that actor, with trapping it ends with what it read, free to propagate, or normally, free to fail |
| `CascadeBlame.ExitNamesTheBlamed` | crates/actor/src/mod.rs:1418-1433 | every waiting EXIT carries the text of its sender's reason; from an actor that does not trap and was not the first, the text is "linked:", the canonical identity of the actor it blames, and the cause as read |
| `CascadeBlame.LinksLeft` | crates/actor/src/actor_registry.rs:2216-2301 | at every point of every run a node records a link of the start unless its own clean-up after one of the two took it away |
| `CascadeBlame.ExitsWaitOnce` | crates/actor/src/actor_registry.rs:2216-2280 | from tables without duplicates no EXIT is ever under way twice at the same time, and each under way comes from an actor whose end was handled |
| `CascadeBlame.RunByPosition` | crates/actor/src/mod.rs:1216-1440 | every run of the cascade is one of those |
| `ActivationGuard.GuardIsSafe` | crates/actor/src/actor_registry.rs:1047-1088 | in every interleaving of n callers, passivations and activations elsewhere at most one caller is between acquire and release, each message is in exactly one place, and a success means mailbox unless the activation found the actor running |
| `ActivationOutcomes.OutcomeIff` | crates/actor/src/actor_registry.rs:1057-1088 | over every run: a caller ends failed iff the factory, the spawn or the mark failed for it, already active iff the actor ran at its check, activated iff it drained the queue, each once the guard is released, and delivered iff a lookup of its own found the actor |
| `ActivationOutcomes.LiveIff` | crates/actor/src/actor_registry.rs:1057-1088 | the actor runs iff it was registered, by a caller or elsewhere, and not passivated since |
| `ActivationOutcomes.MailboxOnlyGrows` | crates/actor/src/actor_registry.rs:1058-1060 | whatever has reached the mailbox stays there in place |
| `ActivationOutcomes.QueuedArriveInOrder` | crates/actor/src/actor_registry.rs:1071-1083 | once the later of two queued messages has arrived, the earlier stands before it |
| `ActivationGuard.QueuedArrivesIff` | crates/actor/src/actor_factory_impl.rs:795-823 | a message put in the pending queue is in the mailbox iff the queue has been drained since |
| `ActivationGuard.WinnerArrivesIff` | crates/actor/src/actor_registry.rs:1069-1088 | at the winner's release its message is in the mailbox iff its own activation ran to the end or somebody else drained the queue meanwhile |
| `ActivationGuard.LateWinnerStrands` | crates/actor/src/actor_factory_impl.rs:501-506 | a caller that wins the guard when the actor already runs reports success and leaves its message pending |
| `ActivationGuard.LateWinnerReachable` | crates/actor/src/actor_registry.rs:1057-1088 | two callers reach, from the start, a running actor with a free guard and a caller that still thinks it missed |
| `ActivationGuard.LoopEnds` | crates/actor/src/actor_registry.rs:1057-1088 | n callers take at most n(10n+1)+9n steps together, whether activations fail or not |
| `ActivationGuard.StuckIff` | crates/actor/src/virtual_actor_manager.rs:505-523 | nobody can move iff every unfinished caller has missed its wake-up, which cannot happen when wake-ups are remembered |
| `ActivationGuard.WakeUpCanBeMissed` | crates/actor/src/actor_registry.rs:1062-1067 | a caller refused by a guard released before it listens misses its wake-up |
| `ActivationGuard.MissedWakeUpReachable` | crates/actor/src/virtual_actor_manager.rs:505-523 | two callers reach that from the start |
| `ActivationGuard.MissedIsForever` | crates/actor/src/virtual_actor_manager.rs:505-523 | such a caller never moves again in any run |
| `Supervision.AdoptKeepsInverse` | crates/actor/src/actor_registry.rs:1534-1593 | registering, re-parenting included, keeps the two maps inverse with duplicate-free non-empty lists |
| `Supervision.DisownKeepsInverseIff` | crates/actor/src/actor_registry.rs:1595-1611 | unregistering keeps the maps inverse iff it names the child's current parent or the child has none |
| `Supervision.ForgetKeepsInverse` | crates/actor/src/actor_registry.rs:1429-1443 | the clean-up of an actor keeps the maps inverse as they stand |
| `Supervision.AdoptKeepsAcyclicIff` | crates/actor/src/actor_registry.rs:1534-1593 | registering keeps the forest acyclic iff the new parent is not the child or below it |
| `Supervision.RunKeepsInverse` | crates/actor/src/actor_registry.rs:1534-1611 | every run whose unregistrations name current parents keeps the maps inverse |
| `Supervision.ParentIsHistory` | crates/actor/src/actor_registry.rs:1534-1611 | after any run the recorded parent of a child is the one the last call about it put it under, if that call did |
| `Supervision.ChildrenInOrder` | crates/actor/src/actor_registry.rs:1534-1611 | after any run that names parents, children are listed in the order in which they were last put under their parent |
| `Supervision.RunKeepsAcyclic` | crates/actor/src/actor_registry.rs:1534-1611 | every run whose registrations close no loop stays acyclic |
| `SupervisionRaces.SerialIsInverse` | crates/actor/src/actor_registry.rs:1534-1611 | with lock sections apart, if operations on the same child do not overlap every child not being worked on is once on its parent's list and on no other, and once nothing is half done the maps are inverse |
| `SupervisionRaces.OverlapBreaks` | crates/actor/src/actor_registry.rs:1534-1560 | two overlapping registrations of one child leave it on two lists |
| `Supervision.WalkStep` | crates/actor/src/actor_registry.rs:1704-1726 | a turn of the walk keeps: met actors are distinct, are the root or below it, and come in nondecreasing depth within one level |
| `Supervision.WalkDone` | crates/actor/src/actor_registry.rs:1704-1726 | when the queue is empty what was met is exactly every proper descendant, once, by depth |
| `Supervision.WalkEndsIff` | crates/actor/src/actor_registry.rs:1704-1726 | under the one-parent invariant the walk ends iff the root is not its own descendant, whatever cycles exist elsewhere |
| `Supervision.WalkEndsIffNoLoop` | crates/actor/src/actor_registry.rs:1704-1726 | over any child lists the walk ends iff nobody at or below the root is below itself |
| `ActorRegistries.ActorRegistry.RegisterActor` | crates/actor/src/actor_registry.rs:647-742 | the three registration tables become the specified ones, the forest is untouched |
| `ActorRegistries.ActorRegistry.RegisterVirtualActorIndex` | crates/actor/src/actor_registry.rs:751-779 | the entry is registered and indexed without becoming live |
| `ActorRegistries.ActorRegistry.LookupActor` | crates/actor/src/actor_registry.rs:796-817 | answers iff exactly one scope has a live actor of this identity, with that actor |
| `ActorRegistries.ActorRegistry.Unregister` | crates/actor/src/actor_registry.rs:840-867 | the identity is erased from the registration tables |
| `ActorRegistries.ActorRegistry.RemoveLiveActorRuntime` | crates/actor/src/actor_registry.rs:1325-1333 | only the live entries of the identity go |
| `ActorRegistries.ActorRegistry.UnregisterWithCleanup` | crates/actor/src/actor_registry.rs:1387-1458 | the identity is erased from the registration tables and, as a child, from the forest |
| `ActorRegistries.ActorRegistry.RegisterParentChild` | crates/actor/src/actor_registry.rs:1534-1593 | the forest becomes the specified one: detached from an old parent, listed once under the new |
| `ActorRegistries.ActorRegistry.UnregisterParentChild` | crates/actor/src/actor_registry.rs:1595-1611 | the forest becomes the specified one |
| `ActorRegistries.ActorRegistry.GetSubtree` | crates/actor/src/actor_registry.rs:1704-1726 | over any child lists on which it returns, exactly what is below the root; under the one-parent invariant each once, in nondecreasing depth |
| `RegistryIndex.StepKeepsCoherent` | crates/actor/src/actor_registry.rs:647-779 | every operation keeps: live keys are registered, registered entries and index members cover each other scope by scope, index lists are non-empty and duplicate-free |
| `RegistryIndex.RunKeepsCoherent` | crates/actor/src/actor_registry.rs:647-867 | that holds after any run of register, virtual index, passivate and unregister |
| `RegistryIndex.TablesAreHistory` | crates/actor/src/actor_registry.rs:647-867 | after any serial run: a sender is live iff its registration is the last call that registers the key or ends the actor; an entry is registered, and listed under a type, iff it entered there and was not unregistered since |
| `RegistryIndex.MembersInOrder` | crates/actor/src/actor_registry.rs:647-867 | the identities of a type are listed in the order in which they were listed |
| `RegistryIndex.UnregisterErases` | crates/actor/src/actor_registry.rs:1387-1458 | unregistering erases an identity from all three tables in every scope and touches no other identity |
| `RegistryRaces.SerialIsCoherent` | crates/actor/src/actor_registry.rs:647-867 | with lock sections apart, if operations on the same identity do not overlap every identity not being worked on is coherent, and once nothing is half done the tables are |
| `RegistryRaces.OverlapBreaks` | crates/actor/src/actor_registry.rs:647-742 | an unregister between the live insert and the index push of a register leaves an index member that is not registered |
| `RecencyList.StepTidy` | crates/actor/src/object_registry_helpers.rs:60-138 | every cache operation keeps keys distinct, the size within max(capacity, 1), and the list ordered by last touch |
| `RecencyList.RunIsLru` | crates/actor/src/object_registry_helpers.rs:60-138 | over any run that holds, and every entry is the latest insert of its key that nothing removed |
| `RecencyList.HitIsLatest` | crates/actor/src/object_registry_helpers.rs:60-85 | a hit returns the value inserted last, aged less than the time to live |
| `RecencyList.GetExactly` | crates/actor/src/object_registry_helpers.rs:60-85 | a get hits iff an entry of the key is younger than the time to live, a clock that went back counting as no age; a too old entry of the key goes and nothing else does |
| `RecencyList.InsertExactly` | crates/actor/src/object_registry_helpers.rs:87-109 | an insert replaces the entry of its key, or else, when the cache is full, throws out exactly the entry in front |
| `DiscoveryCaches.DiscoveryCache.Get` | crates/actor/src/object_registry_helpers.rs:60-85 | map plus queue refine the recency list: a hit moves to the back, an expired entry goes |
| `DiscoveryCaches.DiscoveryCache.Insert` | crates/actor/src/object_registry_helpers.rs:87-109 | refines insertion: an existing key is renewed, a new one evicts the front when full |
| `DiscoveryCaches.DiscoveryCache.Remove` | crates/actor/src/object_registry_helpers.rs:111-120 | the key leaves map and queue, its value is returned |
| `DiscoveryCaches.DiscoveryCache.RemoveMatching` | crates/actor/src/object_registry_helpers.rs:122-138 | exactly the matching keys leave, whatever the map's order, and are counted |
| `Discovery.KeyUnique` | crates/actor/src/object_registry_helpers.rs:436-580 | colon-free queries with the same cache key are the same query |
| `Discovery.KeySharedIff` | crates/actor/src/object_registry_helpers.rs:436-580 | another query shares the key iff some part contains a colon |
| `Discovery.InvalidatesAffected` | crates/actor/src/object_registry_helpers.rs:173-434 | every key a write can affect matches its invalidation pattern, colons or not |
| `DiscoveryAnswers.InvalidatesIff` | crates/actor/src/object_registry_helpers.rs:173-434 | without colons, a write drops exactly the answers of its kind, tenant and namespace, a node also those of namespaces that continue its own, a service link none |
| `DiscoveryAnswers.WriteDropsExactly` | crates/actor/src/object_registry_helpers.rs:636-727 | a write, accepted or refused, drops the cached answers of exactly those queries and leaves every other as it is |
| `Discovery.DiscoverTransparent` | crates/actor/src/object_registry_helpers.rs:436-580 | where the query's key holds its current answer, the query, hit or miss, answers what the registry would and leaves it so |
| `Discovery.OtherDiscoverKeepsFresh` | crates/actor/src/object_registry_helpers.rs:436-580 | any other query, colons or not, leaves the key of a colon-free query alone |
| `Discovery.WriteKeepsFresh` | crates/actor/src/object_registry_helpers.rs:636-727 | a register or unregister, accepted or refused, leaves under any query's key only a current answer |
| `Discovery.CacheIsInvisible` | crates/actor/src/object_registry_helpers.rs:173-580 | after any serial run of helper calls, whatever else was asked, a colon-free query answers exactly what the registry would answer directly |
| `Discovery.TransparentIff` | crates/actor/src/object_registry_helpers.rs:173-580 | no serial run shows a difference to a query iff no part of that query contains a colon |
| `DiscoveryAnswers.AnswerIsHistory` | crates/actor/src/object_registry_helpers.rs:436-766 | after any serial run of helper calls a colon-free query is answered, cache or not, with rows whose last accepted write registered exactly them, none twice: all of the query's kind, scope and category if they are at most 1000 (10000 for actors), otherwise that many of them |
| `DiscoveryAnswers.RowsAreHistory` | crates/actor/src/object_registry_helpers.rs:173-434 | the registry behind the helpers holds exactly the rows whose last accepted write registered them, each object once |
| `DiscoveryAnswers.CacheIsBounded` | crates/actor/src/object_registry_helpers.rs:145-151 | after any serial run at most 1000 answers are cached, and below that a query throws out no other answer |
| `DiscoveryAnswers.StaleForAMinute` | crates/actor/src/object_registry_helpers.rs:729-766 | the answer a racing write left behind is served while less than 60 seconds have gone by, and the current one after that |
| `Discovery.SharedKeyLeaks` | crates/actor/src/object_registry_helpers.rs:436-580 | after one registration and one query, another query with the same key is given the first one's answer, and that is wrong |
| `Discovery.RacingWriteLeavesStale` | crates/actor/src/object_registry_helpers.rs:729-766 | a write between a query's registry read and its insert leaves the old answer for the next query; it is wrong only after an accepted write in the query's scope |
| `Discovery.SomeRaceMisleads` | crates/actor/src/object_registry_helpers.rs:729-766 | from every state and for every query some such write makes the next answer wrong |
| `DiscoveryRaces.WrongOnlyIfOverlap` | crates/actor/src/object_registry_helpers.rs:636-766 | in every interleaving a hit on a colon-free query is wrong only if an accepted write in scope invalidated before the entry's insert and took effect after its read; for anything but actors that means between the two |
| `DiscoveryRaces.WriteBetween` | crates/actor/src/object_registry_helpers.rs:173-212 | read, write, insert: for any query but one for actors the next hit is wrong |
| `DiscoveryRaces.QueryInside` | crates/actor/src/object_registry_helpers.rs:676-691 | for actors a whole query between the invalidation and the effect of a write makes the next hit wrong |
| `DiscoveryRaces.EffectAfter` | crates/actor/src/object_registry_helpers.rs:676-691 | so does an invalidation between read and insert with the effect after both |
| `Discovery.Helpers.Discover` | crates/actor/src/object_registry_helpers.rs:729-766 | cache and registry move as the specification's query does, with its answer, which `AnswerIsHistory` pins to the history of calls |
| `Discovery.Helpers.Register` | crates/actor/src/object_registry_helpers.rs:636-692 | cache and registry move as the specification's write does, refused or accepted |
| `Discovery.Helpers.Unregister` | crates/actor/src/object_registry_helpers.rs:694-727 | cache and registry move as the specification's removal does |
| `Asks.PendingAsks.Register` | crates/actor/src/pending_asks.rs:101-115 | the entry and a fresh open channel are there, replacing any earlier entry |
| `Asks.PendingAsks.Resolve` | crates/actor/src/pending_asks.rs:117-126 | the entry goes; delivered iff it was there and the asker still listens, and then the channel holds that very reply |
| `Asks.PendingAsks.Cancel` | crates/actor/src/pending_asks.rs:128-133 | the entry goes and its channel closes |
| `Asks.PendingAsks.SweepExpired` | crates/actor/src/pending_asks.rs:135-147 | exactly the entries past their deadline go, and are counted |
| `Asks.PendingAsks.Sift` | crates/actor/src/pending_asks.rs:135-147 | the counting retain splits the entries by deadline |
| `Asks.RunKeepsInv` | crates/actor/src/actor_registry.rs:955-974 | every run keeps what is true of each ask, and outcomes are final |
| `Asks.AskIsCorrect` | crates/actor/src/actor_registry.rs:1208-1260 | in every interleaving a returned ask has one final outcome, no entry left, at most one delivery, none if its channel was closed, and a reply only with its own correlation id; `AskOutcomeIff` says which reply |
| `AskHistory.AskOutcomeIff` | crates/actor/src/actor_registry.rs:1208-1260 | over every run: an ask returns a reply iff it received and the first thing to reach it after its start, ahead of any sweep past its deadline, was that very reply; it finds its channel closed iff it received and such a sweep came first; it times out or fails iff it took the step that cancels for that reason |
| `Asks.LostReplyIff` | crates/actor/src/actor_registry.rs:1235-1258 | a returned ask had a reply delivered that it does not return iff it timed out and was answered, ahead of any sweep past its deadline, between its last look and the drop of the receiving half, or its dispatch failed and it was so answered between its start and the cancel |
| `Asks.LostReplyReachable` | crates/actor/src/pending_asks.rs:117-126 | the first happens, for every message and deadline |
| `Asks.LostToFailureReachable` | crates/actor/src/actor_registry.rs:1235-1240 | so does the second |
| `Asks.AskReturns` | crates/actor/src/actor_registry.rs:1208-1260 | until it has returned an ask has a step of its own, nobody else moves it, and once its timer has elapsed each of its steps brings it closer |
| `StopWatch.HandledAtLeastOnce` | crates/actor/src/actor_factory_impl.rs:1657-1702 | with any number of stops and no stale flag, a settled incarnation was handled once per stop, and once more by the watcher unless a standing mark made it step aside; never zero times |
| `StopWatch.StopDoesItAll` | crates/actor/src/actor_factory_impl.rs:1657-1723 | every stop that returned handled the termination and unregistered the actor; it marked, and left the flag to the watcher, iff its lookup came before any unregistration, and cleared the flag otherwise |
| `StopWatch.SettledIsUnregistered` | crates/actor/src/actor_factory_impl.rs:1657-1723 | a settled actor is still registered iff nobody stopped it and its incarnation inherited a stale flag |
| `StopWatch.HandledOnceIff` | crates/actor/src/actor_factory_impl.rs:181-229 | with one stop, handled once and the flag consumed iff the mark comes before the watcher looks; otherwise twice, and a late mark stays behind |
| `StopWatch.MarkBeforeEndIsInTime` | crates/actor/src/actor_factory_impl.rs:215-229 | a mark set before the actor's message loop ends is always in time |
| `StopWatch.CrashHandledIff` | crates/actor/src/actor_factory_impl.rs:440-452 | a crash with no stop under way is handled and unregistered iff its incarnation inherited no stale flag |
| `StopWatch.StaleFlagReachable` | crates/actor/src/actor_factory_impl.rs:1657-1723 | a crash between the stop's lookup and its mark leads to two handlings and a stale flag |
| `RoundRobin.ConnectKeepsValid` | crates/actor/src/grpc_connection_manager.rs:150-165 | every request keeps each pool within its size, its channels distinct and all of the pool's address |
| `RoundRobin.ConnectIsLocal` | crates/actor/src/grpc_connection_manager.rs:150-165 | a request leaves other keys alone and grows its own pool by what it opens |
| `RoundRobin.AnswerFits` | crates/actor/src/grpc_connection_manager.rs:65-93 | a channel handed out is for the address asked for, never an earlier one; a request fails iff the pool has room and the address cannot be connected to |
| `RoundRobin.LeastRecentlyUsed` | crates/actor/src/grpc_connection_manager.rs:65-93 | full or still growing, a get hands out, of all channels then in the pool, the one opened or handed out longest ago |
| `RoundRobin.RunIsBounded` | crates/actor/src/grpc_connection_manager.rs:29-32 | over any run pooled channels never exceed pool size times number of keys |
| `RoundRobin.FullPoolRotates` | crates/actor/src/grpc_connection_manager.rs:90-92 | once a pool is full its requests are answered in strict rotation, whatever other keys ask in between |
| `RoundRobin.WindowServesEachOnce` | crates/actor/src/grpc_connection_manager.rs:65-93 | any pool-size consecutive gets from a full pool return each channel exactly once |
| `RoundRobin.OpenedBalance` | crates/actor/src/grpc_connection_manager.rs:150-165 | over any run every channel opened is still pooled or was thrown away with its pool |
| `RoundRobin.AllStillPooledIff` | crates/actor/src/grpc_connection_manager.rs:150-165 | every channel ever opened is still pooled iff no request replaced a pool that held one |
| `RoundRobin.OpenedIsBoundedIff` | crates/actor/src/grpc_connection_manager.rs:29-32 | the bound holds for all channels ever opened iff those thrown away would fit beside the pooled ones |
| `RoundRobin.FlippingOpensEachTime` | crates/actor/src/grpc_connection_manager.rs:160-163 | a node whose address flips opens a channel on every request, so no bound covers all channels ever opened |
| `ConnectionPool.ServiceConnectionPool.GetWithTls` | crates/actor/src/grpc_connection_manager.rs:65-93 | grow while there is room, rotate, hand out the last; a failed connect changes nothing |
| `ConnectionPool.GrpcConnectionManager.GetConnection` | crates/actor/src/grpc_connection_manager.rs:150-165 | the pools move as the specification's request does, with its answer |
| `Varints.EncodeVarint` | load-test/scripts/ws_capacity.js:61-70 | the bytes are the base-128 groups of the number's unsigned 32-bit view |
| `Varints.ReadVarint` | load-test/scripts/ws_capacity.js:105-110 | the reading loop computes the reading function, from any offset, also on truncated input |
| `Varints.SkipVarint` | load-test/scripts/ws_capacity.js:113-114 | the skipping loop computes the skipping function |
| `Varints.VarintRoundTrip` | load-test/scripts/ws_capacity.js:61-70 | inside any buffer, reading at an encoded number yields it and stops right behind it, for every unsigned 32-bit value |
| `Varints.SignedRoundTripIff` | load-test/scripts/ws_capacity.js:61-70 | as a JavaScript number the round trip is the identity iff the value fits in signed 32 bits |
| `Frames.EncodeText` | load-test/scripts/ws_capacity.js:73-81 | the loop yields the concatenated encodings of the code units |
| `Frames.ParseAck` | load-test/scripts/ws_capacity.js:119-135 | the inner loop computes the scan of a register reply |
| `Frames.TakeField` | load-test/scripts/ws_capacity.js:104-138 | one turn of the outer loop computes the turn of the scan |
| `Frames.ParseAssignedNodeId` | load-test/scripts/ws_capacity.js:99-140 | the parser computes the scan of a frame, which stops where a length reads as negative |
| `Frames.FrameRoundTrip` | load-test/scripts/ws_capacity.js:73-140 | on every frame built from the field encoders the parser skips all other fields and yields the last field 2 found inside any field 21 |
| `Frames.YieldsLastNonEmptyIff` | load-test/scripts/ws_capacity.js:99-140 | what it yields is the last identifier that is not empty iff no empty one follows it |
| `Frames.OwnFramesCarryNoId` | load-test/scripts/ws_capacity.js:88-97 | register and heartbeat frames read back as holding no identifier |
| `Frames.AsciiText` | load-test/scripts/ws_capacity.js:73-81 | an ASCII text is its own encoding |
| `FrameContents.TextRoundTrip` | load-test/scripts/ws_capacity.js:73-82 | the encoding of any sequence of code units reads back, by the one- to three-byte forms of UTF-8, as that sequence |
| `FrameContents.FieldsRoundTrip` | load-test/scripts/ws_capacity.js:71-86 | any list of encoded fields reads back whole: numbers, kinds, values and bodies, in order |
| `FrameContents.RegisterFrameSays` | load-test/scripts/ws_capacity.js:88-92 | a register frame is the request id as field 1 and a field 20 that holds only field 10 with value 2 |
| `FrameContents.HeartbeatFrameSays` | load-test/scripts/ws_capacity.js:93-97 | a heartbeat frame is the request id as field 1 and a field 24 that holds the request id and then the node id |
| `Frames.EmptyIdForgets` | load-test/scripts/ws_capacity.js:128-133 | an empty last field 2 makes the parser forget an earlier identifier |
| `FrameLoops.AckEndsIff` | load-test/scripts/ws_capacity.js:119-135 | on any bytes, negative lengths included, the inner loop ends iff its cursor is never twice at the same place |
| `FrameLoops.ParserEndsIff` | load-test/scripts/ws_capacity.js:99-140 | on any bytes the parser ends iff its cursor is never twice at the same place, a reply that never ends counting as standing still |
| `FrameLoops.ScanIsTheParser` | load-test/scripts/ws_capacity.js:99-140 | wherever the scan meets no negative length, the parser ends with the identifier the scan yields |
| `FrameLoops.BackNeverEnds` | load-test/scripts/ws_capacity.js:115-118 | a field whose length of -6 leads back to its own tag keeps the parser running for ever |

## Left out

- Remote-first link and unlink under concurrency (crates/actor/src/actor_registry.rs:1935-1948, 1987-1999): they write locally after the call without telling the peer; only their sequential outcome is proved (`EchoTerminates`).
- Failure of a link call: calls may be delayed and reordered, not lost.
- LinkBeliefs.StepKeepsInvariant: a call reads its guard and writes in one step, while the source uses two lock sections; `LinkRaces` takes them apart.
- LinkProtocol.Convergence: same step, and no actor ends; `LinkRaces.AgreeIff` is the statement without either.
- LinkProtocol.QuietIffUnmixed: same step; `LinkEcho.QuietIffCalm` is the statement without it.
- `link_actor(x, y)` on the service is taken to run `link(x, y)` on the node of `x`; transport, node lookup, tenant and authentication checks are not modelled, requests are those already accepted.
- ActorRegistries.ActorRegistry.GetSubtree: requires that the walk returns, which the source does not check; `Supervision.WalkEndsIffNoLoop` and `Supervision.WalkEndsIff` state exactly when it does.
- Discovery.RacingWriteLeavesStale: speaks of a write between a query's read and its insert only; `DiscoveryRaces` has every interleaving.
- CascadeOrder.CascadeExact: states exactness under a sufficient condition only; `CascadeOrder.CascadeExactIff` has the exact one.
- Delivery of exit messages: a message to a running actor is accepted by its mailbox; no link is added during a cascade.
- The per-instance facet activation path (crates/actor/src/actor_registry.rs:1029-1045) appears only as an activation elsewhere; a mailbox that refuses messages while pending ones are drained is not modelled.
- Discovery.Helpers.Discover: the four per-kind queries are one operation on a key and a kind, the registry an ordered list of rows of which the first matching ones up to the limit are the answer.
- Discovery.Helpers.Register: the per-kind registrations are one operation; heartbeats and lookups by alias are not modelled.
- Frames.ParseAck: stops at a length that reads as negative; `FrameLoops` has the loop that goes on.
- Frames.TakeField: stops at a length that reads as negative; `FrameLoops` has the loop that goes on.
- Frames.ParseAssignedNodeId: stops at a length that reads as negative; `FrameLoops` has the loop that goes on. How the parser turns the bytes of an identifier beyond ASCII into text is not modelled.
- Asks.PendingAsks.Register: deadlines are numbers given by the caller, the clock is a parameter; asks to remote actors are not modelled.
- Selection of stale remote monitors by the collector: only its effect on the table (`RemoveMonitorsForActors`) is modelled.
- Stopping an actor: scope validation, the object registry and facet bookkeeping around a stop are not modelled; that the message loop ends is an event of its own.
- ConnectionPool.ServiceConnectionPool.GetWithTls: whether an address yields an endpoint, with or without TLS, is an input.
- Metrics, tracing, lifecycle events, gRPC, TLS, WebSocket and HTTP transport, builders and service wrappers: no property of the tables depends on them.
