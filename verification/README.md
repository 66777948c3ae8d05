# Faythe: a verified model of its workers

Faythe runs autoscaling, autohealing and scheduling workers on a cluster of nodes that share them out by
consistent hashing and agree through etcd. This project models the parts whose correctness depends on
sequences of steps rather than on any single one, and proves what they guarantee.

| files | what they model |
|---|---|
| `Options.dfy`, `Clock.dfy`, `Durations.dfy` | Go's saturating clock arithmetic; how durations are written and read, with 64-bit wrap-around |
| `Alerts.dfy`, `Scalers.dfy` | an alert, and the scaler that evaluates a query and decides when a round of actions runs |
| `Etcd.dfy`, `Cluster.dfy` | etcd as a log of events; members, the ring replayed from their events, and who owns a worker |
| `Managers.dfy` | the autoscaling manager's registry, event handling and rebalancing on one node |
| `Nodes.dfy`, `Placement.dfy`, `PlacementRuns.dfy` | such a manager as one of many nodes; any number of them, coming and going; runs that end badly |
| `Healers.dfy`, `HealerLoop.dfy` | a healer's ticks and the watchers they spawn, as a transition system; the loop body that edits its maps in place |
| `HealerHistory.dfy`, `HealerRuns.dfy` | what a healer's maps hold, told by the events of its run; how a run can go on after a step that is not guarded |
| `HealerKeys.dfy`, `HealerManagers.dfy`, `Cascade.dfy`, `CascadeRuns.dfy` | the autohealing manager: its keys, its handling of events on one node, and what happens to resolvers and healers when clouds and nodes come and go, rings turn and etcd fails |
| `Latches.dfy` | when a condition holds that some steps of a run bring about and others end |
| `Schedules.dfy` | schedulers: when the "from" and "to" actions run |
| `Silences.dfy`, `SilenceSync.dfy` | a silence's dates, TTL and lease; a round of taking silences over from Alertmanager |
| `Tracker.dfy` | a workflow that is executed, watched and retried |

Objects that the program updates in place are classes here, and their methods are proved against functions on
values; whole runs are sequences of such values. The clock, etcd's answers, the metric backend, the
outcome of actions, the consistent hash, cron expressions and regular expressions are parameters.

## What turns out

Some guarantees hold only under a condition. Each of these is proved together with a run that breaks it, or
as an equivalence.

- **Cooldown.** The documentation (docs/autoscaling.md, lines 194 and 225) says that scaling is disabled until the
  cooldown is over. An empty query result resets the alert, and with it the fire time the cooldown counts from.
  So the promise is kept by exactly the active scalers whose duration exceeds their cooldown
  (`Scalers.CooldownHonouredExactly`). Without an empty result in between it is always kept
  (`Scalers.SuccessfulRoundsAreSpaced`).
- **Placement.** A manager ignores an event about a worker that it still runs but that its ring has given away, and one
  that creates such a worker anew while the backend cannot be had. Once everything is settled, a node agrees with etcd
  about a worker exactly when it has not failed to start it or to hand it over, and did not ignore the last event
  about it, unless that event made no difference (`Placement.ConvergenceExactly`); other workers do not matter. A worker
  runs exactly where it should if and only if no node keeps it by such a mistake, and none has failed
  (`Placement.UniquePlacement`). `PlacementRuns.IgnoredEventDuplicates` is a run after which one worker runs on two
  nodes for good.
- **Updates.** A node puts a worker that it hands over as it has it, not as etcd has it by then. So settled nodes need
  not run with the settings a client stored last (`PlacementRuns.HandoverLosesUpdate`). Settings last exactly as long
  as every node that hands the worker over is up to date about it (`Placement.SettingsKeptExactly`).
- **Healing.** Whatever watchers and ticks get up to, what the healer's maps hold is told by the events of its run:
  who is watched and by whom (`HealerHistory.RunningExactly`, `HealerHistory.NamedExactly`), who has been cancelled,
  who is whitelisted (`HealerHistory.WhitelistedExactly`). No more than three instances are watched
  (`Healers.RunKeepsShape`), and nothing is healed that was not admitted, or before the duration has passed on its own
  watcher's clock (`Healers.FireIsJustified`). An instance whose watcher the table names has stayed down since, and
  one whose watcher has been cancelled has not (`Healers.FireIsJustifiedExactly`).
- **Healing once per outage.** This depends on two things the program does not ensure, because a watcher may take its
  ticker after it has been cancelled, and because `do` is slow enough for its instance to come up, or to be caught in
  a storm, and to go down again meanwhile: no cancelled watcher fires while its instance has another one, and no tick
  admits the instance while it is still being healed. For a watcher that is not cancelled it is enough that this has
  been so for its instance since that last had no watcher (`Healers.AtMostOncePerOutage`). Any step that goes against
  it can be followed by two fires in one outage with none other going against it (`HealerRuns.UnguardedStepBreaks`),
  and such runs exist for every active configuration (`HealerRuns.UpWhileHealingFiresTwice`,
  `HealerRuns.StormWhileHealingFiresTwice`, `HealerRuns.StaleWatcherFiresTwice`). As long as no step does, only a
  cancelled watcher without a successor can heal an instance once more (`Healers.SecondFireIsStale`).
- **Schedules.** An occurrence is given up only once it is strictly past, so with exact ticks every occurrence runs its
  actions twice, never once (`Schedules.EveryOccurrenceRunsTwice`). Before `FromDateTime` nothing moves on, so the
  first active tick runs the actions for an occurrence before the window (`Schedules.FirstActiveTickRunsStale`).
- **Silences.** A lease is within half an hour of the time a silence has left exactly when it has expired for at most
  half an hour and its hours fit into 64 bits (`Silences.LeaseNearRemainingExactly`). A healer one of whose tags has a
  capital letter never takes a silence over, since comments are put into lower case and tags are not
  (`SilenceSync.CanBeEligibleExactly`).
- **Cascade.** The healer's key is derived from the resolver's by replacing the prefix everywhere. That is the
  right key exactly when the cloud's ID does not itself begin like the prefix (`HealerKeys.DerivedKeyExactly`); IDs that
  are hexadecimal digests never do.
- **What a cloud leaves behind.** Nothing makes sure that a cloud that is deleted takes its keys with it. A reload, or
  a node that leaves, may put a key back when nobody is left to hear of the deletion; a node may crash or leave before
  it has heard of it, or fail to delete the key. For every run and every cloud it is known exactly which step has
  stranded a key and which ones rescue it (`Cascade.HealerStrandedExactly`, `Cascade.ResolverStrandedExactly`), and so
  what is there once all nodes have heard of all clouds (`Cascade.CascadeCompletes`). Nothing needs to fail for it
  (`CascadeRuns.LateHandoverStrands`, `CascadeRuns.LeaveStrandsResolver`). Unless its key has been stranded, the healer
  of a deleted cloud runs on exactly those settled nodes that have ignored its deletion (`Cascade.NothingRunsOn`), and
  that happens, too (`CascadeRuns.IgnoredDeletionLeavesHealer`).

## Model

| member | source | states |
|---|---|---|
| Durations.ParsedExactly | vendor/github.com/prometheus/common/model/time.go:184-220 | a duration that can be read is what its text means if and only if that fits into 64 bits; then it is a non-negative setting below the largest duration |
| Durations.ReadExactly | vendor/github.com/prometheus/common/model/time.go:184-220 | of the texts that are digits and something after them, just those with one of seven units after at least one digit can be read, and a bare zero |
| Durations.DigitsRoundTrip | pkg/model/silence.go:61 | the decimal digits of a number stand for that number |
| Durations.HoursRoundTrip | pkg/model/silence.go:61-63 | a number of hours written as a TTL is read back if and only if it is not negative and fits into 64 bits; a negative one is not read at all |
| Alerts.Alert.ShouldFire | pkg/alert/alert.go:28-30 | an active alert fires once the duration has passed since its start, however long ago that was: the saturation of time subtraction never shows |
| Alerts.Alert.IsCoolingDown | pkg/alert/alert.go:32-35 | the alert cools until the cooldown after its fire time is over; the flag is recorded, the persisted state stays |
| Alerts.Alert.Start | pkg/alert/alert.go:37-40 | the alert becomes active from now on, its fire time stays |
| Alerts.Alert.Fire | pkg/alert/alert.go:42-46 | the fire time is recorded unless the alert is cooling and has fired before |
| Alerts.Alert.Reset | pkg/alert/alert.go:48-52 | all three persisted fields are cleared, the flag is not |
| Scalers.Scaler.constructor | pkg/autoscaler/scaler.go:50-67 | a scaler starts from the alert etcd holds, or from a quiet one, never cooling |
| Scalers.Scaler.Evaluate | pkg/autoscaler/scaler.go:105-132 | one tick takes the alert to the next value, and runs a round just when the value says so; a scaler that is not active, or whose query fails, does neither |
| Scalers.Scaler.Do | pkg/autoscaler/scaler.go:139-189 | each successful action records its own time, in the order they get there |
| Scalers.Scaler.Save | pkg/autoscaler/manager.go:170-184 | what is put into etcd is the alert's persisted state |
| Scalers.StateSummarisesRun | pkg/autoscaler/scaler.go:105-132 | after any run the persisted state is exactly a summary of it: whether a streak of hits is on, when it began, and when the last successful round of it fired |
| Scalers.RoundExactlyByRule | pkg/autoscaler/scaler.go:121-131 | in any run, a tick runs a round if and only if the scaler is active, its query hits, the condition has held for the duration, and every successful round since the last empty result is more than the cooldown ago |
| Scalers.InactiveRests | pkg/autoscaler/scaler.go:106-108 | a scaler that is not active runs no round and has the alert it began with, after any run |
| Scalers.CoolingExactlyByRule | pkg/alert/alert.go:32-35 | the cooling flag computed from one stored time tells exactly whether all successful rounds of the streak have cooled down |
| Scalers.SuccessfulRoundsAreSpaced | pkg/autoscaler/scaler.go:121-131 | from a successful round to any later round: more than the cooldown if no empty result intervenes, at least the duration otherwise |
| Scalers.CooldownHonouredExactly | pkg/autoscaler/scaler.go:121-131 | over all runs the cooldown is honoured between any two rounds if and only if the scaler is not active or its duration exceeds the cooldown |
| Scalers.CooldownBroken | pkg/alert/alert.go:48-52 | a run of every other configuration in which the next round comes after just the duration |
| Scalers.SaveLoadIsTransparent | pkg/autoscaler/scaler.go:58-64 | persisting and reloading a scaler between any ticks of a run changes neither its rounds nor its states, although the cooling flag is lost |
| Etcd.UnwrittenIsUnchanged | pkg/autoscaler/manager.go:102-119 | a key not written between two revisions reads the same at both |
| Etcd.GoneMeansDeleted | pkg/autoscaler/manager.go:115-118 | a key that was there, or was written, and is gone has a delete event in between |
| Clusters.MemberKeyRoundTrip | pkg/cluster/cluster.go:217-230 | the ID recovered from a member's key is the ID if and only if it neither begins nor ends with a slash |
| Clusters.RingMirrorsEtcd | pkg/cluster/cluster.go:207-230 | the ring replayed from the membership events holds an ID if and only if etcd holds that member's key |
| Clusters.Cluster.constructor | pkg/cluster/cluster.go:97-109 | the member table has the members etcd holds, under their own IDs; the ring is still empty |
| Clusters.Cluster.Join | pkg/cluster/cluster.go:131-169 | a node already known is refused; otherwise, if its three calls to etcd succeed, it has announced itself and ring and member table agree; and what is left behind when one of them fails |
| Clusters.Cluster.Watch | pkg/cluster/cluster.go:187-241 | after any batch of events a member is in the ring and in the member table, with given values, if and only if the last readable event about it is a put of these, or there is none and it was there with them; a reload follows just when an event could be read |
| Clusters.TurnedIsReplayed | pkg/cluster/cluster.go:207-234 | turning a ring by a batch of events after another gives the ring replayed from all of them |
| Clusters.TurnedMirrorsEtcd | pkg/cluster/cluster.go:207-234 | a ring that agrees with etcd about a member still does after any further events |
| Clusters.JoinedMirrorsEtcd | pkg/cluster/cluster.go:97-234 | a node that has loaded the members, announced itself, and watched ever since has an ID in its ring if and only if etcd holds that member's key |
| Clusters.OneWorker | pkg/cluster/cluster.go:256-261 | in a non-empty ring every key has exactly one worker, a member; in an empty one it has none |
| Managers.Registry.Set | pkg/common/registry.go:50-55 | one entry is set or overwritten, the others stay |
| Managers.Registry.Delete | pkg/common/registry.go:43-48 | one entry goes, the others stay |
| Managers.Manager.Load | pkg/autoscaler/manager.go:197-216 | on start-up exactly the owned workers whose provider and backend can be had are registered, with what etcd holds |
| Managers.Manager.StartScaler | pkg/autoscaler/manager.go:136-158 | a worker is registered only by its owner, and only if its backend can be had |
| Managers.Manager.StopScaler | pkg/autoscaler/manager.go:124-134 | a worker is removed only by its owner |
| Managers.Manager.Handle | pkg/autoscaler/manager.go:102-119 | an event changes its own worker only, and only at its owner: a deletion stops it; a creation starts it, if there is a backend; a modification of a worker that runs starts it anew, or just stops it without a backend; one of a worker that does not run is ignored |
| Managers.Manager.RebalanceOne | pkg/autoscaler/manager.go:227-264 | one worker is handed over, started, or left alone, and put into etcd just when it is handed over |
| Managers.Manager.Rebalance | pkg/autoscaler/manager.go:218-268 | whatever the order: exactly the registered workers that the ring gives away and that can be put are put once and dropped; every other one stays just as it is, with its alert; and of the rest exactly the owned ones that etcd has and that can be started are started |
| Managers.Manager.Save | pkg/autoscaler/manager.go:161-195 | on the way out every registered worker whose put succeeds is put once, with its alert, and what is still owned is stopped |
| Placement.RunKeepsInv | pkg/autoscaler/manager.go:102-119 | in every state of every run, each node's registry is explained, worker by worker, by its position in the log, its last snapshot, the deletions still to come, the events it has ignored and what has failed |
| Nodes.MissedExactly | pkg/autoscaler/manager.go:107-134 | over any history of a node, once it has consumed everything, the workers it is marked as having missed are exactly those about which it has ignored the last event |
| Nodes.FailedExactly | pkg/autoscaler/manager.go:227-264 | over any history of a node, the workers it is marked as having failed at are exactly those it has failed to start or to hand over, without a further attempt, a deletion, or an event after which it runs them since |
| Placement.MarksAreExact | pkg/autoscaler/manager.go:107-134 | so, in every run of any number of nodes, told by its steps: which last events a settled node has ignored, and at which workers it has failed without any later step that makes up for it |
| Placement.ConvergenceExactly | pkg/autoscaler/manager.go:218-266 | for any interleaving of loads, reloads, ring turns, evaluations, failures and events, a settled node agrees with etcd about a worker if and only if it has not failed to start it or to hand it over, and did not ignore the last event about it, unless that asked for what the node does already; whatever has become of other workers |
| Placement.Convergence | pkg/autoscaler/manager.go:218-266 | so a worker that a settled node has neither missed nor failed at runs there if and only if etcd holds it and the ring says so, with its stored settings, and with the stored alert unless the node has evaluated it since |
| Placement.UniquePlacement | pkg/autoscaler/manager.go:227-264 | for any number of nodes and any history of joins, departures, crashes and expiries, once all are settled a worker runs exactly where it is due, and so on one node or none, if and only if no node has failed at it, or ignored a last event about it that deleted it or came when it was somebody else's; and if none has failed at it, it runs on one node or none if and only if none keeps it by such a mistake |
| Placement.ReloadOfSettledExactly | pkg/autoscaler/manager.go:227-264 | one more reload of a settled node starts exactly the workers it has failed to start, and hands over exactly those it has failed to hand over, or runs by mistake and etcd has for somebody else, unless it fails again; the registry stays as it is if and only if there are none of these |
| Placement.EntryStays | pkg/autoscaler/manager.go:218-266 | what a node has of a worker it runs stays as it is in every step but these: the node goes, handles an event about the worker as its owner, hands it over, or evaluates it; a reload does not touch a worker that its node owns |
| Placement.EvaluatedAlertStays | pkg/autoscaler/manager.go:218-266 | in every run the alert that an evaluation leaves is the one the node has until then, however often it reloads |
| Placement.StartedAsStored | pkg/autoscaler/manager.go:136-158 | a worker that a step starts on a node, or starts anew, has the settings and the alert of the event, or those that etcd had at the revision the node reads |
| Placement.HandoverKeepsAlert | pkg/autoscaler/manager.go:161-264 | after a handover, by a reload or by leaving, and whichever side reloads first, the new owner ends up with the old owner's alert, unless it has evaluated since, has missed an event about the worker, or somebody wrote it |
| Placement.FreshExactly | pkg/autoscaler/manager.go:235-251 | what a node would put for a worker has the stored settings if and only if the last event about it that the node has yet to handle, or has ignored, leaves them as the node has them |
| Placement.SettingsKeptExactly | pkg/autoscaler/manager.go:161-195 | from the last time a client stores a worker, its settings stay in etcd if and only if every node that hands it over, on a reload or on leaving, is up to date about it |
| Placement.RunsWithLastSettings | pkg/autoscaler/manager.go:235-251 | in that case a node that runs it, settled or not, runs it with those settings if and only if it is up to date about it; a settled node that has not ignored the last event is |
| PlacementRuns.IgnoredEventDuplicates | pkg/autoscaler/manager.go:126-130 | a run of two nodes, one of which ignores events, after which both run the same worker in a settled state |
| PlacementRuns.HandoverLosesUpdate | pkg/autoscaler/manager.go:235-251 | a run in which no event is ignored, and a settled node runs a worker with settings a client has replaced |
| Healers.RunKeepsShape | pkg/autohealer/healer.go:143-241 | in every state of every run: at most three instances are watched, each by a live watcher with an open channel, and none of them is whitelisted |
| HealerHistory.StripExactly | pkg/autohealer/healer.go:139 | an instance is the part of a label before its first colon |
| HealerHistory.WhitelistedExactly | pkg/autohealer/healer.go:143-150 | in every state of every run an instance is whitelisted if and only if it has been healed and no successful active tick since has failed to report it |
| HealerHistory.RunningExactly | pkg/autohealer/healer.go:173-241 | in every state of every run a watcher runs if and only if, when it was born, a tick admitted its instance (reported exactly as often as the level asks for, not whitelisted, not watched, matched by no silence, and not one of too many), and it has not been cancelled, returned from healing, or quit since; so whatever a tick has reason to heal is watched from then on |
| HealerHistory.NamedExactly | pkg/autohealer/healer.go:161-236 | the channel table names a watcher if and only if its instance was admitted then, no tick has found it up or a storm since, and no watcher has healed it since |
| HealerHistory.CancelledExactly | pkg/autohealer/healer.go:161-201 | a watcher's channel is closed if and only if a tick that found the instance up, or a storm, found the watcher in the table |
| HealerHistory.FiresExactly | pkg/autohealer/healer.go:227-232 | in every run a check heals its instance if and only if the duration has passed since the first check of the same watcher |
| HealerHistory.SilencesExactly | pkg/autohealer/healer.go:110-119 | in every run a silence is known as it was set last, unless it has gone since |
| HealerHistory.NamesExactly | pkg/autohealer/healer.go:249-253 | and the name of an instance's node is known as it was given last |
| Healers.StepKeepsWatchedExactly | pkg/autohealer/healer.go:233-237 | for any one instance, that every open live watcher is in the channel table survives every step but one: a watcher returning from its healing when the instance has another one |
| Healers.RunKeepsWatched | pkg/autohealer/healer.go:143-241 | it holds in every run whose steps have been guarded as to that instance since there was last no watcher for it; and then, while a cancelled watcher is still healing, the instance has no other one |
| Healers.StormCancelsAll | pkg/autohealer/healer.go:190-201 | a tick that would exceed three instances leaves no channel, and every watcher cancelled |
| Healers.AtMostOncePerOutage | pkg/autohealer/healer.go:143-150 | between two fires for an instance there is a successful active tick that does not report it: in every run, if at the later one it is neither whitelisted nor being healed; and if the later one is not that of a cancelled watcher, in every run guarded as to the instance since it last had no watcher |
| Healers.SecondFireIsStale | pkg/autohealer/healer.go:221-238 | with such a guard, a fire for an instance that has fired already and has not been up since is that of a cancelled watcher whose instance has no other one |
| Healers.FireIsJustified | pkg/autohealer/healer.go:203-241 | in every run, whoever fires, cancelled or not: the instance was admitted (count equal to the level, not whitelisted, watched or silenced), its watcher started its alert after that, and the duration has passed since |
| Healers.NamedHasStayedDown | pkg/autohealer/healer.go:161-201 | in every run, the instance of a watcher that the channel table names has been reported by every successful active tick since its admission, with no storm |
| Healers.ClosedHasCause | pkg/autohealer/healer.go:161-201 | in every run, a live watcher has been cancelled by a tick after its admission that did not report its instance, or found a storm |
| Healers.FireIsJustifiedExactly | pkg/autohealer/healer.go:221-238 | in every run, the instance a watcher fires for has been reported since its admission, with no storm, if the table names the watcher, and has not if the watcher is cancelled; both are equivalences as long as the table has lost no open watcher of the instance, as it has not where steps are guarded |
| HealerRuns.UnguardedTickBreaks | pkg/autohealer/healer.go:170-241 | any tick that admits an instance still being healed can be followed by two fires in one outage, with guarded steps only |
| HealerRuns.StaleFireBreaks | pkg/autohealer/healer.go:221-238 | a cancelled watcher that fires although its instance has another one: that one has fired in the same outage, or can do so with guarded steps only |
| HealerRuns.UnguardedStepBreaks | pkg/autohealer/healer.go:143-241 | so the guard is not stricter than it must be: any step of any run that is not guarded, of a healer that has not been stopped, can be followed, with guarded steps only, by a run with two fires in one outage, the second at that step or later |
| HealerRuns.UpWhileHealingFiresTwice | pkg/autohealer/healer.go:161-168 | for every active configuration, a run with just one step that is not guarded: an instance comes up and goes down while it is being healed, and is then healed twice in one outage |
| HealerRuns.StormWhileHealingFiresTwice | pkg/autohealer/healer.go:190-201 | for every active configuration, such a run in which a storm comes during healing |
| HealerRuns.StaleWatcherFiresTwice | pkg/autohealer/healer.go:221-238 | for every active configuration, such a run in which a cancelled watcher takes its ticker once more |
| HealerLoop.Loop.UpdateNodes | pkg/autohealer/healer.go:249-253 | names are filed under addresses stripped of their ports; other addresses keep theirs |
| HealerLoop.Loop.ValidateSilence | pkg/autohealer/healer.go:408-416 | exactly the silences that expire later than now stay |
| HealerLoop.Loop.Count | pkg/autohealer/healer.go:136-141 | each instance is counted with its multiplicity among the labels, ports apart |
| HealerLoop.Loop.ClearWhitelist | pkg/autohealer/healer.go:143-150 | the whitelist keeps exactly the instances still reported |
| HealerLoop.Loop.CloseAbsent | pkg/autohealer/healer.go:161-168 | exactly the channels of instances no longer reported are closed and forgotten |
| HealerLoop.Loop.IsSilenced | pkg/autohealer/healer.go:180-186 | true if and only if some silence matches, whatever the order they are asked in |
| HealerLoop.Loop.Filter | pkg/autohealer/healer.go:170-188 | deleting from the map while ranging over it leaves, for every order, exactly the instances at the level that are not whitelisted, watched or silenced |
| HealerLoop.Loop.AdmitUnlessStorm | pkg/autohealer/healer.go:190-241 | either everything wanted gets a channel and a watcher, or everything is closed |
| HealerLoop.Loop.Evaluate | pkg/autohealer/healer.go:121-243 | the whole body of a successful tick amounts to one transition of the system whose runs HealerHistory tells |
| HealerLoop.Loop.Check | pkg/autohealer/healer.go:227-232 | a watcher's tick starts its alert if need be and heals just when the transition system says so |
| HealerLoop.Loop.Finish | pkg/autohealer/healer.go:233-237 | after healing, the instance is whitelisted, its channel forgotten and its watcher gone |
| HealerKeys.KeyRoundTrip | pkg/autohealer/manager.go:203-204 | the cloud's ID is got back from the key of a cloud or worker |
| HealerKeys.DerivedKeyExactly | pkg/autohealer/manager.go:236-237 | replacing the prefix in the resolver's key gives the healer's key if and only if neither the ID nor its hash begins with the prefix's name |
| HealerKeys.DeleteTakesOne | pkg/autohealer/manager.go:231-237 | deleting by prefix takes no other worker of that kind |
| HealerManagers.Manager.StartWorker | pkg/autohealer/manager.go:96-121 | everybody starts a resolver, only the owner a healer, and nobody without a backend |
| HealerManagers.Manager.StopWorker | pkg/autohealer/manager.go:123-134 | everybody stops a resolver, only the owner a healer |
| HealerManagers.Manager.HandleCloud | pkg/autohealer/manager.go:202-242 | an event of a cloud touches its resolver only; which keys it puts and deletes, whether or not that succeeds |
| HealerManagers.Manager.HandleHealer | pkg/autohealer/manager.go:251-262 | an event of a healer touches that healer only, and only at its owner |
| HealerManagers.Manager.Rebalance | pkg/autohealer/manager.go:283-325 | whatever the order: exactly the registered healers given away are put and dropped, unless that fails; every other worker stays, resolvers among them; and of the healers that do not run, exactly the owned ones that can be started start |
| Cascade.HealingIsPlacement | pkg/autohealer/manager.go:251-262 | as to which healers run, a node handles an event as the protocol of Placement has it |
| Cascade.RebalanceIsPlacement | pkg/autohealer/manager.go:283-325 | as to which healers run and which are put, a reload does as the protocol of Placement has it |
| Cascade.LoadedExactly | pkg/autohealer/manager.go:75-94 | a node that loads resolves names for just the clouds that are there and whose resolver's key is, and runs just the owned healers whose key and cloud are there, where that does not fail |
| Cascade.RunKeepsInv | pkg/autohealer/manager.go:202-261 | in every run, whatever clouds, healers, nodes and rings go through and whatever fails: a node resolves names only for clouds it has heard of, and its healers are explained, one by one, as the workers in Placement |
| Cascade.StrandsHealerExactly | pkg/autohealer/manager.go:150-325 | after any step the key of a healer is there without its cloud and without a deletion to come, if and only if it was so before and the step does not store the cloud or delete the healer, or the step is one of these: a deletion of the cloud when there is no node; the last deletion heard, if it fails to delete the key; a reload that hands the healer over too late; a node that leaves or crashes and was the last to hear, or puts the healer when nobody is to hear any more |
| Cascade.HealerStrandedExactly | pkg/autohealer/manager.go:150-325 | so, in every state of every run, the key of a cloud's healer is stranded if and only if such a step has stranded it and no client has stored the cloud or deleted the healer since; other clouds do not matter |
| Cascade.StrandsResolverExactly | pkg/autohealer/manager.go:150-242 | after any step the key of a resolver is there without its cloud, and no node runs the resolver or is to hear of a creation of the cloud, if and only if it was so before and the step does not store the cloud, or the step makes it so: the same, told for the key that only a node running the resolver deletes |
| Cascade.ResolverStrandedExactly | pkg/autohealer/manager.go:150-242 | so, in every state of every run, the key of a resolver is stranded if and only if such a step has stranded it and no client has stored the cloud since |
| Cascade.KeylessExactly | pkg/autohealer/manager.go:205-227 | in every run, a cloud that is there lacks its resolver's key, with no node to hear of its creation, if and only if a step has brought that about (no node to hear of it, or the last one fails to put the key or goes), and since then no client has deleted the cloud and no leaving node has put the key |
| Cascade.IdleExactly | pkg/autohealer/manager.go:75-121 | in every run, a node knows of a cloud and does not resolve names for it if and only if it has failed to start the resolver, or loaded when the key was not there, and has not heard of a deletion of the cloud since |
| Cascade.MarksAreExact | pkg/autohealer/manager.go:251-262 | in every run, a node that has heard everything about healers bears marks that tell, by the steps of the run, which last events it has ignored, and at which healers it has failed without any later step that makes up for it |
| Cascade.HealersRun | pkg/autohealer/manager.go:251-325 | in every run, a settled node runs a healer that it has failed to start or to hand over just if it does not own it, and another one if and only if it owns it and its key is there, or it has ignored the last event about it; so one whose key is gone runs just where its deletion was ignored |
| Cascade.CascadeCompletes | pkg/autohealer/manager.go:202-261 | once all nodes have heard of all clouds, after whatever run: the keys of the healer and of the resolver of a cloud that is gone are there if and only if stranded, by the steps named above, and no node runs the resolver; a cloud that is there lacks its resolver's key if and only if it has been lost, and its resolver on a node if and only if that node has failed to start it |
| Cascade.NothingRunsOn | pkg/autohealer/manager.go:227-261 | and then, unless its key is stranded, the healer of a cloud that is gone runs on a settled node if and only if that node has ignored its deletion |
| CascadeRuns.LateHandoverStrands | pkg/autohealer/manager.go:300-319 | a run of one node in which nothing fails, and that ends settled with the key of a healer whose cloud is gone |
| CascadeRuns.IgnoredDeletionLeavesHealer | pkg/autohealer/manager.go:123-129 | a run of one node, in which no step strands the healer's key, that ends settled with the healer running although its cloud and key are gone |
| CascadeRuns.LeaveStrandsResolver | pkg/autohealer/manager.go:150-177 | a run of two nodes in which nothing fails: one leaves before it has heard of a cloud's deletion, and puts back the key of the resolver, which nobody is left to delete |
| Schedules.RegisteredInTime | pkg/scheduler/manager.go:179-180 | a scheduler is registered with an occurrence that is not yet past, and no later one comes before it |
| Schedules.RegisteredExactly | pkg/scheduler/manager.go:125-139 | after any run of ticks a scheduler is still registered if and only if none of them has found it active with ToDateTime past |
| Schedules.ForwardSkipsExactly | pkg/model/scheduler.go:92-109 | moving on reaches the very next occurrence if and only if no other one is past as well |
| Schedules.NoOccurrenceMissed | pkg/scheduler/manager.go:141-148 | with visits at most a gap apart and occurrences further apart than that, every occurrence from the first held to the one held now has had a run |
| Schedules.RunsAreTimely | pkg/scheduler/manager.go:141-148 | no run is an interval or more early, nor more than the gap late |
| Schedules.RunsExactlyTwice | pkg/scheduler/manager.go:141-148 | with exact ticks, an occurrence met before it is past runs at exactly two ticks: the last one not after it, and the next |
| Schedules.EveryOccurrenceRunsTwice | pkg/scheduler/manager.go:141-148 | so does every occurrence held, for expressions with whole minutes between occurrences |
| Schedules.NothingIsMissed | pkg/scheduler/manager.go:121-148 | a registered active scheduler, whether its time has begun or not, runs for every occurrence after FromDateTime and up to ToDateTime, and for later ones as long as no tick has found it expired: at a tick that holds this very occurrence, or at the opening tick, which runs once for all up to its own end; at most the gap late, and at most the interval or the gap early; each direction by its own cron alone |
| Schedules.RunsStayInWindow | pkg/scheduler/manager.go:125-148 | only an active scheduler runs anything; nothing runs at or before FromDateTime, and at most one tick after ToDateTime runs anything |
| Schedules.FirstActiveTickRunsStale | pkg/scheduler/manager.go:125-148 | in either direction, the first active tick runs an occurrence from before the window if and only if that was the one held at registration |
| Schedules.NeverDueRunsAlways | pkg/model/scheduler.go:84-109 | an expression without occurrences has its actions run at every tick |
| Schedules.Scheduler.ForwardFromNextExec | pkg/model/scheduler.go:92-99 | only an occurrence strictly in the past is given up |
| Schedules.Scheduler.Look | pkg/scheduler/manager.go:125-148 | one scheduler's part of a tick is one step of the runs above: it is removed just when it is active and ToDateTime is past, and each direction runs just when it is active and its occurrence is less than the interval away |
| Schedules.Manager.StoreScheduler | pkg/scheduler/manager.go:165-182 | a foreign scheduler is ignored; an own one replaces what was registered under its name, brought up to the present |
| Schedules.Manager.Tick | pkg/scheduler/manager.go:121-156 | for every order of iteration each scheduler takes just its own step, and exactly the active ones whose ToDateTime is past are removed from the registry, and from etcd where that does not fail |
| Silences.HoursAreNearest | pkg/model/silence.go:60 | the rounded hours are the nearest whole number, and of two the even one; no other number is |
| Silences.Silence.Validate | pkg/model/silence.go:41-80 | acceptance, and all fields afterwards, for each of the ways dates and TTL may be given and for every error |
| Silences.BeginsNow | pkg/model/silence.go:50-70 | an accepted silence that is new never begins in the past, and keeps a beginning that lies ahead; one given by a TTL alone begins now and expires just the TTL later |
| Silences.LeaseNearRemainingExactly | pkg/model/silence.go:56-61 | the lease of a silence given by dates is within half an hour of the time left if and only if that is at least minus half an hour and below 2562047.5 hours |
| Silences.LeaseOfGivenTTL | api/silence.go:78-80 | the lease of a silence given by a TTL is the time between its dates, even if it was created long ago |
| Silences.SecondLook | pkg/model/silence.go:62-70 | validating once more moves the expiry by at most half an hour, and not at all if and only if whole hours remain |
| SilenceSync.CanBeEligibleExactly | pkg/autohealer/healer.go:465-476 | some comment satisfies a healer's tags if and only if none of them has a capital letter; and all that do begin with the prefix, in whatever case |
| SilenceSync.TakenExactly | pkg/autohealer/healer.go:459-505 | a silence is to be taken over if and only if its comment begins with the prefix and names every tag in brackets, it has both dates, and a pattern for instances that compiles |
| SilenceSync.Syncer.Ignores | pkg/autohealer/healer.go:465-482 | a comment is ignored if and only if it lacks the prefix or some tag |
| SilenceSync.Syncer.FindPattern | pkg/autohealer/healer.go:491-497 | the pattern is that of the first matcher on instance |
| SilenceSync.Syncer.Settle | pkg/autohealer/healer.go:459-540 | one silence is taken over, renewed or left, for every combination of failures; no other ID changes |
| SilenceSync.Syncer.Purge | pkg/autohealer/healer.go:542-560 | exactly the synced silences that Alertmanager no longer has, and that can be deleted, go, from the healer and with their prefix from etcd |
| SilenceSync.Syncer.Round | pkg/autohealer/healer.go:459-560 | for every order of iteration a round gives each ID the same entries; in etcd, provided no ID is the beginning of another |
| SilenceSync.RoundSandwich | pkg/autohealer/healer.go:459-560 | after a round without failures a silence is synced if and only if it was taken over now, or had been and is still known; it agrees with etcd, carries Alertmanager's ID and pattern; all other entries are untouched |
| SilenceSync.RoundExactly | pkg/autohealer/healer.go:459-560 | whatever fails, a round leaves an ID with one of three things: the new entry, in the healer and in etcd, just if the silence is taken over, storing succeeds, and an outdated entry, if any, could be deleted; nothing, if an outdated entry was deleted in vain, or Alertmanager no longer knows the silence; and otherwise what was there |
| SilenceSync.AgreementStays | pkg/autohealer/healer.go:459-560 | whatever fails, a healer and etcd that agree about an ID do so after the round |
| SilenceSync.ExpiryIsNear | pkg/autohealer/healer.go:507-523 | a silence first taken over expires when Alertmanager's does; one renewed, within half an hour and the delay between clock readings |
| Tracker.WFLExecTracker.ExecuteWFL | pkg/autohealer/wflexectracker.go:102-123 | a creation counts as an attempt even if it fails, and none is made beyond the fifth attempt |
| Tracker.WFLExecTracker.Start | pkg/autohealer/wflexectracker.go:70-100 | the two nested loops give, for all answers of the workflow service, exactly the verdict below, report success at the very first poll that shows one, and stop at the very error that decides |
| Tracker.SucceedsExactly | pkg/autohealer/wflexectracker.go:70-100 | success is reported, with one execution more than errors, if and only if the first success polled comes after fewer than five errors, with every creation up to it accepted |
| Tracker.RefusedExactly | pkg/autohealer/wflexectracker.go:102-123 | a refused creation ends it if and only if it comes after fewer than five errors, no success among them, and is the first one refused; there are then just as many executions |
| Tracker.GivesUpExactly | pkg/autohealer/wflexectracker.go:102-111 | it gives up if and only if five errors are polled before any success, and the first five creations were accepted |
| Tracker.WaitsExactly | pkg/autohealer/wflexectracker.go:70-100 | it keeps on polling if and only if no success and fewer than five errors have been polled, and every creation so far was accepted |

## Left out

- HTTP handlers, authentication, configuration, exporters, logging and the encoding of values: plumbing around what is
  modelled.
- The consistent hash is any function of the member set and the key; nothing is said about how evenly it spreads
  workers.
- Between a snapshot and the watch that follows it no event is lost; the watch carries no revision, so the program
  relies on that too.
- Managers.Manager.Rebalance: a reload reads its snapshot, acts on it and puts as one step of its node; other nodes'
  steps come before or after it, and its snapshot may be older than they are. Failures of etcd are keys whose put or
  start fails.
- `Registry.Iter` is a snapshot of the registry; the locks that make it block the scheduler's own removals are not
  modelled.
- A put that recreates a key deleted meanwhile is part of the runs in `Placement`, so nothing is said about deleted
  workers staying deleted, or about nodes never overlapping before they are settled.
- A scaler's tick and its Stop exclude each other; a create event for a registered worker replaces the entry, and the
  goroutine it leaves behind is not modelled.
- Scalers.RoundExactlyByRule: durations and cooldowns are those that fit into 64 bits; settings of 292 years or more
  wrap around to other durations (`Durations.ParsedExactly` says exactly which), for scalers and healers alike.
- The healer's maps are accessed by one step at a time; data races on them are not modelled. Watchers are values in a
  table rather than objects.
- Schedules.Manager.Tick: the scheduler's manager handles events and reloads as the autoscaling one does, without an
  alert, and is not put through `Placement` again.
- Cascade.CascadeCompletes: a node loads at one revision, and handles an event of a cloud, with its puts and
  deletions, as one step; other nodes' steps come before or after it.
- SilenceSync.Syncer.Round: nothing is said of etcd's entries when one ID is the beginning of another, since they then
  depend on the order.
- `updateSilence` and the healer's own watch on silences file entries under full etcd keys, while the round files them
  under IDs; they appear in `SilenceSync` as entries under other keys, which a round removes when they are synced.
- Alertmanager's IDs are never empty; upper case means the letters A to Z; times are compared as instants; hours are
  rounded exactly rather than in floating point; etcd's own minimum for leases is not modelled.
- The name of its node, which a watcher learns before it evaluates and hands to `do`, is not kept in its state.
- Whether a silence applies is asked only when an instance is admitted; a running watcher is not stopped by one, and
  nothing is claimed about that.
- Executing actions, resolving names, sending mails, the store of OpenStack clients, and `common.Find`: short bodies
  or unseen services.
