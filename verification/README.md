# Pylon: a Dafny model of its indexes, caches and hand-off protocols

Pylon is a Pusher-compatible realtime server. This project models the parts whose correctness is not visible in any
one function and proves what they promise:

- **Channels and presence** (`ChannelSpec`, `ChannelState`, `PresenceEdges`, `Fanout`, `Registry`,
  `RegistryInterleaving`). A channel stands for the sequence of its live joins. The subscriber map, the presence index,
  the memoised roster frame and the memoised fan-out snapshot are classes' fields proved to be derived from that
  sequence after every call. The registry's two-phase unsubscribe is a step relation over all interleavings.
- **Users and watchlists** (`UserRegistry`, `WatchInterleaving`). Two maps that must stay inverse, and the 0 -> 1 and
  1 -> 0 edges reported from them, sequentially and under every interleaving of the guarded steps.
- **Cluster control** (`NodeToken`, `ClusterNode`, `Admission`, `AdmissionNode`). The one-shot subscription token and
  the capacity books, as state machines over workers, a FIFO queue and the bridge's phases, and again as the calls the
  code makes.
- **WebSocket frames** (`FrameMask`, `FrameCodec`, `FrameStream`, `FrameBuffer`): RFC 6455 sections 5.1 to 5.5.
- **Mailboxes** (`MailboxSpec`, `Mailbox`), the **broadcast hand-off** (`Broadcast`), the **rate limiter**
  (`TokenBucket`), the **app cache** (`AppCache`) and the **calendar** of the conformance report (`Calendar`).

`Prelude` holds shared vocabulary. `dafny verify dfyconfig.toml` covers everything.

## How it is stated

A run is a fold of a step function over an arbitrary sequence of labelled actions; an action that is not enabled changes
nothing. Theorems quantify over all action sequences, so over every reachable state. Code that updates objects in place
is a class whose methods are proved against functions of the old state; the lemmas are about those functions. Faults
(a full queue, a Redis error, a partial write, an eviction) are parameters of the actions, so every combination of them
is covered.

Where a promise fails in some runs, the failing runs are characterised by an if-and-only-if over all runs, and one of them
is exhibited:

- A user's presence edges alternate and bracket its time on the roster if and only if no add re-adds a socket that is
  already its user's only connection: such an add swallows the leave (`PresenceEdgesExact`, `ReAddBreaks`).
- Occupied and vacated reports alternate if and only if no removal meets an entry that is already empty and not yet
  pruned (`ReportsExact`, `SecondRemovalBreaks`).
- Outside its unwatch phases, a user's latest watch edge is right if and only if no re-watch has swallowed its 1 -> 0 edge
  since it was last watched (`WatchInterleaving.WatchEdges`, `ReWatchSwallows`). For one call: announcements stay exact if
  and only if every user only that socket watched is on the new list (`UserRegistry.UserRegistry.WatchEdges`,
  `ReWatchForgets`).
- With no command dropped, a drained and idle bridge is rightly subscribed to a channel if and only if no rejection that
  took the channel's last member ahead of a queued token for it was left unmended (`QuiescentExact`, `RejoinEndsWrong`).
  Sockets that do not rejoin while their earlier join is pending never cause one (`TokenTheorem`).
- Capacity units are lost one for one by replies that land between a worker's time-out and the drop of its receiver
  (`StrandedExactly`, `WindowStrands`).

Bookkeeping fields of the protocol models (membership, queues, accepted events, owed prunes, announced edges, totals) are
each proved equal to a function of the run's actions, so a theorem never compares the model with itself.

The rate limiter's window bound is proved for every clock, counting its forward steps (`AnyClockBound`); for a clock that
never goes back that is the documented bound (`WindowBound`), and for one that does the documented bound fails
(`BackwardsClockRefills`).

Three comments in the sources disagree with the code, and the code is followed:

- `src/cluster/bridge.rs:591-595` says a late unit is given back by the connection's close; the close owes nothing after
  a fail-open, and the bridge gives the unit back (`src/cluster/bridge.rs:1378-1383`).
- `src/transport/fanout.rs:113-116` says the inbox-full signal is cleared by the worker whose inbox was full; any
  worker's drain clears it (`ClearForAnother`).
- `src/transport/frame.rs:222` says FIN is always set on server frames; `encode` writes the `fin` it is given.

Integers are unbounded except where width matters: bytes are 0..255, lengths are bounded by 2^63, 2^64 and the target's
largest `usize`, remainders by the largest `u32`. Bit tests are arithmetic and XOR is defined on binary digits. The wire
encoder is an uninterpreted function of channel and payload.

## Model

| member | source | states |
|---|---|---|
| `ChannelState.ChannelState.Add` | src/channel/state.rs:83-116 | The state stands for the joins with the socket's old membership replaced by the new one; `first_for_user` exactly when this is the user's only connection; the frame is a fresh encode of the current roster, and is re-encoded only if the roster moved or the socket was its user's sole connection |
| `ChannelState.ChannelState.Insert` | src/channel/state.rs:91-111 | Indexing an unsubscribed socket appends one join, resets the snapshot, and drops the cached frame exactly for a user's first connection |
| `ChannelState.ChannelState.Index` | src/channel/state.rs:91-111 | Both indexes gain the socket, the snapshot is reset, and the cached frame is dropped exactly for a user's first connection |
| `ChannelState.ChannelState.PushConn` | src/channel/state.rs:92-101 | The socket goes last on its user's list; an existing entry keeps its info |
| `ChannelState.ChannelState.Remove` | src/channel/state.rs:120-143 | The state stands for the joins without the socket; a leave is reported exactly for a presence member, last exactly when its user is off the roster; the cached frame is kept exactly when the advertised roster is unchanged |
| `ChannelState.ChannelState.DropConn` | src/channel/state.rs:124-138 | The user's entry loses the socket, disappears with its last one, and otherwise carries the oldest survivor's info |
| `ChannelState.ChannelState.ReseatUserInfo` | src/channel/state.rs:149-166 | The entry takes the info of the given live connection; the cached frame is dropped exactly when that changed something |
| `ChannelState.RetainMethod` | src/channel/state.rs:126-126 | The other sockets remain in order |
| `ChannelState.ChannelState.CachedRosterFrame` | src/channel/state.rs:223-238 | The frame equals a fresh encode of the current roster; it is encoded only when none is cached |
| `ChannelState.ChannelState.SubscriptionCount` | src/channel/state.rs:168-170 | The number of live joins |
| `ChannelState.ChannelState.UserCount` | src/channel/state.rs:183-189 | `None` exactly when no user is on the roster, else the number of distinct users |
| `ChannelState.ChannelState.FanOut` | src/channel/state.rs:266-296 | The snapshot lists every current subscriber exactly once, as many as there are live joins, is reused while membership is unchanged, and the parallel path is chosen exactly above 256 subscribers |
| `ChannelState.GenerationEnds` | src/channel/state.rs:64-69 | The resets of a re-add end the roster generation exactly when the roster moved or the socket was its user's sole connection |
| `ChannelState.LeaveMovesOne` | src/channel/state.rs:120-166 | A leave moves the advertised roster only by removing its user or changing that user's info |
| `ChannelSpec.ConnsMembership` | src/channel/state.rs:29-35 | A user's list is duplicate-free and holds exactly its live sockets |
| `ChannelSpec.ConnsInJoinOrder` | src/channel/state.rs:29-35 | And the list is in join order |
| `ChannelSpec.RosterAnnounces` | src/channel/state.rs:191-207 | The roster payload has exactly the users with a live join, ids ascending, their number, and for each the info its oldest live join presented |
| `ChannelSpec.AnnouncesUnique` | src/channel/state.rs:191-207 | Only one payload has those properties |
| `ChannelSpec.EncodesRoster` | src/channel/state.rs:196-207 | Encoding from the id to info map alone equals encoding the full payload of count, ascending ids and infos |
| `ChannelSpec.SortedUnique` | src/channel/state.rs:45-51 | There is only one ascending listing of a set of user ids |
| `ChannelSpec.Members` | src/channel/state.rs:240-248 | One member per roster user with its info, ids ascending |
| `PresenceEdges.PresenceEdgesExact` | src/channel/state.rs:83-143 | Over every run, all users' first and last reports alternate and bracket their time on the roster if and only if no add re-adds a sole connection |
| `PresenceEdges.NoReAddsFaithful` | src/channel/state.rs:83-143 | In particular in every run where no subscribed socket is re-added |
| `PresenceEdges.ReAddBreaks` | src/channel/state.rs:75-90 | One socket added twice as the same user is a run whose reports are wrong |
| `PresenceEdges.StepBreaks` | src/channel/state.rs:89-90 | A re-add of a sole connection breaks its user's reports |
| `PresenceEdges.DriveOne` | src/channel/state.rs:83-143 | One call on the channel object is one step of the run and reports its edge |
| `PresenceEdges.Drive` | src/channel/state.rs:83-143 | Driving a fresh channel object through any operations yields exactly the joins and reports of the run |
| `PresenceEdges.JoinsAreLive` | src/channel/state.rs:83-143 | Over every run the joins are exactly the sockets last added and not removed since, each with the member it was last added with |
| `PresenceEdges.JoinsInOrder` | src/channel/state.rs:83-143 | And they stand in the order of those adds |
| `Fanout.Mailboxes.SendOne` | src/channel/state.rs:327-333 | The excluded socket is skipped; any other is sent the frame once |
| `Fanout.Mailboxes.SendSerial` | src/channel/state.rs:325-336 | Exactly the snapshot minus the excluded socket is sent the frame, once each |
| `Fanout.Mailboxes.SendChunked` | src/channel/state.rs:342-352 | The same result for chunk jobs under every interleaving of their sends |
| `Fanout.Mailboxes.Send` | src/channel/state.rs:323-353 | Both paths deliver the same |
| `Fanout.ChunksHold` | src/channel/state.rs:342-342 | Chunking neither loses nor duplicates a subscriber |
| `Fanout.DeliveryConserves` | src/channel/state.rs:323-353 | A delivery keeps every mailbox's books: each frame is queued in order or counted as dropped |
| `Fanout.DeliveredExact` | src/channel/state.rs:323-353 | Mailbox by mailbox: a target has the frame queued last, once, or counts one drop when full; the excluded one, closed ones and all others are untouched |
| `Fanout.BroadcastAcross` | src/channel/state.rs:262-296 | Whatever adds and removes run between snapshot and send, they take their own effect and exactly the guard-time subscribers minus the excluded one are sent the frame once |
| `Registry.SubscribeTo` | src/channel/registry.rs:31-40 | On one channel: the count, occupied exactly when it was empty, and the join with its member, first flag and roster frame |
| `Registry.UnsubscribeFrom` | src/channel/registry.rs:51-55 | On one channel: the remaining count, vacated exactly when it is now empty, and the leave |
| `Registry.Registry.Subscribe` | src/channel/registry.rs:22-41 | Only the named channel changes, by that join; occupied exactly when it had no subscriber; the join names the subscribing member, and its roster frame is a fresh encode under the entry's own name |
| `Registry.Registry.Unsubscribe` | src/channel/registry.rs:43-65 | Only the named channel changes, by that leave; vacated exactly on the last leave; no empty entry remains |
| `Registry.Registry.Store` | src/channel/registry.rs:56-58 | The entry is pruned exactly when it is empty |
| `Registry.SetAt` | src/channel/registry.rs:22-65 | Every other channel keeps its joins |
| `Registry.EntryAnnounces` | src/channel/state.rs:209-238 | The frame a registered channel hands out is the encoding of what its live joins call for |
| `Registry.Registry.Broadcast` | src/channel/registry.rs:67-87 | The channel's subscribers minus the excluded one are sent the frame once; an absent channel sends nothing |
| `RegistryInterleaving.EntriesAreSubscribed` | src/channel/registry.rs:22-65 | Under every interleaving the entry holds exactly who is subscribed, so no prune discards a live subscriber |
| `RegistryInterleaving.EmptyEntryIsOwed` | src/channel/registry.rs:50-58 | An empty entry exists only while some unsubscribe owes its prune |
| `RegistryInterleaving.OwedExact` | src/channel/registry.rs:50-58 | Each removal that emptied an entry owes one prune, and nothing else does |
| `RegistryInterleaving.SettledExact` | src/channel/registry.rs:50-58 | Once those prunes are done the registry holds exactly the occupied channels |
| `RegistryInterleaving.ReportsExact` | src/channel/registry.rs:36-64 | Every channel's reports alternate from occupied and bracket its occupancy if and only if no removal meets an empty entry |
| `RegistryInterleaving.SecondRemovalBreaks` | src/channel/registry.rs:50-64 | A subscribe and two removals before the prune are a run whose reports are wrong |
| `RegistryInterleaving.SubscribedRemovalsFaithful` | src/channel/registry.rs:22-65 | Unsubscribing only subscribed sockets is enough for that, whatever the interleaving |
| `UserRegistry.UserRegistry.Signin` | src/user/registry.rs:26-34 | The socket joins its user's set; first exactly when the set was empty |
| `UserRegistry.UserRegistry.Signout` | src/user/registry.rs:36-52 | Only that socket leaves; last exactly when the user's entry went; no empty set remains |
| `UserRegistry.UserRegistry.IsOnline` | src/user/registry.rs:61-65 | Exactly when the user has a signed-in socket |
| `UserRegistry.UserRegistry.Watch` | src/user/registry.rs:72-101 | The new list fully replaces the old one, the maps stay inverse, the newly watched are without duplicates exactly the listed users nobody else watched, and the online part of the list is returned in order |
| `UserRegistry.UserRegistry.AddAll` | src/user/registry.rs:82-93 | The loop adds the socket to every listed user, reporting each 0 -> 1 user once even for duplicate ids |
| `UserRegistry.UserRegistry.AddWatcher` | src/user/registry.rs:84-92 | One guarded insertion, reporting an empty set |
| `UserRegistry.UserRegistry.FilterOnline` | src/user/registry.rs:94-98 | The online users of the list, in order |
| `UserRegistry.OnlineCount` | src/user/registry.rs:94-98 | The online part holds exactly the listed users with a signed-in socket, each as often as listed |
| `UserRegistry.OnlineInOrder` | src/user/registry.rs:94-98 | In list order |
| `UserRegistry.UserRegistry.Unwatch` | src/user/registry.rs:106-134 | The socket is gone from every set of its app; without duplicates, exactly the users whose only watcher left are returned |
| `UserRegistry.UserRegistry.DropAll` | src/user/registry.rs:110-132 | The loop over the list, duplicates included |
| `UserRegistry.UserRegistry.DropWatcher` | src/user/registry.rs:112-131 | The two guarded steps of one entry; reports exactly a last watcher |
| `UserRegistry.UserRegistry.WatchEdges` | src/adapter/local.rs:110-117 | Every watched user is announced; announcements stay exact if and only if every user only this socket watched is on the new list |
| `UserRegistry.ReWatchForgets` | src/user/registry.rs:78-93 | Watching one user and then nobody leaves the user announced without a watcher |
| `UserRegistry.UserRegistry.UnwatchEdges` | src/adapter/local.rs:122-124 | Exactly the users whose only watcher left are reported and un-announced; announcements stay exact |
| `WatchInterleaving.WatchEdges` | src/user/registry.rs:72-134 | Under every interleaving a user with a local watcher has "newly watched" as latest edge; outside its unwatch phases that edge is right if and only if no re-watch of the run has swallowed the user's 1 -> 0 edge since it was last watched |
| `WatchInterleaving.WatchEdgesExact` | src/user/registry.rs:72-134 | Without re-watches, latest edge and watchers agree outside those phases |
| `WatchInterleaving.ReWatchSwallows` | src/user/registry.rs:78-93 | A watch of one user and then of nobody ends with every call over, no watcher and "newly watched" as latest edge |
| `WatchInterleaving.EmptySetIsOwed` | src/user/registry.rs:116-131 | An empty set exists only while an unwatch owes its delete |
| `WatchInterleaving.IndexInverse` | src/user/registry.rs:72-134 | Under every interleaving, an idle connection is in a user's set exactly when the user is on its list |
| `WatchInterleaving.WatchersExact` | src/user/registry.rs:72-134 | Under every interleaving, an idle connection is in exactly the sets of the users on the list it last asked for |
| `WatchInterleaving.EdgesExact` | src/user/registry.rs:83-132 | The edges reported of a user are exactly the 0 -> 1 and 1 -> 0 changes of its watcher set, the swallowed ones left out |
| `NodeToken.TokenTheorem` | src/cluster/bridge.rs:1096-1158 | Over every interleaving of workers and bridge phases with no dropped command and no rejoin of a pending socket, a drained and idle bridge is subscribed exactly to the channels some socket is joined to by the calls and verdicts alone, rejections included |
| `NodeToken.MembersExact` | src/cluster/adapter.rs:65-135 | Over every run the local registry holds exactly the sockets joined and neither left nor rejected since |
| `NodeToken.QueueExact` | src/cluster/adapter.rs:85-133 | Over every run the queue is the accepted commands in call order, each with its call's socket, kind and edge; the bridge holds the latest one taken, and only a presence join awaits a verdict |
| `NodeToken.QuiescentExact` | src/cluster/bridge.rs:1104-1158 | Over every run without a dropped command, rejections and rejoins included, a drained and idle bridge is rightly subscribed to a channel if and only if no stranding rejection of it was left unmended by a later call or rejection |
| `NodeToken.QuiescentRight` | src/cluster/bridge.rs:1104-1158 | In particular in every run in which no rejection strands a channel |
| `NodeToken.RunKeeps` | src/cluster/adapter.rs:65-135 | In every state of such a run, what is queued and held will settle each channel rightly |
| `NodeToken.NeverRejoinsNeverStrands` | src/cluster/bridge.rs:1149-1156 | Without rejoins of pending sockets no rejection strands a channel |
| `NodeToken.StrandingIsWrong` | src/cluster/bridge.rs:1153-1156 | From any state, after a stranding rejection that nothing mends, the drained node is subscribed to a channel without members, whatever happens on other channels |
| `NodeToken.RejoinStrands` | src/cluster/bridge.rs:1149-1156 | A join, leave and rejoin of one socket reach a state in which a rejection strands the channel |
| `NodeToken.RejoinEndsWrong` | src/cluster/bridge.rs:1104-1158 | That run, rejected and drained, ends idle with nothing dropped and subscribed without a member |
| `ClusterNode.ClusterNode.TrySend` | src/cluster/bridge.rs:330-340 | A full queue drops the command and counts it |
| `ClusterNode.ClusterNode.Subscribe` | src/cluster/adapter.rs:65-109 | Only that socket joins only that channel, and a command with its edge is queued when there is room; soundness is kept unless the socket's earlier join is pending |
| `ClusterNode.ClusterNode.Unsubscribe` | src/cluster/adapter.rs:111-135 | Only that socket leaves only that channel, and a command with its edge is queued when there is room; soundness is kept |
| `ClusterNode.ClusterNode.HandleJoin` | src/cluster/bridge.rs:1109-1156 | The token is spent before the verdict, and a rejected join is taken back together with the subscription it leaves without members |
| `ClusterNode.ClusterNode.HandleCmd` | src/cluster/bridge.rs:1096-1158 | The oldest command is carried out as the bridge's phases in order; only a rejected presence join takes a socket out |
| `ClusterNode.ClusterNode.Drain` | src/cluster/bridge.rs:823-850 | Every queued command is handled in order, and with nothing ever dropped the subscriptions then match the registry |
| `Admission.AdmissionConserves` | src/cluster/bridge.rs:576-624 | Over every run this node's units are the connections holding one, unread positive replies, queued releases, lost releases, stranded units and the unit in the bridge's hand; the total never exceeds the capacity; no release meets its floor |
| `Admission.VerdictExact` | src/adapter/redis/client.rs:379-389 | Over every run an admit carried out with Redis up is refused if and only if the units of all nodes fill the capacity, takes one unit exactly when it is not, and with Redis down is answered neither way |
| `Admission.TotalExact` | src/adapter/redis/client.rs:379-411 | The cluster total is this node's units and those taken and not returned elsewhere |
| `Admission.ReplyExact` | src/cluster/bridge.rs:1377-1383 | A waiting connection gets exactly its verdict; a positive one nobody waits for is given back; no other connection moves |
| `Admission.QueueExact` | src/cluster/bridge.rs:576-624 | The queue is one admit per connection and one release per closed holder, in the order sent |
| `Admission.StrandedExactly` | src/cluster/bridge.rs:588-598 | Units are stranded one for one by positive replies landing between time-out and receiver drop |
| `Admission.AtomicTimeoutsConserve` | src/cluster/bridge.rs:1372-1387 | With time-out and receiver drop one step, units are lost only with lost releases |
| `Admission.AtomicNoWindow` | src/cluster/bridge.rs:588-598 | In such runs no reply lands in the window |
| `Admission.WindowStrands` | src/cluster/bridge.rs:1378-1383 | With the two apart, a run loses a unit although no release was lost |
| `AdmissionNode.AdmissionNode.RequestAdmission` | src/cluster/bridge.rs:576-587 | A full queue fails open without a unit; otherwise the connection waits; the books balance |
| `AdmissionNode.AdmissionNode.AwaitVerdict` | src/cluster/bridge.rs:588-599 | The reply that is there, or fail-open; the connection holds a unit after a positive verdict, is gone after a refusal and open without a unit otherwise |
| `AdmissionNode.AdmissionNode.CloseConnection` | src/transport/worker.rs:2852-2858 | Only a holder releases; a dropped release is counted as leaked |
| `AdmissionNode.AdmissionNode.AdmitUnit` | src/adapter/redis/client.rs:379-389 | Admitted exactly while the total is below the capacity, with one unit on both hashes exactly then; a failed call is neither |
| `AdmissionNode.AdmissionNode.ReleaseUnit` | src/adapter/redis/client.rs:401-411 | One unit back on both hashes, floored at zero, or a leak when the call fails |
| `AdmissionNode.AdmissionNode.HandleCmd` | src/cluster/bridge.rs:1372-1387 | The oldest command: a waiting connection is answered whether there was room, a verdict nobody awaits is given back, a release returns one unit; the books balance |
| `AdmissionNode.AdmissionNode.Drain` | src/cluster/bridge.rs:823-850 | Every queued command is served in order, and the node's units are then holders, unread positive replies and lost releases, within the total and the capacity |
| `FrameMask.XorInvolutive` | src/transport/frame.rs:196-197 | XOR with the same number twice is the identity, for all numbers |
| `FrameMask.XorBits` | src/transport/frame.rs:196-197 | Digit by digit it is exclusive or |
| `FrameMask.WordXor` | src/transport/frame.rs:206-213 | XOR of little-endian words is XOR of their bytes, for every width |
| `FrameMask.XorWord` | src/transport/frame.rs:206-213 | An 8-byte block against the broadcast key is bytewise XOR with `key[j % 4]` |
| `FrameMask.UnmaskWord` | src/transport/frame.rs:210-213 | One block in place, the rest untouched |
| `FrameMask.Unmask` | src/transport/frame.rs:201-220 | The in-place word loop with its scalar tail is bytewise XOR with `key[i % 4]` for every length |
| `FrameMask.MaskTwice` | src/transport/frame.rs:196-201 | Masking is its own inverse |
| `FrameCodec.OpFrom` | src/transport/frame.rs:32-54 | The two opcode mappings are inverse |
| `FrameCodec.BeInverse` | src/transport/frame.rs:234-237 | A length that fits its field is read back |
| `FrameCodec.DecodeStable` | src/transport/frame.rs:93-194 | A frame or error decided on a prefix is the same on every extension |
| `FrameCodec.IncompleteBounded` | src/transport/frame.rs:159-173 | A buffer of the longest header plus the payload budget is never incomplete |
| `FrameCodec.DecodeClient` | src/transport/frame.rs:255-262 | Any legal masked frame, with any key and fitting length form, followed by anything, is returned with exactly its own bytes used |
| `FrameCodec.DecodeSound` | src/transport/frame.rs:93-194 | Every returned frame is such a byte string, with the key and form found in it |
| `FrameCodec.DecodeExact` | src/transport/frame.rs:93-194 | The parser accepts exactly the legal masked frames |
| `FrameCodec.ReservedBitsExact` | src/transport/frame.rs:104-108 | Reported exactly when one of the three reserved bits is set |
| `FrameCodec.ReservedOpcodeExact` | src/transport/frame.rs:109-109 | Reported exactly for a nibble other than 0, 1, 2, 8, 9 and 10 with the reserved bits clear |
| `FrameCodec.LengthHighBitExact` | src/transport/frame.rs:124-134 | Reported exactly when an eight-byte length has its top bit set |
| `FrameCodec.FragmentedControlExact` | src/transport/frame.rs:144-148 | Reported exactly for a control frame without FIN whose length can be held |
| `FrameCodec.LongControlExact` | src/transport/frame.rs:149-152 | Reported exactly for a whole control frame longer than 125 |
| `FrameCodec.UnmaskedExact` | src/transport/frame.rs:154-157 | Reported exactly for a permitted frame with the mask bit clear |
| `FrameCodec.TooLargeExact` | src/transport/frame.rs:135-170 | Reported exactly when the written length cannot be held, or a permitted masked frame exceeds the budget or the address range |
| `FrameCodec.IncompleteExact` | src/transport/frame.rs:96-173 | Reported exactly while the base header, the length field or the rest of an acceptable frame is missing |
| `FrameCodec.DoneExact` | src/transport/frame.rs:93-194 | A frame is returned exactly in the remaining case, with FIN, opcode, length and payload bytes as written |
| `FrameCodec.OpNumbers` | src/transport/frame.rs:45-54 | The opcode numbers |
| `FrameStream.ParseSplit` | src/transport/frame.rs:84-93 | Parsing a prefix and then the rest is parsing the whole |
| `FrameStream.ChunkingIndependent` | src/transport/frame.rs:84-93 | Every split of a byte stream gives the same frames, leftover and first error |
| `FrameStream.LeftoverBounded` | src/transport/frame.rs:84-93 | What stays buffered between reads never exceeds one frame of the budgeted size |
| `FrameStream.ParseSent` | src/transport/frame.rs:93-194 | Concatenated legal frames parse to exactly those frames |
| `FrameStream.ParseSentThen` | src/transport/frame.rs:93-194 | And whatever follows them parses as it would alone |
| `FrameStream.FirstError` | src/transport/frame.rs:72-93 | However the bytes are cut up, the frames before the first bad one are delivered and its error is the parser's answer on the bytes there |
| `FrameStream.SentArrives` | src/transport/frame.rs:93-194 | Legal frames arrive as sent however the bytes are cut up |
| `FrameStream.MinimalForm` | src/transport/frame.rs:228-238 | The chosen length form fits and no fitting form is shorter |
| `FrameStream.ServerFrame` | src/transport/frame.rs:224-241 | No other encoding of the frame is shorter |
| `FrameStream.ServerBytes` | src/transport/frame.rs:224-241 | Byte by byte: FIN and opcode, no reserved and no mask bit, the payload's length, then the payload |
| `FrameStream.HelloSent` | src/transport/frame.rs:224-241 | The unmasked text example of section 5.7 of RFC 6455 |
| `FrameStream.ServerUnique` | src/transport/frame.rs:224-241 | A server frame and what follows are determined by the bytes |
| `FrameStream.ServerWireInjective` | src/transport/frame.rs:224-241 | Concatenated server frames decode uniquely |
| `FrameBuffer.ByteBuffer.Parse` | src/transport/frame.rs:93-194 | The parser's checks in order decide as specified; exactly a returned frame is consumed, otherwise the buffer is untouched |
| `FrameBuffer.ByteBuffer.Encode` | src/transport/frame.rs:224-241 | Exactly the shortest server frame is appended |
| `FrameBuffer.ByteBuffer.ParseAvailable` | src/transport/frame.rs:84-93 | Repeated parsing yields the frames and status of the whole buffer, and stops in front of the first error |
| `FrameBuffer.UnmaskCopy` | src/transport/frame.rs:184-187 | The payload handed out is the masked bytes with the mask undone |
| `MailboxSpec.NoLostWakeUp` | src/connection/handle.rs:26-37 | In every reachable state a non-empty mailbox has its token queued, collected, being drained or owed by a sender between push and mark, so a worker asleep for good leaves no mail |
| `MailboxSpec.RunNoticed` | src/connection/handle.rs:101-106 | Also, queued tokens outside a collection come with a pending or owed wake |
| `MailboxSpec.MailConserved` | src/connection/handle.rs:79-108 | On an open mailbox attempts are received, queued or counted drops, accepted events are received and queued in order, and the queue is bounded; on a closed one the received events are still the first accepted ones |
| `MailboxSpec.TrySendExact` | src/connection/handle.rs:87-100 | An open mailbox with room queues exactly the event; a full one counts one drop; a closed one is untouched |
| `MailboxSpec.PostedExact` | src/connection/handle.rs:79-108 | Over every run a mailbox has accepted exactly the events pushed since it connected that found it open with room, in order |
| `MailboxSpec.MailExact` | src/connection/handle.rs:79-108 | What an open one has delivered and holds is exactly those, and the rest tried was dropped |
| `MailboxSpec.OpenExact` | src/connection/handle.rs:77-99 | A mailbox is open exactly while its connection is neither gone nor torn down |
| `MailboxSpec.NothingAfterClose` | src/transport/worker.rs:2298-2341 | Nothing is delivered after a close order, and the connection is then closed |
| `Mailbox.MailboxWorker.Send` | src/connection/handle.rs:79-108 | Fails exactly when the receiver is gone; with room exactly the event is queued, the connection marked and the worker woken; a full mailbox drops and counts |
| `Mailbox.SendIsSteps` | src/connection/handle.rs:87-106 | Push, mark and wake without interruption have that effect |
| `Mailbox.MailboxWorker.DrainSession` | src/transport/worker.rs:2284-2341 | One open connection is drained in order until it is empty or orders a close, and torn down on that order or when writing fails; a closed one is skipped |
| `Mailbox.ReadUntilClose` | src/transport/worker.rs:2298-2329 | The receive loop stops exactly at the first close order |
| `Mailbox.UpToCloseFacts` | src/transport/worker.rs:2298-2329 | Without a close order everything is received; with one, nothing after it |
| `Mailbox.MailboxWorker.Collect` | src/transport/worker.rs:2373-2377 | Every dirty token is taken, once |
| `Mailbox.MailboxWorker.DrainDirty` | src/transport/worker.rs:2356-2429 | One pass over the dirty tokens drains every connection with mail once and leaves no open mailbox with mail |
| `Mailbox.MailboxWorker.DrainFound` | src/transport/worker.rs:2383-2426 | Each collected open connection is drained once, no other is touched |
| `Mailbox.PollCollects` | src/transport/worker.rs:2373-2380 | The protocol's steps from a poll collect the wake and every dirty token once |
| `Mailbox.DrainTurns` | src/transport/worker.rs:2383-2427 | Each collected token can be visited, and with none left the worker polls again |
| `Mailbox.VisitIsSession` | src/transport/worker.rs:2284-2341 | The protocol's receive steps on one connection leave the mailbox the drain leaves |
| `TokenBucket.TokenBucket.constructor` | src/rate.rs:11-20 | Starts full; the capacity is at least burst and rate and equals one of them |
| `TokenBucket.NewBucketGrants` | src/rate.rs:11-20 | A first call is granted exactly up to the larger of burst and rate |
| `TokenBucket.TokenBucket.Take` | src/rate.rs:36-53 | Granted exactly when unlimited, or within capacity and covered by the refilled level, which then loses exactly the cost; a refusal keeps the level; a cost beyond capacity leaves the bucket alone |
| `TokenBucket.RefilledExact` | src/rate.rs:26-34 | The level is what was left plus rate per second since, capped, and unchanged by a clock that goes back |
| `TokenBucket.AnyClockLevel` | src/rate.rs:26-53 | For any timestamps, level left plus cost granted is at most the level at the first payable call plus what the clock's forward steps accrue |
| `TokenBucket.AnyClockBound` | src/rate.rs:26-53 | After any history, the cost granted by any calls is at most capacity plus rate times the clock's forward steps |
| `TokenBucket.WindowBound` | src/rate.rs:26-53 | After any history, the cost granted in any window whose timestamps never go back is at most capacity plus rate times its length |
| `TokenBucket.RetryExact` | src/rate.rs:62-71 | After a refusal within capacity, waiting the reported seconds makes the cost payable, and one second less does not whenever the report is 2 or more |
| `TokenBucket.RemainingExact` | src/rate.rs:55-60 | A cost is granted if and only if it is at most the reported remainder |
| `TokenBucket.BackwardsClockRefills` | src/rate.rs:30-31 | With a timestamp that goes back the window bound fails |
| `AppCache.FoundUnderBoth` | src/app/static_file.rs:42-60 | With unique ids and keys, a found app is the driver's answer under both its aliases |
| `AppCache.ResolveExact` | src/app/static_file.rs:42-60 | Found, disabled and not found, each exactly when an enabled row, a disabled row or no row has that name |
| `AppCache.CachingAppManager.Cached` | src/app/cache.rs:89-147 | A lookup of a fresh alias is the driver's answer or an error; no fresh alias becomes stale; an alias stays in at most one map; an error stores nothing |
| `AppCache.CachingAppManager.LoadMiss` | src/app/cache.rs:100-130 | L2 first with its errors passed over, then the driver, written through as far as the write got |
| `AppCache.CachingAppManager.ByKeyCached` | src/app/cache.rs:180-195 | L1 only, never an error, and what a full lookup would return whatever the driver holds |
| `AppCache.CachingAppManager.Invalidate` | src/app/cache.rs:152-166 | Both aliases are out of L1, and out of L2 unless the delete fails; nothing becomes stale |
| `AppCache.LookupFresh` | src/app/l2.rs:81-118 | A lookup keeps every fresh alias fresh, also the second one a write-through touches, however far it got |
| `AppCache.FailureExact` | src/app/cache.rs:101-144 | A lookup fails exactly when neither level can answer and the driver fails, and then changes nothing |
| `AppCache.LookupSource` | src/app/cache.rs:89-147 | The answer is that of L1, else of L2 unless reading it fails, else of the driver |
| `AppCache.LookupOthers` | src/app/cache.rs:133-146 | A lookup touches L1 only under its own alias |
| `AppCache.LookupOthersL2` | src/app/l2.rs:81-118 | And L2 only there or under the aliases of the app it found |
| `AppCache.StoredExact` | src/app/l2.rs:81-96 | An interrupted write-through leaves nothing, the id entry, or both |
| `AppCache.LookupRemembered` | src/app/cache.rs:90-143 | A successful lookup is repeated from L1 whatever the driver holds or fails at later |
| `AppCache.WrittenThrough` | src/app/l2.rs:81-96 | A found app written to L2 is served by any manager over that L2 without its driver, under both aliases or under the id alone when the write stopped there |
| `AppCache.MarkedThrough` | src/app/l2.rs:98-118 | So is a disabled answer, under the alias asked for |
| `AppCache.LookupExact` | src/app/cache.rs:89-147 | Lookups of an alias are right under all faults if and only if the first stored entry for it agrees with the driver |
| `AppCache.InvalidateExact` | src/app/l2.rs:72-79 | After an invalidate the alias is fresh if and only if the L2 delete worked or its entry agreed already |
| `AppCache.InvalidateOthers` | src/app/cache.rs:152-166 | Every other alias is untouched at both levels |
| `AppCache.Coherent` | src/app/cache.rs:89-195 | After every run of lookups, changes, invalidations and evictions, an alias whose answer has not changed since the last working invalidate naming it answers as the driver does now, or fails and then only with the driver, and a synchronous hit is that answer |
| `AppCache.AlwaysExclusive` | src/app/cache.rs:52-58 | In every run, stale or not, an alias is in at most one of the three maps |
| `AppCache.EditAffects` | src/app/cache.rs:149-151 | Editing a row changes at most the answers of its old and new id and key |
| `AppCache.EditThenInvalidate` | src/app/cache.rs:149-166 | An edit followed by working invalidations under the old and the new key leaves every fresh alias fresh |
| `AppCache.OldKeyStaysServed` | src/app/cache.rs:149-166 | With only the new key invalidated after a rotation, the old key is still served |
| `Broadcast.BroadcastSink.Publish` | src/transport/fanout.rs:175-203 | A live slot with room gets the broadcast queued last, a full one counts one drop, a gone one is untouched; the flag is raised exactly if some live inbox was full |
| `Broadcast.BroadcastSink.Drain` | src/transport/worker.rs:966-994 | The inbox is received in queue order to empty and the flag cleared |
| `Broadcast.BroadcastSink.BindWorkers` | src/transport/fanout.rs:132-134 | From then on the budget bits count; no slot and no flag changes |
| `Broadcast.BroadcastSink.SetBudget` | src/transport/worker.rs:2982-2988 | Only the owning worker's bit changes |
| `Broadcast.BroadcastSink.IsSaturated` | src/transport/fanout.rs:144-151 | The flag or, once bound, any worker's budget bit |
| `Broadcast.HandOffConserves` | src/transport/fanout.rs:175-203 | In every interleaving of publishers, for every live worker: broadcasts issued to it = received + queued + dropped, received and queued are those that found it with room, in order, and the queue is bounded |
| `Broadcast.AllAccounted` | src/transport/fanout.rs:175-203 | Once every publisher is through, all broadcasts begun = received + queued + dropped at every live worker |
| `Broadcast.OfferedOnce` | src/transport/fanout.rs:182-202 | A finished broadcast was offered to each worker exactly once |
| `Broadcast.OfferedExact` | src/transport/fanout.rs:183-198 | The three outcomes of one hand-off, each with its exact condition and effect |
| `Broadcast.LiveExact` | src/transport/fanout.rs:196-197 | A worker is live exactly until it vanishes |
| `Broadcast.ReceiveExact` | src/transport/worker.rs:3082-3082 | A receive takes the oldest queued broadcast and changes nothing else |
| `Broadcast.SoloIsPublish` | src/transport/fanout.rs:182-202 | Run without interruption the steps have the effect stated for `Publish` |
| `Broadcast.DropSaturates` | src/transport/fanout.rs:190-195 | After any drop and any steps without a clear, the publisher still owes its flag store or the node is saturated |
| `Broadcast.SaturatedExact` | src/transport/fanout.rs:128-152 | Over every run the node is saturated if and only if a drop was flagged since the last clear, or a bound worker last reported being over its budget |
| `Broadcast.BudgetHolds` | src/transport/fanout.rs:128-152 | A bound worker's budget bit keeps the node saturated through all clears until that bit is lowered |
| `Broadcast.ClearExact` | src/transport/fanout.rs:140-151 | A clear ends saturation if and only if no bound budget bit is set |
| `Broadcast.ClearForAnother` | src/transport/fanout.rs:136-142 | Any worker's clear lowers the flag raised for an inbox that is still full |
| `Calendar.CivilExact` | conformance/src/main.rs:704-719 | For every second count the result is a valid Gregorian date and time that a day count built from the leap-year rule maps back to it |
| `Calendar.CivilInverse` | conformance/src/main.rs:704-719 | Every valid date and time from 1970 on is the one computed for its second count |
| `Calendar.CivilDateExact` | conformance/src/main.rs:706-719 | The same for days and dates |
| `Calendar.YearOfEraExact` | conformance/src/main.rs:710-710 | The year of era is the one the day falls in, for all 146097 days |
| `Calendar.MonthDayExact` | conformance/src/main.rs:711-719 | Month and day are right for every day of every year counted from March |
| `Calendar.FourDigitYears` | conformance/src/main.rs:721-721 | The year fits four digits exactly up to the end of 9999 |

## Left out

- The Redis adapter beyond the two capacity scripts and its subscribe and unsubscribe calls; its sweeper, heartbeat and
  membership reconciler; Redis pub/sub calls are taken to succeed.
- Two workers interleaving between a local registry change and its enqueue: the change and its queued command are one
  step, as the reconciler covers the rest.
- Queue traffic other than the modelled commands: whether a command is accepted is a free choice in the protocol models.
- The presence and plain variants of subscribe and unsubscribe commands differ only in the verdict step for the token.
- TTL expiry of the capacity hashes, and capacity changes while connections are open.
- Relaxed atomics: a store or counter update is one atomic step.
- Signin and signout under concurrency; they are modelled one call at a time.
- Concurrent app lookups, and other nodes writing the shared L2: lookups are sequential.
- Handles and mailboxes carried inside registry entries: an entry is identified by its socket.
- Delivery from a worker's broadcast inbox to its own connections, shed bands, CoDel and the out-queues.
- HTTP head parsing, authentication, webhooks, REST routes, configuration, SQL and Mongo stores, metrics, load tools.
- The textual rendering of the timestamp: zero padding is not modelled.
- TokenBucket.TokenBucket.Take: arithmetic is over reals, so floating-point rounding is not captured.
- ClusterNode.ClusterNode.HandleCmd: no worker runs between the phases of one command; interleaved phases are in `NodeToken`.
- AdmissionNode.AdmissionNode.AwaitVerdict: time-out and receiver drop are one step here; apart, they are in `Admission`.
- Mailbox.MailboxWorker.DrainSession: no sender runs during the drain and frames are not encoded; interleaved sends are in `MailboxSpec`.
- AdmissionNode.AdmissionNode.HandleCmd: no worker runs between the script call and the reply; interleaved phases are in `Admission`.
- Broadcast.BroadcastSink.Publish: slots are values in a sequence rather than shared objects, and the wake after an accepted hand-off is not modelled.
- FrameBuffer.ByteBuffer.Parse: the payload is a copy; sharing the buffer's allocation is not modelled.
