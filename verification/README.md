# MyMesh, modelled and proved

MyMesh links a person's devices into a mesh with no server in charge: every device keeps its
own store of trusted peers, and everything else follows from what the devices tell each other.
This project models the protocols that keep those stores right, and the hand-written codecs
under them, and proves what they promise over every run and every input.

How the pieces fit:

- **Gossip, kicks and their return.** `MeshNet` is the mesh as a transition system: any number
  of nodes, each with its store, mesh id and pending kicks, a network that may delay, lose,
  reorder and repeat every message, and everything that can be half done: dials and sessions,
  flushes that work through a list of kicks, and commands that hold the store open while they
  wait and then write all of it back. `Gossip` proves that gossip quiesces, loses nothing and
  converges in as many rounds as the trust graph is wide. `Resurrection` decides exactly when
  a removed id can come back, and `KickWaits` what can end the wait of an undelivered kick.
  `Effects` says of each message and step what it comes to, id by id, and `Completion` that
  kicks, flushes, sessions and joins can be carried through from every state.
  `MeshSync`, `PendingKicks` and `DeviceStore` are the stores in the code's own imperative
  form, and `Agent` proves each message handler to be the step that `MeshNet` says it is, so
  the theorems speak about them.
- **Joining.** `Join` is the arm file, the pending and decision files, the host sessions that
  poll them and the two writers of decisions; `Guest` is the other end of such a session.
  `Bootstrap` is the token that the pairing server keeps in the memory of each process and in
  one file.
- **Pairing.** `Lanes` is the one-way mailbox (in memory, and as a file of lines) and
  `Pairing` the host and guest scripts that meet over two lanes for each code.
- **Bytes and text.** `Frames` (codec and relay), `Transfer` and `HostDisk` (chunked files on
  a disk behind `Sandbox`), `Dns`, `PairLink`, `DeviceIdText`, `Material` (what is signed) and
  `Names` (aliases and lookup). `Foundations`, `Numbers` and `Text` hold what they share.

What the model takes for granted: signatures, SPAKE2 and binders are ideal; a node that
signs is the node it says it is, and runs this code; reading a file and writing it back with no
wait in between is one step that succeeds, and where the code does wait in between (kicking,
joining, pairing, flushing, dialing, the look at the arm file before the token file) the model
has the steps apart; BIP39, lossy UTF-8, Unicode lower case and the order in which a hash map
lists its entries are parameters. Time is an integer: milliseconds in `Join`, nanoseconds in
`PendingKicks`.

## Where the code does otherwise than its documentation or its intent

Each of these is the code as it stands, with the exact condition proved.

- `docs/JOIN.md` line 23 says that arming turns off after an accept. A join disarms the host
  exactly when both replies to the joiner went out; a joiner that is cut off before is trusted
  and the host stays armed (`Join.DisarmedIffFinished`, `Join.PastAcceptIsTrusted`;
  crates/mymesh-session/src/join.rs:349-363).
- A guest whose call fails may have come to trust devices all the same: a host that accepted
  and then refused, and every device on a roster that came before any accept
  (`Guest.GainsIff`, `Guest.FailedLeavesTrustIff`).
- The join clock check subtracts and takes an absolute value in 64 bits. In a release build one
  instant, 2^63 seconds before now, wraps and passes (`Join.TooFarIff`).
- A removed device can come back without being linked anew: from an undelivered kick, from a
  flush that listed its kick before that was delivered, from a message in flight, from an open
  session or a dial to it (a snapshot that answers a node's own request is merged without a
  second trust check), or from a command that read the store before the removal and writes it
  back. `Resurrection.NoResurrectionIffGone` gives the exact condition.
- `mymesh kick` and the agent write the same kick file. A kick that the agent files while the
  command waits is gone once the command writes (`KickWaits.StaleWriteLosesIff`).
- Pending kicks are also sent as greetings from the accepting to the dialing end, which has no
  loop that handles them; in `MeshNet` they go to `ToDialer` and change nothing.
- `add_ack` counts acknowledgements for a forced kick, and the target's own confirmation is
  counted too, so it can report completion before every expected member has answered
  (`PendingKicks.ForcedReportIsEarlyIff`). The comment on `gc_completed` speaks of 60 seconds,
  the code waits 24 hours.
- A process that acts on an old look at the arm file can make a window have two tokens, by
  taking the token of the window in force off the file or by minting for a window that has one
  (`Bootstrap.ActSplitsIffHarmful`). `require_bootstrap` reads the arm file twice; if the node is
  armed anew in between, a bearer of the old window passes (`Bootstrap.OldBearerCanPass`). And
  arming twice for one and the same instant can split the token (`Bootstrap.ReusedWindowSplits`).
- Two pairings of one device at once: the later to finish writes back the store as it read it,
  so the peer of the other may be lost (`Pairing.PeerIsKeptIff`).
- The guest of a pairing does not compare the id on the host's card with its key, as the host
  does with the guest's (`Pairing.GuestTakesIff`).
- Roster material is canonical for mesh ids of one length, and not across lengths
  (`Material.LengthsMatter`).
- `docs/PROTOCOL.md` line 13 lists four channel kinds; the code has a fifth, `Tcp`.
- Put ignores where the sender wants to resume and always starts the file afresh; and writing
  an empty chunk past the end does not lengthen a file.
- The DNS walk accepts labels of up to 191 bytes, where RFC 1035 allows 63; such a query is
  answered, and the answer cannot be read by a strict reader (`Dns.AnswerReadsBack`).
- The device id reader panics on a lone quote character (`DeviceIdText.PanicsIffLoneQuote`), and
  list numbering counts towards the 64 hexadecimal digits that make it take a pasted phrase for
  hexadecimal (`DeviceIdText.PhraseReadsIff`).
- `resolve_query` says it takes a full id; it compares only the first eight digits, so a full
  id finds only devices that have a name that is it or starts with it (`Names.WholeIdIsOnlyAName`).
- Two pairing codes that differ only in unusual characters share one mailbox file
  (`Lanes.SameFileIff`).

## Model

| member | source | states |
|---|---|---|
| MeshNet.AbsorbIsUnion | crates/mymesh-session/src/mesh_sync.rs:163-240 | one node's merge is a union: its known and its trusted ids both grow by the roster less itself |
| Gossip.RunAdvances | crates/mymesh-session/src/mesh_sync.rs:163-240 | over any gossip run trusted sets only grow and mesh ids only go down |
| Gossip.StepAccounts | crates/mymesh-session/src/mesh_sync.rs:182-240 | a step makes a dirty mark at a node exactly when it shrinks what that node is missing, by what it learns, and touches nobody else |
| Gossip.RunConserves | crates/mymesh-session/src/mesh_sync.rs:182-240 | members learned plus members missing, over all nodes, is constant on every gossip run |
| Gossip.GossipQuiesces | crates/mymesh-session/src/agent.rs:644-688 | N nodes make at most N(N-1) dirty marks on any run, however deliveries are delayed, reordered or repeated |
| Gossip.QuietIffComplete | crates/mymesh-session/src/agent.rs:433-468 | on a connected trust graph, no push can teach anybody anything if and only if every roster is the set of all nodes |
| Gossip.MeshIdsAreInherited | crates/mymesh-core/src/mesh.rs:71-75 | a run shows no mesh id that was not held or in flight at its start, and none below a lower bound of those |
| Gossip.CoverCarries | crates/mymesh-session/src/agent.rs:644-665 | a pushed roster that gets delivered takes all its sender knew at the start of the round to the receiver, whatever happens around it |
| Gossip.RoundsCarry | crates/mymesh-session/src/agent.rs:644-665 | after as many rounds as a path has hops its far end knows the roster and has a mesh id no higher than the near end had |
| Gossip.GossipConverges | crates/mymesh-core/src/mesh.rs:71-75 | after as many rounds as the diameter every node holds the least mesh id of all and the full roster |
| Gossip.RoundsExist | crates/mymesh-session/src/agent.rs:644-688 | from every state such rounds can be run, any number of them |
| MeshNet.UndisturbedKick | crates/mymesh-cli/src/main.rs:1556-1697 | a kick command that nothing comes in between is what filing the kick and dropping its target is |
| Effects.AnnouncedTargetGoes | crates/mymesh-session/src/agent.rs:469-544 | an announced kick from a trusted kicker takes its target, and no other id, off the records and the trust of the receiver, files it undelivered, and touches no other node |
| Effects.KickedNodeLeaves | crates/mymesh-session/src/mesh_sync.rs:252-297 | a node that heeds its own kick trusts nobody afterwards and is in a fresh mesh; records it did not trust stay |
| Effects.UnheededKickIsIgnored | crates/mymesh-session/src/agent.rs:469-576 | a kick whose kicker is not trusted, is not the sender of the announcement, or comes to the wrong end changes nothing |
| Effects.AcknowledgedTargetGoes | crates/mymesh-session/src/agent.rs:610-628 | a leave acknowledgement takes its target, and no other id, off and marks its kick told |
| Effects.RosterAdds | crates/mymesh-session/src/mesh_sync.rs:163-240 | a roster that is heeded adds exactly its ids less the receiver, leaves the lesser mesh id and makes a dirty mark exactly if somebody is new; any other changes nothing |
| Effects.KickTakesTargetOff | crates/mymesh-cli/src/main.rs:1556-1697 | a kick command that nothing comes in between takes its target and nobody else off the store and files the kick, told or not |
| Effects.KickIsAnnounced | crates/mymesh-cli/src/main.rs:1613-1681 | the target and every other peer that is trusted and trusts the kicker is sent word that it heeds |
| Effects.WrittenBackIsHeld | crates/mymesh-cli/src/main.rs:1684-1688 | a store that is written back is what the command had read, changed by what it is for, and nothing of what came since |
| Effects.GuestMergeWritesHeld | crates/mymesh-session/src/join.rs:108-138 | a guest that merges a roster writes the store it held with the ids of the roster |
| Effects.FlushComesTo | crates/mymesh-session/src/agent.rs:817-840 | a flush that comes to a kick makes its target trusted exactly if that has no record and the kick is on file |
| Effects.GreetingTellsKicks | crates/mymesh-session/src/agent.rs:238-262 | a greeting announces every kick on file to the dialing end, gives it notice of its own undelivered one, and says nothing else |
| Effects.AllCanEnd | crates/mymesh-session/src/agent.rs:777-859 | from every state everything half done can come to an end with all nodes as they are |
| Completion.KickCanComplete | crates/mymesh-cli/src/main.rs:1556-1697 | every kick can be carried through: off the stores of the kicker and of all peers that trust each other with it, the target gone from its mesh, the kick swept, and nobody else lost |
| Completion.FlushCanComplete | crates/mymesh-session/src/agent.rs:777-859 | every undelivered kick can be flushed: the target gets a record for one call, hears, leaves, and is off the store again |
| Completion.SessionCanTeach | crates/mymesh-session/src/agent.rs:716-775 | two nodes that trust each other can open a session over which the dialing end gets the roster, the lesser mesh id and word of every kick on file |
| Completion.JoinCanComplete | crates/mymesh-session/src/join.rs:108-138 | a guest can always be joined to a host: each then trusts the other, and the guest whomever the host trusts, and nobody else is touched |
| Resurrection.RunKeepsGone | crates/mymesh-session/src/agent.rs:469-544 | an id that nothing half done can bring back stays out on every run that does not link it |
| Resurrection.ListedKickReturns | crates/mymesh-session/src/agent.rs:777-840 | a flush that has listed a kick stores its target when it comes to it, so long as the kick is on file, though delivered by then |
| Resurrection.UndeliveredKickReturns | crates/mymesh-session/src/agent.rs:777-859 | an undelivered kick alone brings its target back, by the temporary record of the delivery attempt |
| Resurrection.FileableKickReturns | crates/mymesh-session/src/agent.rs:777-840 | the same if the listed kick is off file but a held copy or an announcement can put it back |
| Resurrection.ReplyReturns | crates/mymesh-session/src/agent.rs:716-775 | a roster that answers a node's own request brings back every id on it, its sender trusted or not |
| Resurrection.GuestRosterReturns | crates/mymesh-session/src/join.rs:108-138 | a roster on its way to a guest brings back every id on it, without a trust check |
| Resurrection.StaleMessageReturns | crates/mymesh-session/src/agent.rs:433-505 | a stale roster or kick announcement counts again once its receiver links with its sender |
| Resurrection.OpenSessionReturns | crates/mymesh-session/src/agent.rs:716-775 | an open session to a removed node is enough for it to come back |
| Resurrection.BegunDialReturns | crates/mymesh-session/src/agent.rs:722-726 | so is a dial begun while it was trusted, which is the only time that is checked |
| Resurrection.HeldCopyReturns | crates/mymesh-cli/src/main.rs:1570-1688 | a command that read the store while it had the node, or its kick as undelivered, brings it back when it writes |
| Resurrection.NoResurrectionIffGone | crates/mymesh-session/src/mesh_sync.rs:163-249 | an id stays out of every store on every run that does not link it, if and only if no store, undelivered kick, live message, call, held copy or running flush can bring it back |
| Resurrection.CanBeGoneForGood | crates/mymesh-session/src/mesh_sync.rs:163-249 | an id that no store and no undelivered kick has can always come to be gone for good, by endings alone |
| KickWaits.UndeliveredKickWaits | crates/mymesh-session/src/agent.rs:777-809 | on every run of the mesh an undelivered kick stays on file, undelivered, but for its delivery, its target's confirmation, word to the target, or a kick command that writes back an older file |
| KickWaits.WaitsIff | crates/mymesh-session/src/agent.rs:777-809 | a step ends the wait of an undelivered kick exactly when it is one of those named, with the condition on the state under which it does |
| KickWaits.StaleWriteLosesIff | crates/mymesh-cli/src/main.rs:1628-1664 | writing back loses a waiting kick exactly if that was not on file, undelivered, when the command read it |
| KickWaits.KickCanBeLost | crates/mymesh-cli/src/main.rs:1628-1664 | it happens: a kick announced while a kick command waits is lost |
| MeshSync.MeshState.AdoptMeshId | crates/mymesh-core/src/mesh.rs:71-75 | the mesh id becomes the lesser of its own and the other, below both |
| MeshSync.MeshState.BumpGeneration | crates/mymesh-core/src/mesh.rs:77-79 | the generation goes up by one and stays at the largest 64-bit number |
| MeshSync.MeshState.BumpMeshDirty | crates/mymesh-session/src/mesh_sync.rs:328-334 | one more dirty mark and one more generation |
| MeshSync.MergeTrusts | crates/mymesh-session/src/mesh_sync.rs:182-222 | trusted after a merge is trusted before with the roster's ids less self, and so are the ids on record |
| MeshSync.MergeKeepsLocal | crates/mymesh-session/src/mesh_sync.rs:187-200 | records off the roster are untouched; trusted peers on it keep link time, aliases, groups and endpoint |
| MeshSync.MergeTakesLast | crates/mymesh-session/src/mesh_sync.rs:182-222 | of duplicate entries the last one gives label, fingerprint and mesh of the record |
| MeshSync.MergeDatesFirst | crates/mymesh-session/src/mesh_sync.rs:201-222 | of duplicate entries the first one gives the link time of a newly trusted peer, with no local data |
| MeshSync.RefreshedKeeps | crates/mymesh-session/src/mesh_sync.rs:187-200 | a trusted peer keeps its capabilities if its entry has none, and everything local |
| MeshSync.LearnedHas | crates/mymesh-session/src/mesh_sync.rs:201-222 | a new peer is trusted with the four usual capabilities if its entry has none, linked when the entry says or else now |
| MeshSync.MergesCommuteOnTrust | crates/mymesh-session/src/mesh_sync.rs:163-240 | two rosters give the same trusted set in either order, and a second application learns nobody |
| MeshSync.MergeMembers | crates/mymesh-session/src/mesh_sync.rs:182-222 | the loop merges every member in order and counts the distinct newly trusted ids, duplicates or not |
| MeshSync.ApplyMembership | crates/mymesh-session/src/mesh_sync.rs:163-240 | the whole merge: trusted set, returned count, least mesh id, and a dirty mark and a new generation exactly when someone is new |
| MeshSync.MembersFromStore | crates/mymesh-session/src/mesh_sync.rs:86-118 | the advertised roster is self and the trusted peers, each field as its record has it, each once, in the order of their ids |
| MeshSync.ApplyKickTarget | crates/mymesh-session/src/mesh_sync.rs:243-249 | exactly the target's record goes, if there is one |
| MeshSync.ApplyKickNoticeLocal | crates/mymesh-session/src/mesh_sync.rs:252-297 | exactly the trusted records go, the kicker is noted and a fresh mesh begins |
| Agent.Agent.OnRoster | crates/mymesh-session/src/agent.rs:433-468 | a roster that is signed and the peer's own acts as the delivery of a roster in the transition system; any other changes nothing |
| Agent.Agent.OnSnapshot | crates/mymesh-session/src/agent.rs:716-775 | an answer to one's own request acts as the delivery of a roster that is not checked for trust |
| Agent.Agent.OnKickAnnounce | crates/mymesh-session/src/agent.rs:469-544 | an accepted announcement takes exactly its target off the store and acts as its delivery in the transition system; the kick is filed as announced, expecting all trusted peers if it names none, and acknowledged exactly if it is another's |
| Agent.Agent.OnKickNotice | crates/mymesh-session/src/agent.rs:545-576 | this node leaves the mesh exactly when somebody it trusts signed its kick |
| Agent.Agent.OnLeaveAck | crates/mymesh-session/src/agent.rs:610-628 | a confirmation signed by the target takes exactly the target off the store, marks the kick delivered, counts two acknowledgements and sweeps finished kicks |
| Agent.Agent.OnMemberAck | crates/mymesh-session/src/agent.rs:629-635 | a member's acknowledgement is counted, and a sweep removes delivered kicks only |
| Agent.Agent.BeginKickDelivery | crates/mymesh-session/src/agent.rs:817-840 | a target without record whose kick is on file, delivered or not, gets a trusted record; any other store stays |
| Agent.Agent.FinishKickDelivery | crates/mymesh-session/src/agent.rs:797-859 | after a delivery the target has no record and its kick is marked |
| Agent.Agent.BeginKick | crates/mymesh-cli/src/main.rs:1566-1664 | a kick of a trusted peer is filed with all other trusted peers expected and to be told, each once, and the store and kicks are held as they are |
| Agent.Agent.WriteHeldKicks | crates/mymesh-cli/src/main.rs:1655-1664 | once the target was told the kicks go back as they were held, marked |
| Agent.Agent.WriteHeldStore | crates/mymesh-cli/src/main.rs:1684-1688 | last the store goes back as it was held, less the target, with a dirty mark |
| Agent.Without | crates/mymesh-cli/src/main.rs:1556-1697 | the expected list is the trusted peers but the target, with no repeats |
| PendingKicks.Store.Upsert | crates/mymesh-core/src/mesh.rs:158-161 | a kick replaces the one filed for its target and no other |
| PendingKicks.Store.MarkDelivered | crates/mymesh-core/src/mesh.rs:163-169 | exactly the flag of that target's kick is set |
| PendingKicks.Store.AddAck | crates/mymesh-core/src/mesh.rs:171-186 | the sender is on the list, which grew by it alone if it was not on it, nothing else changes, and the answer is whether all expected acknowledged or, forced, enough did |
| PendingKicks.Store.GcCompleted | crates/mymesh-core/src/mesh.rs:194-218 | exactly the delivered kicks that are fully acknowledged, or forced and a day old, go, and the count is theirs |
| PendingKicks.CountingIsChecking | crates/mymesh-core/src/mesh.rs:171-186 | with acknowledgements drawn from an expected list without repeats, enough is the same as all |
| PendingKicks.ForcedReportIsEarlyIff | crates/mymesh-core/src/mesh.rs:171-218 | for a forced kick, completion is reported before a sweep would see it exactly when acknowledgements from outside the list make up for the missing ones |
| PendingKicks.UndeliveredIsKept | crates/mymesh-core/src/mesh.rs:158-218 | on every run an undelivered kick stays, undelivered, until it is marked or removed by hand |
| PendingKicks.AcksStayDistinct | crates/mymesh-core/src/mesh.rs:171-186 | acknowledgement lists never hold a repeat |
| PendingKicks.KickLeavesOnlyWhenEarned | crates/mymesh-core/src/mesh.rs:158-218 | a filed kick is gone only if it was delivered, and all expected acknowledged or it was forced and swept a day later |
| PendingKicks.KickIsSweptIffEarned | crates/mymesh-core/src/mesh.rs:158-218 | on every run up to its first sweep, a filed kick is off the table after that sweep exactly when it was marked delivered, and everybody expected acknowledged it or it was forced and a day has passed |
| PendingKicks.EarnedKickIsGone | crates/mymesh-core/src/mesh.rs:158-218 | and however often it was swept before, a kick that was marked and acknowledged by everybody, or forced for a day, is gone after the next sweep |
| Bootstrap.Server.EnsureBootstrap | crates/mymesh-session/src/carrier.rs:253-315 | memory, file and answer after a process acts on what it saw of the arm file, in every case; a token is handed out exactly in an armed window with an end that is not past |
| Bootstrap.Server.RequireBootstrap | crates/mymesh-session/src/carrier.rs:343-408 | a bearer is accepted exactly when it is the synced token and the second look still finds the node armed, before the end of its window if that has one |
| Bootstrap.ConstantTimeEquals | crates/mymesh-session/src/carrier.rs:317-326 | the loop that ors differences is true exactly on equal byte strings |
| Bootstrap.RunKeepsCoherent | crates/mymesh-session/src/carrier.rs:253-315 | on every interleaving in which nobody acts on a look that has become harmful, memories and file hold handed-out tokens only and the file has the token of the window in force |
| Bootstrap.PromptRunsAreCareful | crates/mymesh-session/src/carrier.rs:253-315 | acting on a look that still holds is never harmful |
| Bootstrap.OneTokenPerArmWindow | crates/mymesh-session/src/carrier.rs:253-315 | on those interleavings each arm window has one token and every process and the file agree on it |
| Bootstrap.ActSplitsIffHarmful | crates/mymesh-session/src/carrier.rs:257-315 | an act makes two tokens for one window possible, though all that follows be prompt, if and only if it mints for a window that has a token or takes the token of the window in force off the file |
| Bootstrap.DisarmedLookTurnsHarmful | crates/mymesh-session/src/carrier.rs:257-262 | it happens: a look while disarmed turns harmful once the node is armed and another process handed out the token |
| Bootstrap.MatchIffTokenOfWindow | crates/mymesh-session/src/carrier.rs:369-395 | after an act that does no harm a bearer matches the memory exactly if it is the token of the window that was seen |
| Bootstrap.AcceptedBearerIsCurrentIff | crates/mymesh-session/src/carrier.rs:343-408 | an accepted bearer belongs to the window now in force exactly if that is the window it was matched in |
| Bootstrap.OldBearerCanPass | crates/mymesh-session/src/carrier.rs:369-407 | arming anew between the two looks lets a bearer of the old window pass |
| Bootstrap.ReusedWindowSplits | crates/mymesh-session/src/carrier.rs:253-315 | arming again for the same instant can leave two tokens for one window |
| Bootstrap.ArmedIffNotLapsed | crates/mymesh-core/src/join.rs:25-33 | armed means armed and, if an end is set, before it; only such a window with an end has a token |
| Bootstrap.NothingAfterTheEnd | crates/mymesh-session/src/carrier.rs:257-262 | once the clock has reached the end of the window, or the node was disarmed, nothing is handed out on any run until somebody arms, and a process that acts forgets its token |
| Bootstrap.LookInWindowYields | crates/mymesh-session/src/carrier.rs:253-315 | while the window lasts a look yields its token, the one already handed out if there is one |
| Join.TooFarIff | crates/mymesh-session/src/join.rs:248-261 | the clock check accepts an hour each way, and one instant that wraps |
| Join.VetIffGenuine | crates/mymesh-session/src/join.rs:204-261 | the checks pass exactly the requests of version 1 whose id is the connected peer, whose key is that id, which that device signed over id, name, time and domain, and whose time is within the hour (or is the wrapping instant) |
| Join.JoinMaterialInjective | crates/mymesh-session/src/join.rs:16-24 | what is signed says who asks, under which name and when |
| Join.JoinStore.WritePending | crates/mymesh-core/src/join.rs:113-118 | a new request is filed and any earlier decision for the device dropped |
| Join.JoinStore.TakeDecision | crates/mymesh-core/src/join.rs:147-157 | a decision is handed out once: both files are gone afterwards |
| Join.JoinStore.PairDecide | crates/mymesh-session/src/carrier.rs:541-586 | a decision over HTTP is taken only for a pending request, which is then no longer pending |
| Join.AwaitDecision | crates/mymesh-session/src/join.rs:291-311 | the poll loop ends, within a poll of its deadline, with the first thing that settles it, whatever the files and the arm state do |
| Join.PollIff | crates/mymesh-session/src/join.rs:291-380 | a poll goes on exactly while the host is armed, nothing is decided and the deadline is not past; a decision on file in time is taken, armed or not; all else refuses and clears the request |
| Join.PresentIff | crates/mymesh-session/src/join.rs:204-290 | a genuine request, and no other, is filed under its device and name, drops an earlier decision and waits |
| Join.ReplyIff | crates/mymesh-session/src/join.rs:336-368 | a reply that goes out takes the session on, the second disarms the host, one that does not go out cuts the joiner off, trusted as it is |
| Join.TrustJoiner | crates/mymesh-session/src/join.rs:314-335 | the record of an accepted device: trusted, with the capabilities asked for or the usual four, in place of any it had |
| Join.JoinCanComplete | crates/mymesh-session/src/join.rs:158-368 | every genuine request that comes while the host is armed can be accepted, over HTTP or by command, and leaves its device trusted and the host disarmed |
| Join.RunKeepsSound | crates/mymesh-session/src/join.rs:158-380 | on every run decisions are numbered apart, a polling session was let in while the host was armed by the peer that asks, its request passed the checks and any decision on file for it is newer, and every trust record is earned |
| Join.TrustIsWellFounded | crates/mymesh-session/src/join.rs:158-380 | the same said outright, over all runs: each trust record is for a device that connected before the end of an armed window, with its own id and key, a signature by itself over id, name, time and domain, a time about now, and an Accept for it written after its request |
| Join.NoMoreTrustThanAccepts | crates/mymesh-session/src/join.rs:158-380 | on every run no more devices are trusted than times somebody wrote an Accept |
| Join.NobodyConnectsAfterTheEnd | crates/mymesh-session/src/join.rs:171-186 | once the arm window is over nobody gets in on any run until the arm file is set |
| Join.JoinAccounting | crates/mymesh-session/src/join.rs:158-380 | on every run each trust record is for a device that connected itself while the host was armed, passed the id, key, signature and timestamp checks and used up an Accept of its own written after its request, so trust records never outnumber Accepts |
| Join.FirstDecisionIsTaken | crates/mymesh-session/src/carrier.rs:541-586 | over HTTP alone the first decision for a pending request is the one the host acts on |
| Join.CliDecisionReplaces | crates/mymesh-core/src/join.rs:138-145 | a decision from the command line replaces whatever was decided before and is the one the host acts on |
| Join.DisarmedIffFinished | crates/mymesh-session/src/join.rs:314-368 | over any run in which nobody sets the arm file, joins disarm the host exactly when one of them got both of its replies out |
| Join.PastAcceptIsTrusted | crates/mymesh-session/src/join.rs:314-368 | on every run a joiner past its accept is trusted, cut off or not |
| Guest.RunJoinAsGuest | crates/mymesh-session/src/join.rs:52-155 | the receive loop ends joined exactly as the events decide, makes trusted exactly the ids of the valid accepts and rosters it got to, and takes the least mesh id of those rosters |
| Guest.JoinsIffAccepted | crates/mymesh-session/src/join.rs:54-155 | the guest joins exactly when a valid accept comes after nothing but waiting and rosters, and nothing that fails comes between it and what ends the wait |
| Guest.GainsIff | crates/mymesh-session/src/join.rs:83-142 | joined or not, the guest has come to trust exactly the ids named by the valid accepts and rosters up to and at the event that stops it |
| Guest.FailedLeavesTrustIff | crates/mymesh-session/src/join.rs:83-142 | a failed call leaves the trusted set as it was exactly when every valid accept and roster it read named trusted ids only |
| Guest.RefusedAfter | crates/mymesh-session/src/join.rs:83-142 | one valid accept or roster and a refusal: the call fails and its ids stay trusted |
| Guest.LeastMeshIsLeast | crates/mymesh-session/src/join.rs:116-133 | the mesh id ends as the least of its own and those of the rosters read |
| Guest.ValidIsSigned | crates/mymesh-session/src/join.rs:83-133 | an accept counts exactly if its host signed it over id and name, a roster exactly if its sender signed it |
| Lanes.LaneIsFifo | crates/mymesh-net/src/rendezvous.rs:34-52 | in every reachable state the queue or the line of waiters is empty, and receive number k is for message number k |
| Lanes.ExactlyOnceInOrder | crates/mymesh-net/src/rendezvous.rs:34-52 | when nobody gives up, what was received in order and what is queued are together exactly what was pushed |
| Lanes.LostIffAbandoned | crates/mymesh-net/src/mailbox_http.rs:136-144 | a message is lost exactly when the receive of its number gave up waiting |
| Lanes.LocalRendezvous.SendMessage | crates/mymesh-net/src/rendezvous.rs:82-91 | a send acts on the lane of its role and code and no other |
| Lanes.LocalRendezvous.Receive | crates/mymesh-net/src/rendezvous.rs:93-110 | a receive takes the next number on the other role's lane and has the message exactly if one was queued |
| Lanes.LanesAreSeparate | crates/mymesh-net/src/rendezvous.rs:72-110 | each lane lives by the sends of one role and the receives of the other on its own code, so nobody gets their own messages |
| Lanes.FileIsQueue | crates/mymesh-net/src/mailbox_fs.rs:52-94 | sending appends to the file of lines, receiving takes the front, and the file is there exactly when it is not empty |
| Lanes.ChompIs | crates/mymesh-net/src/mailbox_fs.rs:62-94 | a return at the end of a line is no part of it, and nothing else is dropped |
| Lanes.FileIsLane | crates/mymesh-net/src/mailbox_fs.rs:52-94 | over any sends and polls the file is the lane's queue written out, and what the polls took is what the lane's receives got |
| Lanes.SameFileIff | crates/mymesh-net/src/mailbox_fs.rs:33-48 | two ends use one file exactly when their cleaned codes agree and one sends where the other receives |
| Pairing.HostMoves | crates/mymesh-session/src/pair.rs:138-242 | every step of the host keeps it on track: the lanes carry what was sent, the secret and the peer are the right ones |
| Pairing.GuestMoves | crates/mymesh-session/src/pair.rs:245-346 | the same for every step of the guest |
| Pairing.RunOnTrack | crates/mymesh-session/src/pair.rs:138-346 | on every run every ceremony is on track and the work left goes down by one a step |
| Pairing.HostTakesIff | crates/mymesh-session/src/pair.rs:186-214 | the host takes exactly the cards that a party who knows the secret made for itself |
| Pairing.GuestTakesIff | crates/mymesh-session/src/pair.rs:274-311 | the guest takes exactly those signed with the key they carry, whatever id they claim; one the host would not exactly when id and key differ |
| Pairing.WrongCodeFails | crates/mymesh-session/src/pair.rs:170-311 | an end that used another code gets past nobody: each refuses the card of the other |
| Pairing.CardMaterialInjective | crates/mymesh-session/src/pair.rs:172-186 | what is signed on a card says id, name and key |
| Pairing.PairingNeverSticks | crates/mymesh-session/src/pair.rs:138-346 | any number of ceremonies, however interleaved: no wrong message, no card that does not check, at most 16 steps each, and in a run that can go no further every pair agrees on secret and peers |
| Pairing.PeerIsKeptIff | crates/mymesh-session/src/pair.rs:235-346 | a device trusts the peer of a finished script exactly if its last script to write has that peer too or read a store with it in |
| Pairing.PairsTrustEachOther | crates/mymesh-session/src/pair.rs:138-346 | when no device is in two ceremonies, a run that can go no further leaves each pair trusting each other |
| Frames.WriteFrame | crates/mymesh-protocol/src/frame.rs:16-32 | a frame is written whole, or refused for its size, or cut off where the stream broke |
| Frames.ReadFrame | crates/mymesh-protocol/src/frame.rs:34-56 | a read gives the frame at the front and consumes exactly its bytes, or says why not |
| Frames.DecodeIffEncoded | crates/mymesh-protocol/src/frame.rs:16-56 | a read gives a frame and a rest exactly when the input is the encoding of that frame followed by that rest |
| Frames.EncodedLayout | crates/mymesh-protocol/src/frame.rs:16-32 | the bytes of a frame: length, kind 1 to 5, stream, payload, most significant byte first |
| Frames.FaultsAre | crates/mymesh-protocol/src/frame.rs:34-56 | input ends early exactly if it is shorter than a header or the front of some frame; the other faults are a length out of range and a kind that is none of five |
| Frames.StreamIffEncoded | crates/mymesh-protocol/src/frame.rs:16-56 | a stream reads back as exactly the frames written, and what is accepted is byte for byte the writing of what was read |
| Frames.CutStreamKeepsWholeFrames | crates/mymesh-protocol/src/frame.rs:34-56 | wherever a stream is cut, the reader gets exactly the frames that are whole |
| Frames.RelayFrames | crates/mymesh-net/src/local_dial.rs:98-140 | the relay passes on, byte for byte, the whole frames of its input up to the first that does not read, or a front part of them if its outlet breaks |
| Sandbox.ReducesIff | crates/mymesh-files/src/sandbox.rs:21-42 | a path resolves exactly when no front part of it has more parent steps than names |
| Sandbox.ReducedAreSurvivors | crates/mymesh-files/src/sandbox.rs:24-36 | the names in the result are exactly those no later parent step takes back, in order |
| Sandbox.ResolvesIffStaysBelow | crates/mymesh-files/src/sandbox.rs:21-42 | read off the text: a path resolves exactly when no front of its parts between slashes has more parts `..` than names, and what it adds to the root are its own names, none empty, `.`, `..` or with a slash |
| Sandbox.Resolve | crates/mymesh-files/src/sandbox.rs:21-42 | the loop with its pops and checks resolves to the root and names of the text, never outside the root, or says that it escapes |
| Sandbox.PlainPathResolves | crates/mymesh-files/src/sandbox.rs:21-42 | every file under the root can be named, and a leading slash makes no difference |
| Transfer.WritesLeave | crates/mymesh-files/src/transfer.rs:164-175 | chunks in any order leave the source's bytes where a chunk came, zeros between, nothing after |
| Transfer.RebuiltIff | crates/mymesh-files/src/transfer.rs:164-175 | chunks in any order rebuild the source exactly when its last byte comes and all bytes that never come are zero |
| Transfer.PushFile | crates/mymesh-cli/src/main.rs:1176-1211 | a push is Put, then contiguous non-empty chunks of at most 64 KiB that are together the file, then Done |
| Transfer.FetchChunks | crates/mymesh-files/src/transfer.rs:82-98 | however short the reads come, the chunks so far are the front of what was asked for, and the loop stops only at its end |
| Transfer.SliceIs | crates/mymesh-files/src/transfer.rs:74-104 | what was asked for: the bytes from the offset on, as many as asked for or as there are |
| Transfer.GetFile | crates/mymesh-files/src/transfer.rs:74-104 | a Get is answered by contiguous chunks that are together the bytes asked for, and Done with their number |
| Transfer.PullFile | crates/mymesh-cli/src/main.rs:1246-1266 | a pull writes exactly the chunks before the first other message, and succeeds only on Done |
| HostDisk.Session.Handle | crates/mymesh-session/src/agent.rs:308-350 | what every file message but List and Stat does to the disk and the put under way, how it is answered, and when it is refused |
| HostDisk.Session.WriteChunk | crates/mymesh-files/src/transfer.rs:164-175 | a chunk is written at its offset in the file of the put under way |
| HostDisk.OutsideUntouched | crates/mymesh-files/src/transfer.rs:25-175 | no message changes, makes or removes a file outside the root, nor a directory there but those that hold the root |
| HostDisk.RefusedKeepsFiles | crates/mymesh-files/src/transfer.rs:105-175 | a message answered with an error has cost no file, but for the removal of the whole disk |
| HostDisk.DiskStaysTree | crates/mymesh-files/src/transfer.rs:105-175 | put, chunk, mkdir, remove and rename keep every file in a directory and no path both file and directory |
| HostDisk.PutOpensIff | crates/mymesh-files/src/transfer.rs:105-125 | a put leaves its file open and empty exactly when it is no directory and no file stands in its path |
| HostDisk.RenamedFileArrives | crates/mymesh-files/src/transfer.rs:151-156 | a renamed file is at its new path with its bytes and gone from the old; nothing else changes |
| HostDisk.RenamedTreeArrives | crates/mymesh-files/src/transfer.rs:151-156 | a renamed directory takes all below it along and leaves nothing behind |
| HostDisk.RemovedIsGone | crates/mymesh-files/src/transfer.rs:138-150 | a removed path is gone, with all below it exactly if the removal was recursive; nothing else changes |
| HostDisk.MadeIsThere | crates/mymesh-files/src/transfer.rs:133-137 | making a directory makes all it lies in and touches no file |
| HostDisk.AnsweredIff | crates/mymesh-files/src/transfer.rs:133-156 | on a tree, exactly when a removal, a rename and a new directory succeed |
| HostDisk.ChunksWrite | crates/mymesh-session/src/agent.rs:331-335 | chunks after a put write that file and leave every other one alone |
| HostDisk.PushThroughSession | crates/mymesh-session/src/agent.rs:308-350 | a whole push through the session, its chunks in any order, leaves the source in that file, every other file as it was and no put under way |
| HostDisk.PullAfterPush | crates/mymesh-cli/src/main.rs:1176-1269 | pull after push is the identity, in whatever order and however often the chunks were written, and however short the reads |
| Sorting.SortSorts | crates/mymesh-session/src/mesh_sync.rs:30-33 | the ids are put in order and none is lost or added |
| Material.MembershipMaterialIsCanonical | crates/mymesh-session/src/mesh_sync.rs:22-39 | with mesh ids of one length, rosters sign the same bytes exactly when mesh, sender and time agree and the members are the same in any order |
| Material.MaterialsAreDisjoint | crates/mymesh-session/src/mesh_sync.rs:22-66 | roster, kick and leave-acknowledgement bytes are never equal |
| Material.KickMaterialInjective | crates/mymesh-session/src/mesh_sync.rs:58-66 | with mesh ids of one length, the bytes of a kick say who is kicked by whom, in which mesh and when, and so do those of a leave acknowledgement |
| Material.SignaturesDoNotCross | crates/mymesh-session/src/mesh_sync.rs:41-84 | a signature verifies for one signer and one material only |
| Material.LengthsMatter | crates/mymesh-session/src/mesh_sync.rs:22-39 | with mesh ids of different lengths two different rosters can sign the same bytes |
| PairLink.PercentEncode | crates/mymesh-session/src/carrier.rs:234-245 | the encoding reads back as the input and holds unreserved characters and escapes only |
| PairLink.EncodedIsShortest | crates/mymesh-session/src/carrier.rs:234-245 | no text that reads as the same bytes is shorter |
| PairLink.EscapeIs | crates/mymesh-session/src/carrier.rs:234-245 | an escaped byte is a percent sign and its two digits in capitals |
| PairLink.BuildPairQr | crates/mymesh-session/src/carrier.rs:218-232 | the link's text, the mesh left out when absent or empty |
| PairLink.LinkReadsBack | crates/mymesh-session/src/carrier.rs:218-245 | splitting the link at its separators and decoding gives back every field, whatever the strings hold |
| PairLink.SameLinkIff | crates/mymesh-session/src/carrier.rs:218-245 | two links are one text exactly when they say the same |
| Dns.WalkName | crates/mymesh-session/src/magic.rs:379-397 | the label loop ends for every byte string and finds the labels and their end |
| Dns.WalkIffName | crates/mymesh-session/src/magic.rs:379-397 | short of the last byte, the walk finds exactly the name that is spelled there |
| Dns.AnsweredIff | crates/mymesh-session/src/magic.rs:372-400 | a request is answered exactly when a name is spelled out after the header and a type and class follow |
| Dns.BuildDnsResponse | crates/mymesh-session/src/magic.rs:372-424 | for every byte string the code ends, reads only inside it, and gives the answer whose contents `Dns.AnswerReadsBack` establishes, or none |
| Dns.AnswerReadsBack | crates/mymesh-session/src/magic.rs:401-424 | the answer keeps id and question, is 16 bytes longer exactly with an address, and a strict reader finds in it that name and that address exactly when no label is over 63 bytes |
| Dns.AddressIff | crates/mymesh-session/src/magic.rs:401-410 | an address is given exactly to queries of type 1 or 255 for a name in the table, labels joined by dots in lower case, whatever the class |
| DeviceIdText.NormalizeDeviceIdInput | crates/mymesh-crypto/src/word_id.rs:18-70 | the loop over the pieces ends in the normal form that the rows below read back, and has no result only for a lone quote |
| DeviceIdText.PanicsIffLoneQuote | crates/mymesh-crypto/src/word_id.rs:19-23 | the reader panics exactly on a lone quote character |
| DeviceIdText.SeparatedHexReads | crates/mymesh-crypto/src/word_id.rs:28-35 | the digits of an id in either case with any other characters between and around them read as that id |
| DeviceIdText.DressedHexReads | crates/mymesh-crypto/src/word_id.rs:24-41 | the same after 0x or a join URI prefix, in quotes or not |
| DeviceIdText.PrintedFormsReadBack | crates/mymesh-crypto/src/word_id.rs:73-114 | every printed form of an id, quoted or not, parses back to it |
| DeviceIdText.PasteNormalizes | crates/mymesh-crypto/src/word_id.rs:43-70 | a numbered, comma or newline paste comes to its words in lower case, one space apart, unless its hexadecimal digits number 64 |
| DeviceIdText.PhraseReadsIff | crates/mymesh-crypto/src/word_id.rs:73-97 | a paste of an id's phrase parses to the id exactly when its digits do not win, or spell the same id |
| DeviceIdText.ParsesIff | crates/mymesh-crypto/src/word_id.rs:73-110 | an input reads as an id exactly if its normal form is 64 hexadecimal digits of it, or at least 12 words that the phrase book has for it |
| DeviceStore.Store.Revoke | crates/mymesh-core/src/device.rs:101-108 | exactly that peer stops being trusted; every record stays |
| DeviceStore.Store.Remove | crates/mymesh-core/src/device.rs:110-116 | exactly that record goes |
| DeviceStore.Store.Allows | crates/mymesh-core/src/device.rs:125-131 | a capability is allowed exactly to a trusted peer whose record grants it |
| Names.ResolveQuery | crates/mymesh-core/src/device.rs:134-174 | in whatever order devices are listed, the answer is the one exact match, or with none the one near match |
| Names.OneAnswer | crates/mymesh-core/src/device.rs:134-174 | a query has one right answer |
| Names.FirstDigitsFind | crates/mymesh-core/src/device.rs:152-160 | the first digits of an id, up to eight, find it when nothing else matches |
| Names.SuffixIsDropped | crates/mymesh-core/src/device.rs:134-138 | a name followed by .mym is looked up as the name |
| Names.AddAlias | crates/mymesh-core/src/device.rs:185-207 | an alias is added once, and refused exactly if empty, taken by another device or for an unknown one |
| Names.RemoveAlias | crates/mymesh-core/src/device.rs:209-217 | exactly that alias goes |
| Names.AliasesStayDistinct | crates/mymesh-core/src/device.rs:101-217 | adding, removing, revoking and forgetting keep every alias apart from the names of other devices |
| Names.AliasFindsItsDeviceIff | crates/mymesh-core/src/device.rs:134-174 | an alias finds its device in any mix of case, whatever other names begin alike, exactly when no other device goes by that name; else it is ambiguous |
| Names.DistinctAliasesAreNobodyElses | crates/mymesh-core/src/device.rs:185-207 | while names are kept apart nobody else goes by an alias |
| Names.TypedAliasIsLookedUpIff | crates/mymesh-core/src/device.rs:134-174 | the text an alias was added under is looked up as that alias exactly when it ends in neither .mym nor a dot, if its lower case is plain ASCII |
| Names.WholeIdIsOnlyAName | crates/mymesh-core/src/device.rs:133-174 | in every store a whole id is missing exactly when no name is it or starts with it, and finds a device exactly when that alone has such a name |
| Names.WholeIdIsMissing | crates/mymesh-core/src/device.rs:152-160 | so it finds nothing where all names are shorter |

## Left out

- Sockets, iroh, HTTP routing, terminals, screens, services and installation: input and output with no property of this kind.
- Ed25519, SPAKE2, SHA-256, base64, bincode and JSON: ideal or parameters, as said above; tokens appear decoded.
- Nodes that do not run this code, and signatures replayed by others: in `MeshNet` a message is from the node that signed it.
- The leave outbox and its redelivery: it only repeats messages that the network may repeat anyway.
- An announcement built by `mymesh mesh sync` from a mesh file read before the store: in `MeshNet` a roster and its mesh id are read at once.
- Agent.Agent.BeginKick: does not send the notice and the announcements, which `MeshNet.BeginKick` posts; it says whom to tell.
- Labels and messages of kicks, and the mesh id on the temporary record of a delivery: nothing else reads them.
- The older `run_host_pair` script, which differs from the modelled one only in who makes the code.
- Forgotten lanes of the HTTP mailbox (dropped after 15 minutes) and its request limits; its lane is the one in `Lanes`, with receivers that give up.
- Sorting and removing neighbours in `resolve_query`: each device is listed once, so they change nothing the answer depends on.
- HostDisk.Session.Handle: does not answer List and Stat, because they only read names, sizes and times.
- File modes and times, symbolic links, and errors of the disk other than a path that is missing, taken or too long.
- Removing a tree or renaming one happens in one step; a failure half way is not modelled.
- Both directions of the relay run side by side in the code and either may be stopped between two frames: `RelayFrames` is one direction that runs to its end.
- The table of DNS names is a parameter, as is the address of a device.
- Candidate paths for the control socket, the short pairing code as text, groups, and the metrics ring: they would only add easy members.
