# The Vanilla Utilities network drivers: a model and proofs

The repository is a set of DOS network drivers for Doom. This project models the protocol code at
their centre and proves what the drivers rely on: that packets reach the right machine and only that
machine, that tables learned from messages are true, that exactly one machine holds a shared channel,
that machines number themselves alike without a coordinator, and that bytes cut into pieces come out
as the packets that went in.

`dafny verify dfyconfig.toml` checks everything.

## How it is built

Code that changes state in place is modelled as classes and methods over arrays and fields, each proved
against a specification function on values; the properties are then lemmas about those functions, or
about state machines built from them. A network, a serial line or a pair of ports is a state machine
whose steps are the calls of one machine; "in every run" means for every list of enabled steps.

* **metanet** (`net/metanet.c`). `Topology` has machines, links and walks; a machine is reached on a link
  by a hop byte, and every machine on a link has its own name for each of the others. `MetaRouting` says
  what one machine sends on, `MetaForwarding` follows packets through the network until nothing is left
  in flight, `MetaPaths` proves path reversal and exactly-once broadcast, `MetaTable`, `MetaDiscovery` and
  `MetaComplete` prove the learned tables sound in every run and, on small acyclic networks, complete, and
  `MetaProgress` that there discovery can be finished from every state. `MetaDelivery` says what becomes of each
  kind of packet at its end, and that data arrives in every run that loses no packet. `MetaDriver`, `MetaNodes`,
  `MetaMessages` and `MetaNode` are the byte-level, in-place forms: header rewriting through overlapping
  moves in the packet buffer, the node table in its array, discover messages filled in where they lie, and
  the whole machine reading from all its drivers. `MetaArrange` is the loop that moves forwarders back.
  The number of machines on one link is at most 16, so a hop byte is never 0 and four of them are never the
  broadcast address. A machine announces itself until it launches and launches once it has been ready; a
  machine that quits tells its neighbours, and what they pass on of that is a broadcast of no data.
* **Player numbers** (`net/ipxsetup.c`, `net/sirsetup.c`, `net/metanet.c`). `Numbering` has the one rule:
  a claimed number, or the free number whose index is the station's rank among those without a claim.
  `IpxSetup`, `SirNumbers` and `MetaNumbers` prove that three different loops over differently ordered
  tables follow it.
* **sirsetup** (`net/sirsetup.c`). `SirFraming` has the wire format, `SirStation` one machine on values,
  `SirPort` the same machine with its two rings of eight packets and its transmit buffer, `SirToken` N of
  them on one channel, `SirDelivery` what they hear in runs without loss. The channel delivers whole
  transmitted blocks or loses them, per receiver. A machine of a two-player game that cannot store a packet
  stops its serial port from being read until the game has fetched one; while it does, no byte is read and
  any unread byte may be lost. `SirLoss` says what an escaped packet without one of its bytes is heard as,
  and `SirTwoPlayers` builds the run in which that ends with both players transmitting.
* **Fragments** (`adapters/fragment.c`). `Fragments` has the eight buffers, the bit mask and the choice of
  a buffer, `FragmentDriver` the receive and send loops on bytes, `Reassembly` and `ReassemblyComplete` the proofs.
* **sersetup** (`net/sersetup.c`). `SerialStream` has the byte stream and the resumable parser,
  `SerialPort` the two rings of 2048 bytes and the packet buffer.
* **Parallel port** (`net/plio.asm`). `NibblePacket` has the two packet loops on bytes,
  `NibbleHandshake` the two ends as interleaved processes, one port access at a time.
* **Aggregation** (`net/pktaggr.c`), **arbitration** (`net/serarb.c`) and **command lines**
  (`lib/flag.c`) have a module each.
* `Bytes`, `Sequences`, `Counting`, `Ring`, `Escaping`, `Wrappers` and `DoomNet` hold what these share.

## Where the code differs from what it says

* `net/sirsetup.c:326` says that a FRAMECHAR that meets the last slot of a block goes into the next block.
  The code has stepped past that byte at line 318 before it leaves the loop at line 327, so it is never
  sent. `SirFraming.Block` has both variants. `SirFraming.IntendedBlocks` and `SirFraming.StreamRoundTrip`
  prove the round trip for the intent, `SirFraming.WrittenBlocks` says which bytes the code leaves out, and
  `SirFraming.WrittenIsIntended` that a packet goes out right exactly when none of its FRAMECHARs meets
  slot 15, which a sender could compute beforehand with `SirFraming.SlotOf`. The machines of `SirStation`,
  `SirPort` and `SirToken` send as the code does.
* `net/plio.asm` sends and receives 65536 bytes when the count is zero, as the `loop` instruction does. The
  model keeps that.
* In sirsetup the channel is handed on safely whatever blocks are lost, as long as no byte is lost on its own:
  with more than two players always, with two as long as neither pauses (`SirToken.TokenSafety`). In a game of
  two, `net/sirsetup.c:186-189` makes a machine whose queue is full stop reading in the middle of the other's
  turn. `SirStation.TurnIsReceived` says exactly when a turn is read through, `SirLoss.ForgesHandoff` exactly
  which unread byte of a packet makes payload sound like a handoff, and `SirTwoPlayers.TwoPlayersCollide` gives
  a run, with nothing lost on the channel and no timeout, after which both players transmit.
* `net/metanet.c:450` compares the quitting machine's first hop with itself instead of each entry's.
  `MetaTable.QuitMarks` says exactly when the right machines are marked all the same. They never are when it is
  a neighbour that quits: then every entry is marked, and a forwarder stops (`MetaTable.NeighborQuits`).
* The loop at `net/metanet.c:648-657` does not look again at an entry that it has swapped to the front.
  `MetaArrange.RearrangedRight` says exactly when the forwarders end up last, and `MetaArrange.LeftInFront` is
  the smallest table for which they do not.

* A flag for a signed number accepts down to -32768 (`lib/flag.c:516`), but a value that starts with a dash has been
  refused before that (`lib/flag.c:503-506`), so that no negative number can be given: `Flags.OneFlag`.

## Model

| member | source | states |
|---|---|---|
| `Bytes.FarMemmove` | lib/dos.c:85-111 | the destination ends up with what the source range held before the move, overlapping or not, and nothing else changes |
| `Bytes.FarBzero` | lib/dos.c:113-123 | exactly the given range is zero afterwards |
| `Topology.ReverseIsWayBack` | net/metanet.c:205-239 | the reverse of a legal walk is a legal walk from its end back to its start |
| `Topology.TwoWalksCloseCycle` | net/metanet.c:138-144 | two different walks that never leave by the interface they arrived on and meet close a cycle |
| `Topology.DriverBits` | net/metanet.c:39-41 | the driver of a hop byte is in its upper three bits |
| `Topology.NodeBits` | net/metanet.c:39-41 | and the node in its lower five |
| `MetaDriver.PrependPreviousHop` | net/metanet.c:163-176 | the previous hop is put in front of a source address, in place or into another buffer, unless the address is full, and then nothing changes |
| `MetaDriver.ForwardedPacket` | net/metanet.c:228-237 | the rewritten bytes parse as the packet with one hop moved from its destination to its source, kind and payload unchanged |
| `MetaDriver.Metanet.ForwardPacket` | net/metanet.c:205-242 | a packet for another machine goes out once on the named link with its header rewritten, or not at all when the hop limit or a bad hop forbids it |
| `MetaDriver.Metanet.SendBroadcast` | net/metanet.c:129-158 | a broadcast goes once to every neighbour on every link but the one it came by, whose driver is untouched |
| `MetaDriver.Metanet.ForwardBroadcast` | net/metanet.c:178-203 | a broadcast is passed on with its source extended by the hop it came by and stays in the buffer for delivery |
| `MetaDriver.Metanet.GetAndForward` | net/metanet.c:244-281 | packets are read in order, everything for others is sent on as the routing rule says, and reading stops at the first packet for this machine, which lies in the buffer unchanged, or when there is nothing left |
| `MetaDriver.Metanet.TakePacket` | net/metanet.c:253-277 | other programs' packets are skipped, local ones handed up, broadcasts both passed on and handed up, the rest forwarded |
| `MetaDriver.WhatIsRead` | net/metanet.c:249-278 | which frames are read, by their first four bytes: those with metanet's number but for the lowest and highest four bits, setup packets excepted; which of them are handed up, by their destination bytes, and what is sent on |
| `MetaDriver.SentIsRead` | net/metanet.c:129-158 | every copy of a broadcast is handed up by the machine that receives it |
| `MetaDriver.OwnFramesAreRead` | net/metanet.c:249-278 | data, discover and quit packets are never taken for other programs' packets |
| `MetaDriver.PassedOnIsRead` | net/metanet.c:178-278 | whatever a machine passes on is read by the next one |
| `MetaDriver.Metanet.SendToEntry` | net/metanet.c:553-564 | a table entry's path becomes the first hop and the destination of a packet with an empty source |
| `MetaDriver.Metanet.SendQuit` | net/metanet.c:890-911 | a machine that quits sends one quit packet without contents to every neighbour |
| `MetaNode.Node.SendFromBuffer` | net/metanet.c:537-565 | the game's data goes along the path of one entry, or as a broadcast with an empty source to every neighbour |
| `MetaDriver.Doomcom.NetGetPacket` | net/doomnet.c:128-134 | the driver's buffer holds the next packet waiting, or there is none |
| `MetaForwarding.ForwardingTerminates` | net/metanet.c:163-239 | on every topology, cyclic ones included, a schedule of reads is no longer than the work its packets hold |
| `MetaForwarding.WorkBound` | net/metanet.c:163-239 | one packet causes at most a fixed number of reads, as each forward leaves less room in its source address |
| `MetaForwarding.OnwardOk` | net/metanet.c:205-239 | whatever a machine sends on travels a real link to a real machine |
| `MetaForwarding.OnwardHasLessRoom` | net/metanet.c:168-171 | everything sent on has one free place less in its source than what came in |
| `MetaForwarding.ScheduleDoesNotMatter` | net/metanet.c:205-281 | what has arrived when nothing is left in flight is the same whatever order packets were read in |
| `MetaPaths.PathReversal` | net/metanet.c:205-281 | a packet sent along any path of one to five hops is delivered once, at its end only, unchanged, with arrival hop and source spelling the reversed path; an answer to that address comes back to the sender |
| `MetaPaths.FloodCount` | net/metanet.c:129-203 | a copy of a broadcast leads to exactly one copy for each legal continuation of its walk |
| `MetaPaths.BroadcastFollowsWalks` | net/metanet.c:129-203 | on every topology a broadcast arrives once for each walk of one to five hops that never turns back on its link, and never otherwise |
| `MetaPaths.BroadcastReachesEveryoneOnce` | net/metanet.c:129-203 | on an acyclic topology, whatever the schedule, every machine within five links gets a broadcast exactly once, its sender never, with the arrival hop and source a unicast would have had |
| `MetaTable.HandleDiscoverOk` | net/metanet.c:382-421 | a true discover message keeps a table sound: distinct entries, each a real walk, marked entries with the right station ID |
| `MetaTable.HandleDiscoverLearns` | net/metanet.c:382-421 | with room to spare the machines announced are in the table afterwards |
| `MetaDiscovery.NextKeepsInv` | net/metanet.c:338-535 | every step of the network keeps tables, packets in flight and inboxes sound |
| `MetaDiscovery.DiscoverySound` | net/metanet.c:338-421 | in every run every table holds at most 16 distinct entries, each a walk to a real machine, announced ones with its station ID, and data handed up names the entry of a machine that sent it |
| `MetaDelivery.DataIsHandedUp` | net/metanet.c:466-482 | data from a machine in the table is handed up exactly once, under that machine's entry and unchanged, and data from a stranger is not |
| `MetaDelivery.DiscoverIsTaken` | net/metanet.c:407-420 | a discover message in time leaves the sender's entry with the flags and station ID that it tells, no other entry changed, new ones blank, and is not answered |
| `MetaDelivery.LateDiscoverIsAnswered` | net/metanet.c:396-405 | one from a machine that has fallen behind changes no entry and is answered along its sender's own path with this machine's own announcement |
| `MetaDelivery.StrangersDiscover` | net/metanet.c:314-336 | a stranger's discover message is taken as if it had a blank entry already, or ignored when sixteen entries are taken |
| `MetaDelivery.AnswersAreFinal` | net/metanet.c:396-405 | an answer is never answered, whoever reads it |
| `MetaDelivery.QuitIsTaken` | net/metanet.c:423-456 | a quit message marks the entries whose addresses start with the sender's hops, and nothing when it is a stranger's |
| `MetaDelivery.OthersAreIgnored` | net/metanet.c:490-496 | packets of other kinds change nothing and are not answered |
| `MetaDelivery.ForwarderGoesOn` | net/metanet.c:407-420 | a forwarder that hears a player say that it plays on does not stop |
| `MetaDelivery.ForwarderStops` | net/metanet.c:831-847 | it stops once of the other entries each is a forwarder or has quit, and not before |
| `MetaDelivery.ForwardersGoOn` | net/metanet.c:849-862 | in every run in which nobody quits, no forwarder that knows of a player ever stops |
| `MetaDelivery.DataArrives` | net/metanet.c:205-281 | in every run, whatever else happens in it and in whatever order packets are read, as long as none is lost: data sent to an entry has been handed to the game of the machine at its end, under the entry that leads back, once none of it is on its way, if that machine knows the way back |
| `MetaDelivery.DataCanArrive` | net/metanet.c:205-281 | and reading it at each hop takes it there and hands it over, whatever state the network is in |
| `MetaDelivery.BroadcastArrives` | net/metanet.c:129-203 | the same of data sent to all, for every machine within five links |
| `MetaDelivery.FinishedKnowsBack` | net/metanet.c:747-780 | after discovery on a small network every machine knows the way back to everyone in reach |
| `MetaDelivery.QuitIsSent` | net/metanet.c:890-911 | a machine that quits tells each of its neighbours |
| `MetaDelivery.QuitIsRead` | net/metanet.c:486-488 | and its entry is marked when that is read |
| `MetaComplete.KnowsEveryWalk` | net/metanet.c:382-421 | a table whose entries have all announced themselves has every walk of up to five hops |
| `MetaComplete.DiscoveryComplete` | net/metanet.c:747-780 | on acyclic networks of at most 16 machines a table whose entries have all been heard from has exactly one entry for each machine within five links |
| `MetaProgress.StaysAnnounced` | net/metanet.c:382-421 | a table whose entries have all been heard from stays so |
| `MetaProgress.Told` | net/metanet.c:394-404 | an announcement makes the machine it reaches hear from its sender, or if that machine has launched already, its answer makes the sender hear from it |
| `MetaProgress.DiscoveryCanFinish` | net/metanet.c:782-815 | on such a network, from every state that a run reaches, whatever was lost and whoever has launched, announcing and reading lead to every machine having heard from everyone, with exact tables |
| `MetaNodes.NodeTable.constructor` | net/metanet.c:578-606 | the table starts with this machine and its immediate neighbours, as many as fit |
| `MetaNodes.NodeTable.NodeForAddr` | net/metanet.c:283-296 | the first entry with this first hop and address, or none |
| `MetaNodes.NodeTable.NodeOrAddNode` | net/metanet.c:314-336 | an unknown address is appended if there is room, and nothing else changes |
| `MetaNodes.NodeTable.HandleDiscover` | net/metanet.c:382-421 | the array of entries goes through exactly the table transition proved sound |
| `MetaNodes.NodeTable.ListNeighbors` | net/metanet.c:351-374 | the loops list at most 16 neighbours, all on other links than the one announced over |
| `MetaNodes.NodeTable.HandlePacket` | net/metanet.c:458-497 | data from a known sender is handed up, a discover message goes into the table and only a late one is answered, and a machine that quits is marked, as in the network whose runs are proved sound |
| `MetaNodes.NodeTable.NodeQuit` | net/metanet.c:423-456 | the loops mark exactly the entries whose address starts with the hops of the machine that quits |
| `MetaNodes.NodeTable.AllPlayersQuit` | net/metanet.c:831-847 | whether every other entry forwards or has quit |
| `MetaTable.QuitMarks` | net/metanet.c:448-455 | the machine that quits and those reached through it are marked and no others, if and only if no unmarked entry with the same first hops in its address has another first hop |
| `MetaTable.NeighborQuits` | net/metanet.c:439-455 | when an immediate neighbour quits every entry is marked, so that a forwarder finds all players gone |
| `MetaMessages.WriteDiscover` | net/metanet.c:338-380 | the buffer then holds a discover message that says this machine's flags, station ID and at most 16 neighbours on other links |
| `MetaMessages.SaysMeans` | net/metanet.c:58-68 | the bytes of such a message are parsed as just what it says |
| `MetaMessages.Layout` | net/metanet.c:55-73 | which bytes of the buffer hold the header, status, count, station ID and neighbours |
| `MetaMessages.StatusMasks` | net/metanet.c:33-37 | the bits of the status word by their masks |
| `MetaMessages.NeighborsRead` | net/metanet.c:410-412 | of the neighbours counted none are read when the count is negative and at most sixteen otherwise |
| `MetaNode.Node.SendDiscover` | net/metanet.c:338-380 | what goes out to an entry is the announcement of the network whose runs are proved sound |
| `MetaNode.Node.HandlePacket` | net/metanet.c:458-497 | on bytes, with the game's buffer filled in: table, answers and what is handed up are those of a machine of that network |
| `MetaNode.Node.GetPacket` | net/metanet.c:499-535 | whatever order the drivers are polled in, what has been read, sent, learned and handed up is what reading those packets one by one gives; it stops at the first packet for the game or when every driver is empty |
| `MetaNode.GameFrame` | net/metanet.c:458-482 | by its bytes: what follows the header of a data frame with an empty or a broadcast destination goes to the game under the sender's entry, if it has one |
| `MetaNode.NothingForGame` | net/metanet.c:499-535 | if reading ends with nothing for the game, there was no such frame from a machine known by then |
| `MetaNode.MakerDoesNotMatter` | net/metanet.c:458-497 | table, answers and delivery do not depend on who made a packet, which is not on the wire |
| `MetaArrange.RearrangeNodes` | net/metanet.c:639-658 | the swaps in the array are those of the loop on values, and entries beyond the table stay |
| `MetaArrange.SameEntries` | net/metanet.c:639-658 | no entry is lost or doubled |
| `MetaArrange.RearrangedRight` | net/metanet.c:645-657 | the forwarders end up last if and only if no forwarder changes places with another one while a player stands between them |
| `MetaArrange.LeftInFront` | net/metanet.c:648-657 | forwarder, player, forwarder: a forwarder stays in front of the player |
| `MetaNodes.NodeTable.CheckReady` | net/metanet.c:747-780 | when the machines are ready to start, and when a station ID clash is found |
| `MetaNodes.ReadyStep` | net/metanet.c:747-780 | getting ready changes a table as the step of the network does |
| `MetaNodes.AppendNextHop` | net/metanet.c:298-312 | the hop goes into the first free place of an address, or the address is full and unchanged |
| `MetaNumbers.AssignPlayerNumbers` | net/metanet.c:660-682 | every player gets its rank among the players, which is its number by the common rule, forwarders get none, and the game is told its own number and how many play |
| `MetaNumbers.ReadyIsDifferent` | net/metanet.c:752-772 | a ready table without two equal station IDs is one that can be numbered, and no other ready table is |
| `MetaNumbers.CountIsRank` | net/metanet.c:667-675 | counting players in the order of their station IDs gives each its rank |
| `MetaNumbers.MachinesAgree` | net/metanet.c:660-682 | in every run every finished table gives a player the rank of its station ID among all that play, so the same number as any other finished table, and has no two equal station IDs |
| `MetaNumbers.NumbersAreExact` | net/metanet.c:660-682 | in every run a finished table gives different players different numbers, exactly those below the number of machines that play, each by the common rule |
| `Numbering.NumberExists` | net/ipxsetup.c:182-228 | every station has a number below the number of stations |
| `Numbering.NumbersDiffer` | net/ipxsetup.c:182-228 | no two stations have the same number |
| `Numbering.OrderDoesNotMatter` | net/sirsetup.c:540-582 | a station's number depends on which stations there are, not on the order of the table |
| `Numbering.Agreement` | net/ipxsetup.c:182-228 | machines that each number themselves from their own table take all the numbers, each once, and every claim is honoured |
| `Bytes.MemCmpIsNumeric` | net/ipxsetup.c:199-203 | comparing addresses bytewise orders them as numbers |
| `IpxSetup.Ipx.NodeForAddress` | net/ipxsetup.c:56-69 | the entry with an address, or none |
| `IpxSetup.Ipx.ProcessSetupPacket` | net/ipxsetup.c:120-180 | a setup packet adds or updates just its sender's entry; another machine insisting on our number is refused |
| `IpxSetup.Ipx.FoundAll` | net/ipxsetup.c:278-291 | when the search for machines stops |
| `IpxSetup.Ipx.DetermineConsolePlayer` | net/ipxsetup.c:182-228 | the forced number, or a number nobody wants with as many such numbers below it as there are machines with lower addresses that are no drones and want none |
| `IpxSetup.Ipx.PlayersMean` | net/ipxsetup.c:191-218 | who is numbered automatically, and which numbers are taken: drones are not counted, but a number that a drone wants is |
| `SirNumbers.SirSetup.EnterClaims` | net/sirsetup.c:544-557 | claimed numbers are entered for exactly the stations that claim them |
| `SirNumbers.SirSetup.LowestWaiting` | net/sirsetup.c:567-577 | the station without a number that has the lowest ID |
| `SirNumbers.SirSetup.AssignPlayerNumbers` | net/sirsetup.c:540-582 | the assertion in the loop never fails, and both tables end up each other's inverse with the numbers of the common rule |
| `SirNumbers.SameEverywhere` | net/sirsetup.c:540-582 | two machines with the same stations in different order give every station the same number |
| `SirFraming.HearEscaped` | net/sirsetup.c:222-260 | no byte of an escaped packet is ever taken for a terminator or a handoff |
| `SirFraming.AfterFramechar` | net/sirsetup.c:230-254 | what each byte after a FRAMECHAR means: end, handoffs 0x10 to 0x1f, FRAMECHAR itself, and any other ignored |
| `SirFraming.StreamRoundTrip` | net/sirsetup.c:222-339 | a stream of packets is decoded as exactly those packets, boundaries and handoffs |
| `SirFraming.IntendedBlocks` | net/sirsetup.c:314-336 | as the comment at line 326 intends, the blocks of a packet put together are the escaped packet |
| `SirFraming.WrittenBlocks` | net/sirsetup.c:314-336 | as written, they are the escaped packet without the FRAMECHARs that meet slot 15 of a block |
| `SirFraming.WrittenIsIntended` | net/sirsetup.c:314-336 | the code sends what is intended if and only if no FRAMECHAR meets slot 15 |
| `SirStation.SevenFramechars` | net/sirsetup.c:324-328 | every packet with ordinary header bytes whose payload starts with seven FRAMECHARs is not sent right |
| `SirStation.SevenFramecharsOnly` | net/sirsetup.c:324-328 | with just those seven it is sent right if and only if its checksum is a FRAMECHAR too |
| `SirStation.HarmedPacket` | net/sirsetup.c:324-384 | the one from player 0 to player 1 has checksum 0xb6 and is not sent right |
| `SirLoss.OneByteUnread` | net/sirsetup.c:222-260 | what is heard of an escaped packet of which any one byte is not read: nothing ends, unless it is half a FRAMECHAR and the next other byte is a terminator |
| `SirLoss.ForgesHandoff` | net/sirsetup.c:230-249 | that is a handoff to player q if and only if the byte is half a FRAMECHAR and the next byte that is none is q's code |
| `SirStation.DamageIsSeen` | net/sirsetup.c:141-152 | a packet with any one byte changed has a different checksum |
| `SirStation.SendKeepsFirst` | net/sirsetup.c:341-384 | sending, with its replacement of the last packet of a full queue, never alters the packet being transmitted |
| `SirStation.TurnSends` | net/sirsetup.c:262-339 | a turn puts the queued packets on the wire in order and ends with one handoff to the partner |
| `SirStation.TurnIsHeard` | net/sirsetup.c:222-339 | a turn is heard as those packets with those boundaries, and they are the packets queued if and only if each is unharmed |
| `SirStation.TakeInHears` | net/sirsetup.c:154-260 | what a machine makes of a run of bytes, its queue and whether it takes the channel, is settled by the packets it hears in them |
| `SirStation.ListenHears` | net/sirsetup.c:186-189 | a machine pauses within a run of bytes if and only if it has one other player and some packet for it finds no room, and reads everything otherwise |
| `SirStation.ThroughOrPaused` | net/sirsetup.c:186-260 | a run of bytes is read through if and only if there are more than two machines or every packet completed before its last byte finds room |
| `SirStation.TurnIsReceived` | net/sirsetup.c:154-339 | a turn of unharmed packets is read through if and only if there are more than two machines or all packets but the last find room; then it reaches the machine as the packets for it, in order, as far as its queue has room, and makes only the partner transmit; otherwise the machine pauses with the handoff unread |
| `SirStation.HandsOn` | net/sirsetup.c:201-312 | a machine with the channel and something to send passes it on after finitely many calls |
| `SirStation.Delivered` | net/sirsetup.c:154-190 | a packet for this machine that arrives undamaged is queued with its payload and sender |
| `SirStation.StoredIff` | net/sirsetup.c:154-190 | a packet heard is stored if and only if it is whole and undamaged, has something in it, is addressed to this player or to all, and fewer than seven are waiting |
| `SirStation.NotForUs` | net/sirsetup.c:161-165 | another player's packet is not stored, nor is an empty one |
| `SirStation.TooShort` | net/sirsetup.c:161-165 | what is no longer than a header is not stored, whatever is in it |
| `SirStation.DamagedIsRefused` | net/sirsetup.c:161-165 | nor is one with any one byte changed |
| `SirStation.SendEffect` | net/sirsetup.c:341-384 | what sending does to the queue: appended while fewer than seven wait, in place of the last if longer, dropped otherwise |
| `SirStation.LongestIsKept` | net/sirsetup.c:356-373 | however many packets a full queue is flooded with, the first six stay and the last is the longest there was |
| `SirStation.StaysArbitrating` | net/sirsetup.c:262-307 | before the players are known nothing heard, sent or waited for changes that, and the same bytes go out |
| `SirPort.Queue.ReplaceLast` | net/sirsetup.c:361-373 | only the last packet of a full ring changes |
| `SirPort.Hash` | net/sirsetup.c:141-152 | the loop computes the 16-bit djb2 hash and returns its low byte |
| `SirPort.Port.EndOfPacket` | net/sirsetup.c:154-190 | a good packet joins the receive queue if it is not full; the next one starts empty |
| `SirPort.Port.Handoff` | net/sirsetup.c:201-220 | a waiting machine takes the channel, with an empty packet queued if it has nothing to send |
| `SirPort.Port.ByteReceived` | net/sirsetup.c:222-260 | the ring, the escape flag and the state after a byte are those of the machine on values |
| `SirPort.Port.DoReceiveByte` | net/serport.c:328-337 | the machine takes in the byte, and its port is no longer read if it could not store what the byte completed |
| `SirPort.Port.MoreTXData` | net/sirsetup.c:262-339 | the transmit buffer, the ring and the offset after a call are those of the machine on values |
| `SirPort.Port.FillBlock` | net/sirsetup.c:314-338 | the block loop fills the buffer with the next block as written |
| `SirPort.Port.SendPacket` | net/sirsetup.c:341-384 | the ring after sending is that of the machine on values; impossible nodes and lengths change nothing |
| `SirPort.Port.GetPacket` | net/sirsetup.c:386-424 | the oldest packet received is handed up with its sender's node and leaves the queue, and the port is read again |
| `SirPort.Port.CheckTimeout` | net/sirsetup.c:433-450 | only player 0 can take the channel unasked |
| `SirToken.StepTokens` | net/sirsetup.c:201-312 | no step but the timeout increases transmitting machines plus handoffs on their way, as long as no port loses bytes; without loss one token stays one |
| `SirToken.HearsStep` | net/sirsetup.c:222-260 | hearing never makes a token, and a handoff to a machine that already transmits is absorbed |
| `SirToken.TokenSafety` | net/sirsetup.c:201-312 | in every run of more than two machines, and of two in which neither pauses, with blocks lost or not, there are at most as many tokens as at the start plus the timeouts of player 0 |
| `SirToken.NothingToMiss` | net/sirsetup.c:186-189 | a port can lose bytes only in a game of two of whom one has paused |
| `SirToken.MutualExclusion` | net/sirsetup.c:687-746 | from the start of the game and without timeouts at most one machine transmits, and then no handoff is on its way to another: with more than two players always, with two as long as neither pauses |
| `SirToken.TokenMoves` | net/sirsetup.c:284-312 | in a step without loss the token stays put or goes from player p to the next, round to player 0 |
| `SirToken.InTurn` | net/sirsetup.c:284-312 | in every run without loss from the start the token is, after k handovers, with the k-th player after player 0, going round |
| `SirToken.LaterIsModulo` | net/sirsetup.c:746 | the k-th player after player p of n is player (p + k) % n |
| `SirToken.HoldersHandOn` | net/sirsetup.c:201-312 | in every run a machine that was handed the channel has something to send until it lets go, so that it hands on within finitely many calls |
| `SirToken.OthersArePatient` | net/sirsetup.c:433-440 | a timeout changes nothing at any player but player 0 |
| `SirToken.LostTokenReturns` | net/sirsetup.c:426-450 | when nobody has the token, a timeout gives it to player 0, and it is the only one |
| `SirToken.ReturnedTokenIsHandedOn` | net/sirsetup.c:426-459 | and with what it is about to send it hands the channel on again |
| `SirTwoPlayers.Collision` | net/sirsetup.c:186-260 | whenever a waiting machine of two has paused with a FRAMECHAR and its own handoff code next to each other among its unread bytes, both may end up transmitting |
| `SirTwoPlayers.TwoPlayersCollide` | net/sirsetup.c:154-424 | that happens in a run from the start of a two-player game without loss on the channel or timeouts |
| `SirDelivery.StepRight` | net/sirsetup.c:154-424 | every step without loss keeps what each machine has heard and will hear equal to what the others have sent |
| `SirDelivery.Delivery` | net/sirsetup.c:154-424 | in every run without loss each machine hears, in order, exactly the packets the others have transmitted, the rest being on its way, and its game gets exactly those that are undamaged, addressed to it and came while fewer than seven were waiting, in order |
| `SirDelivery.UnharmedAreHeard` | net/sirsetup.c:314-339 | and where they are unharmed it hears them as they were queued |
| `FragmentDriver.Driver.FindOrAllocateBuffer` | adapters/fragment.c:42-74 | the packet's own buffer, else an unused one, else one of the same sender, else the first, emptied if it was in use |
| `FragmentDriver.Driver.Accept` | adapters/fragment.c:91-114 | one fragment, malformed ones included, changes just its buffer, and completes it when the mask is full |
| `FragmentDriver.Driver.GetPacket` | adapters/fragment.c:76-119 | frames are taken in order until one completes a packet or none are left, late discovery messages being answered and skipped |
| `FragmentDriver.UpToFirstPacket` | adapters/fragment.c:76-119 | a call reads the frames up to the one that completes a packet and returns that packet, or reads all and completes none |
| `FragmentDriver.AllAreAnswered` | adapters/nodemap.c:71-85 | each late discovery message read is answered once, in order, to the node it came from |
| `FragmentDriver.WhatIsAnswered` | adapters/nodemap.c:71-85 | which messages are answered, by their bytes; an answer never is |
| `FragmentDriver.DiscoversDoNotMatter` | adapters/fragment.c:83-89 | late discovery messages do not change which packets are put together |
| `FragmentDriver.FragmentIsRead` | adapters/nodemap.c:71-85 | a fragment is read as it was written and never taken for such a message |
| `FragmentDriver.Driver.SendPacket` | adapters/fragment.c:121-148 | a packet goes out as all its fragments in order under one sequence number, and the next packet has the next number |
| `Fragments.MaskFull` | adapters/fragment.c:105-110 | the mask test succeeds exactly when every fragment has been received |
| `Fragments.PlaceBits` | adapters/fragment.c:134 | how the number and the count of a fragment share a byte |
| `Fragments.NothingHasToGo` | adapters/fragment.c:47-61 | while the packet has a buffer or one is unused, the fragment goes there and nothing is thrown away |
| `Fragments.WhoHasToGo` | adapters/fragment.c:62-73 | otherwise the first buffer of the same sender is emptied, or the first of all if it has none |
| `Fragments.OnlyOneGoes` | adapters/fragment.c:91-114 | all other buffers stay as they are, and the emptied one holds just the new fragment |
| `Fragments.OthersAreSafe` | adapters/fragment.c:64-71 | a machine with a buffer of its own never costs another one a packet |
| `Reassembly.Integrity` | adapters/fragment.c:42-119 | under loss, repetition, reordering and eviction every packet returned is one its sender sent, byte for byte |
| `ReassemblyComplete.RoomForOne` | adapters/fragment.c:55-61 | while at most seven other packets are unfinished there is a buffer for a new one |
| `ReassemblyComplete.Completeness` | adapters/fragment.c:76-148 | fragments arriving once each, in any order and mixed with at most seven other unfinished packets, none under the same sender and number, yield their packet exactly at the last one missing; numbers may be used again |
| `SerialStream.StreamCorrect` | net/sersetup.c:64-306 | in any interleaving in which no queue is thrown out, that is, with at most 2044 bytes waiting when a packet is read, the packets read are at every moment the first ones written, and all of them once no bytes are left |
| `SerialStream.ReadLoses` | net/sersetup.c:223-277 | with at most 2044 bytes waiting a call loses nothing that has arrived; with more it returns nothing and empties the queue |
| `SerialStream.FrameIsRead` | net/sersetup.c:241-277 | a packet of up to 512 bytes that has arrived whole is returned at once and what follows it is left, whatever byte ends it |
| `SerialStream.NewestIsWhole` | net/sersetup.c:106-123 | a packet just written is whole at the end of the queue; what was before it stays if it fits into 2048 bytes, and goes otherwise |
| `SerialStream.SixteenAtATime` | net/sersetup.c:77-90 | calls of the transmitter take sixteen bytes each until there are no more |
| `SerialStream.ScanDecode` | net/sersetup.c:223-277 | reading up to the next packet takes just that packet from what the whole stream decodes to |
| `SerialStream.SelfSync` | net/sersetup.c:223-277 | from any parser state two frames put it back in step, with at most three damaged packets |
| `SerialStream.CutSync` | net/sersetup.c:227-233 | when the queue is thrown out in the middle of a frame, only that frame and the next are damaged |
| `SerialPort.Driver.ByteReceived` | net/sersetup.c:64-75 | the ring refines a sequence: the byte is appended, or refused when one slot is left |
| `SerialPort.Driver.MoreTXData` | net/sersetup.c:77-90 | up to 16 bytes leave the front of the sequence for the transmit buffer |
| `SerialPort.Driver.ReadByte` | net/sersetup.c:92-104 | the first byte of the sequence, or -1 |
| `SerialPort.Driver.WriteBuffer` | net/sersetup.c:106-123 | the bytes are appended, after everything else has been thrown out if they did not fit |
| `SerialPort.Driver.WritePacket` | net/sersetup.c:279-306 | a packet is appended as one escaped frame; one too long is not |
| `SerialPort.Driver.ReadPacket` | net/sersetup.c:223-277 | the flags, buffer and ring after a call are those of the resumable parser, and the packet is in the buffer; with more than 2044 bytes waiting there is none and the ring is empty |
| `NibblePacket.SendPkt` | net/plio.asm:101-149 | the bytes given to send_byte are count, data and 8-bit sum; packets over the MTU are refused |
| `NibblePacket.RecvPkt` | net/plio.asm:230-257 | the loop on received bytes gives the packet, or a wrong checksum |
| `NibblePacket.MessageReceived` | net/plio.asm:230-257 | a packet's bytes are complete exactly at the last one and are received as sent |
| `NibblePacket.DamageIsNoticed` | net/plio.asm:244-257 | a packet with one byte of the data or the checksum changed is not received |
| `NibblePacket.SumsAddUp` | net/plio.asm:124-142 | the checksum is the sum of the bytes modulo 256 |
| `NibblePacket.HowMany` | net/plio.asm:101-149 | a message is its count, lowest byte first, as many bytes as that or 65536 for zero, and the checksum |
| `NibbleHandshake.StatusBits` | net/plio.asm:118-119 | the masks and shifts on the status register read the wires as modelled |
| `NibbleHandshake.ReceiverKeeps` | net/plio.asm:284-359 | the receiving end takes in exactly the byte being sent |
| `NibbleHandshake.InEveryInterleaving` | net/plio.asm:164-359 | bytes decoded are a prefix of those sent and the completed counts differ by at most one |
| `NibbleHandshake.NoDeadlock` | net/plio.asm:164-359 | until the transfer has ended one of the ends can go on |
| `NibbleHandshake.TransferEnds` | net/plio.asm:101-282 | if both ends keep acting the transfer ends, ports quiet, with the packet sent received and its checksum matching |
| `Aggregation.Aggregator.FlushPendingPackets` | net/pktaggr.c:39-49 | the packet held back goes to exactly the nodes it was held back for |
| `Aggregation.Aggregator.TryBroadcastStore` | net/pktaggr.c:53-92 | a packet is held back or counted just when it continues the sequence |
| `Aggregation.Aggregator.SendPacket` | net/pktaggr.c:94-104 | a call changes the buffer, the count and what has been sent as the rule on values says |
| `Aggregation.TraceEquivalent` | net/pktaggr.c:39-104 | what was sent, broadcasts written out, followed by what is held back, is exactly the calls in order, and never more sends than calls |
| `Aggregation.FlushedAll` | net/pktaggr.c:39-49 | after a flush nothing is held back |
| `Aggregation.OneBroadcast` | net/pktaggr.c:62-91 | the same packet to every other node in turn becomes one broadcast |
| `Aggregation.OthersGoAtOnce` | net/pktaggr.c:94-104 | what is not for one of the other nodes goes out at once, and what is held back stays |
| `Aggregation.LongGoAtOnce` | net/pktaggr.c:64-70 | a packet of more than 512 bytes is never held back, and goes out behind what was |
| `Arbitration.Arbiter.ProcessPackets` | net/serarb.c:55-101 | the packets waiting, of either protocol, are taken in order, up to one with our own ID |
| `Arbitration.Arbiter.PollArbitratePlayers` | net/serarb.c:151-185 | what a poll changes, and what it sends in the protocol last heard |
| `Arbitration.Agreement` | net/serarb.c:55-184 | over a channel that loses, repeats and reorders, when either end is at stage 2 both have their numbers, the one with the greater ID 1 and the other 0, and keep them |
| `Arbitration.HearsStage` | net/serarb.c:61-101 | after hearing stage k a machine is at stage k + 1 and says so at once |
| `Arbitration.HearsOldStage` | net/serarb.c:76-101 | the same in the old protocol, starting over when the other takes itself for the same player |
| `Arbitration.OnceASecond` | net/serarb.c:165-182 | a machine that hears nothing says the same again once a second |
| `Arbitration.CanEndIff` | net/serarb.c:55-184 | from every state that two machines with different IDs reach, packets that the other end has sent can get both to stage 2, if and only if neither is done already having said nothing but stage 0 |
| `Arbitration.ArbitrationCanFinish` | net/serarb.c:151-185 | as long as neither clock goes back that is never so: from every state both can get to stage 2 and done |
| `Arbitration.ClockGoesBack` | net/serarb.c:168-171 | a run in which a clock goes back below a second and the other end is left behind for ever |
| `Arbitration.SticksToItsPlayer` | net/serarb.c:76-93 | against a machine of the old protocol we never change our player, say so in all we send it, and are never done before it has said that it is the other one |
| `Arbitration.SameIdStops` | net/serarb.c:69-74 | hearing its own ID stops a machine for good |
| `Flags.FindFlagForName` | lib/flag.c:177-189 | the first flag with this name, letters compared without case |
| `Flags.WithoutCase` | lib/flag.c:177-189 | names are the same when they differ in nothing but the case of letters |
| `Flags.IdentifyCallee` | lib/flag.c:310-333 | the first argument that is neither a known flag nor its value |
| `Flags.CalleeAfterFlags` | lib/flag.c:310-333 | the command is the first argument after known flags and their values that is no flag; an unknown flag before it hides it |
| `Flags.MoveCallee` | lib/flag.c:352-366 | the command's pointer moves to the front and the others close up |
| `Flags.ReorderArgsForBakedIn` | lib/flag.c:335-397 | in place: the program's name, then known flags with their values in order, then everything else in order |
| `Flags.SortOne` | lib/flag.c:372-391 | one turn of the sorting loop, the write index never passing the read index |
| `Flags.ReorderedKeeps` | lib/flag.c:335-397 | reordering is a permutation |
| `Flags.SortedApart` | lib/flag.c:367-397 | both lists keep the order: two runs of arguments are sorted one after the other |
| `Flags.SortedAlone` | lib/flag.c:372-391 | a known flag with its value goes to the one list and any other argument to the other |
| `Flags.StripAPIPointers` | lib/flag.c:447-481 | API flags with their values are taken out in place and the rest closes up |
| `Flags.DoParseArgs` | lib/flag.c:483-541 | the loops parse as the specification on sequences does |
| `Flags.WhichFlag` | lib/flag.c:461-466 | of several flags with the name of an argument the first decides, and only an argument that starts with a dash is a flag |
| `Flags.OneFlag` | lib/flag.c:502-535 | what each kind of flag makes of the argument after it: numbers in the range of a 16-bit integer, signed or not, and nothing that starts with a dash |
| `Flags.EndOfFlags` | lib/flag.c:496-506 | parsing ends at the first argument that is no flag, and fails at an unknown flag or a missing value |
| `Flags.ApiAnywhere` | lib/flag.c:447-481 | a pointer for another program is taken out wherever it is, and the rest is parsed as if it had not been there |
| `Flags.ApiBroken` | lib/flag.c:468-470 | a pointer that is missing or no number is an error |
| `Flags.ReorderedParses` | lib/flag.c:335-541 | reordered arguments parse as the program's flags followed by a command that is exactly the rest |
| `Flags.CommandOf` | lib/flag.c:543-575 | with flags baked in, the command the user named comes first in what is run |
| `Flags.CalleeIsCommand` | lib/flag.c:310-333 | without anything baked in the identified command is the one parsing finds |

## Left out

- metanet's STATUS messages, packet counters and the printing of the topology; the flushing of held packets before reading is in `Aggregation`, not in `MetaNode.Node.GetPacket`.
- `MetaNumbers.AssignPlayerNumbers`: takes the order that the C library's sort produces as an argument, and requires different station IDs, which CheckReady has found.
- `MetaDriver.Metanet.GetAndForward`: frames shorter than a header are not modelled; the drivers underneath deliver none.
- `MetaNode.Node.GetPacket`: discover messages come whole; of a shorter one the program would read what the buffer held before.
- `MetaProgress.DiscoveryCanFinish`: says that discovery can be finished, not that every schedule does so; a channel may lose every message.
- `MetaComplete.DiscoveryComplete`: only for acyclic networks of at most 16 machines, because with cycles there are more walks than table entries and which of them are kept depends on the schedule.
- `FragmentDriver.Driver.Accept`: fragments that reach past the end of the reassembly buffer are not modelled, among them discovery replies that come late.
- `IpxSetup.Ipx.ProcessSetupPacket`: requires room for one more machine; the source does not look whether a seventeenth still fits into its arrays.
- `SirNumbers.SirSetup.AssignPlayerNumbers`: requires different station IDs and different claims below the number of nodes; the checks that lead there, and the arbitration phase, are not part of this model.
- `SirToken.TokenSafety`: on the channel blocks are lost whole; single bytes are lost only by a paused port, and `SirLoss.OneByteUnread` says what that does to a packet.
- `SirDelivery.Delivery`: says which packets are delivered, not when; a machine may be slow to read, and its game to fetch.
- `SerialStream.StreamCorrect`: says nothing about runs in which a ring overflows; what happens after the parser's queue is thrown out is `SerialStream.SelfSync` and `SerialStream.CutSync`.
- `NibbleHandshake.TransferEnds`: timeouts and spurious interrupts are left out, and a read of a port sees all five wires at once.
- `Arbitration.Agreement`: about two machines that speak the new protocol; a machine that speaks the old one is not part of this model beyond what it sends, and neither is the text form of the packets.
- `Flags.DoParseArgs`: the C library's number reading is a parameter, response files and the printing of help are left out.
- Clocks are nondeterministic or a parameter; the UART, interrupts, IPX, sockets, counters, LEDs, logging and process spawning are left out, and each callback is one atomic step except in the parallel-port handshake.
- The modem dialogue, the DOSbox server, the UDP client, the statistics programs and the control drivers.
