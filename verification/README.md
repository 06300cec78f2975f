# A model of the magictun overlay

magictun connects nodes by a path-vector routing protocol, carries its control and data
streams over multiplexed connections, and keeps a gossip table of peers. This project models
these parts in Dafny and proves what they guarantee: of one call, of every reachable state
and of whole runs.

## How the model is laid out

| file | what it models |
|---|---|
| `base.dfy` | bytes, fixed-width integers, big-endian encodings, list filtering |
| `addr.dfy`, `bits.dfy` | addresses, masks, networks, and the text form of a network as a table key; what masking means bit by bit |
| `table.dfy` | the routing table: buckets of routes per network, filtered in place, refining a finite map |
| `lookup.dfy` | what the answers of a lookup mean |
| `wire_route.dfy`, `wire_gossip.dfy`, `wire_tcp.dfy` | the codecs, as buffer code proved against a format |
| `layout.dfy` | where each field of each format stands, in plain offsets and numbers |
| `propagation.dfy` | one node's reactions: the Propagator over bytes, and its decisions as functions |
| `network.dfy` | a network of nodes as a state machine, and the invariant of all reachable states |
| `effects.dfy` | what a step does to each single entry and what it sends, without the functions of the model |
| `refinement.dfy` | the Propagator's methods are steps, or runs, of that state machine |
| `flood.dfy` | route floods: how long they last and whom they reach |
| `tree.dfy`, `cycle.dfy` | exact tables on trees; on which networks a withdrawal dies out |
| `shortest.dfy` | when tables hold shortest paths, and how they lose them |
| `detours.dfy`, `families.dfy` | the graph theory behind that: second-shortest ways, and families of them that do not get in each other's way |
| `framing.dfy`, `mux.dfy` | frames on a byte pipe; streams over one connection |
| `conservation.dfy` | one direction of a connection as a state machine, and conservation of the bytes of its streams |
| `endings.dfy` | how streams end, for their readers; queue bounds; everything sent can be received |
| `gossip.dfy` | the versioned peer table as a join |
| `limiter.dfy` | the token bucket for incoming connections |

Objects that change state (`RoutingTable`, `Propagator`, `Stream`, `Conn`, `PeerManager`,
`RateLimiter`) are classes. Each method is proved against a function on the state as a value
(`Put`, `HandleBytes`, `TakeFrom`, `Demuxed`, `Merged`, `Allow`, ...), and the theorems are
about these functions. The network steps use the same functions, and `refinement.dfy` shows
that the outputs of the Propagator, put on the wire, are exactly the packets of those steps.

## Main results

* In every reachable state, with links coming and going, messages lost and reordered, routes
  expiring and peers going down, every update in flight carries a loop-free walk over links
  that existed, from its sender to an origin that owns the prefix; cost equals path length.
* Every flood of updates ends within a bound computed from the messages in flight, from any
  state, on any graph. On static links, when it has ended a node holds a route for a prefix
  of an origin if and only if a walk of at most 31 links leads to the origin; so a component
  of at most 32 nodes is always complete.
  Every run can be continued by deliveries to such an end.
* Without cycles every node then holds exactly one route per prefix and origin, the tree path.
* On any graph a node then has a route through each neighbour on a shortest path. It is
  certain to end with a shortest route if and only if through one of these neighbours all ways
  that avoid the node have the same length, as on trees and rings.
* The withdrawals of a route that a node sends to its neighbours die out if and only if the
  links around the node form a tree, whatever else is in flight and whatever the node still
  knows. With a cycle no run of deliveries ever ends, because withdrawals are passed on without
  a duplicate check; in particular after the loss of a peer where redundant links are left.
  On a tree each link is crossed once, and everybody in reach forgets the route for good if and
  only if no update that somebody would accept was in flight.
* The bytes of every stream are conserved under any interleaving, closes included. When a
  stream is closed or its connection breaks, its reader gets exactly what was held and is told
  of the end if and only if its queue had room. From every state of an open connection a run of
  arrivals and reads delivers every byte; no queue outgrows its channel on the way.
* A network contains exactly the addresses of its family that share its first bits, also when
  it is read from a message; a lookup finds a best one of the routes with a longest such network.
* Every codec is a pair of inverses, with the exact domain on which that holds, and every field
  stands where the format says, in big-endian order.
* The rate limiter accepts of a burst exactly as many calls as the bucket holds by then, and in
  any window at most its maximum plus what the window earns.

## Where the code and its documentation differ

The model follows the code.

* README.md:38-58 of the repository lets an exit node announce 0.0.0.0/0. `Lookup` starts
  with a best mask length of 0 and needs strictly more, so a learned route with a mask of
  length 0 is never selected (`Lookup.DefaultRouteIsInvisible`; `Lookup.FoundIff` says
  exactly when a lookup succeeds).
* `AddRoute` with the same origin, next hop, cost and preference keeps the old path and only
  refreshes the age, and with another cost overwrites even a better route. "Oldest route wins"
  therefore means least recently refreshed. And a shortest route can be lost: in a triangle
  with a tail, the tail's only route may end as the detour (`Shortest.TriangleWithTail`), and in
  a kite both of two shortest routes may (`Shortest.KiteLosesBoth`). `Shortest.ShortestIff`
  says exactly for which nodes this can happen.
* The route decoder checks a minimum length that fits IPv4 only, and indexes past its input on
  IPv6 messages of 34 to 45 bytes (`WireRoute.CrashIff`).
* The 32-hop limit is a limit of 31 links: a node further away never learns the route.
* A frame with an empty payload reads as a closed stream (`Conservation.EmptyWriteReadsClosed`). A read
  returns one whole payload exactly when it is not empty and fits the buffer
  (`Conservation.ReadsWholeIff`); message boundaries are therefore stated for such writes.
* Both ends of a connection hand out the odd identifiers from 1. Streams opened from both
  ends can share one, and then the frames of the one end up in the other
  (`Mux.OpenAtBothEnds`).
* transport/conn.go:127 says that `Close` closes all streams of a connection. It closes none, and
  `closeAll` does nothing afterwards: a reader that waits is never told
  (`Endings.HangUpIsUnheard`). A close by the other end is not reported either when the queue is
  full (`Endings.CloseIsHeard`).
* Gossip agrees on version and liveness whatever the order of the pushes, but on the state only
  if all newest records agree on it (`Gossip.StateConvergesIff`).
* A known peer that was marked dead cannot announce itself back: its own pushes always carry
  version 1 (`Gossip.DeadIgnoresSelfAnnouncements`; `Gossip.RevivesIff` says what it takes).
* Calls to the rate limiter that come closely one after another never earn a token, because
  each refill is truncated and the time is used up (`Limiter.CloseCallsStarve`). From an empty
  bucket a run of calls is refused altogether exactly when no gap in it earns a token
  (`Limiter.StarvesIff`).

## Model

| member | source | states |
|---|---|---|
| Addr.MaskedNotMapped | route/table.go:57 | masking an IPv6 network never turns it into an IPv4 one, so table keys of the two families never meet |
| Base.NumbersCompare | wire/gossip.go:53 | bytes of one length compare from the left exactly as the numbers they stand for |
| Base.EncodingsCompare | wire/route.go:56-62 | encoded integers of 16, 32 and 64 bits are big-endian: their bytes compare as the numbers do |
| Bits.ContainsIff | route/table.go:143-156 | a network contains exactly the addresses of its family with the same first bits, as many as its mask has; a mask in IPv6 width counts the bits of the 16-byte form |
| Bits.NetworkBits | route/table.go:156 | the network around an address keeps its first bits, and the rest is zero |
| Bits.SixteenBytes | wire/route.go:97-111 | the 4-byte and the v4-mapped 16-byte form of an address correspond one to one |
| Bits.KeysIdentify | route/table.go:57 | networks with one table key contain the same addresses, and no two proper networks share a key |
| Addr.OneKeyPerLength | route/table.go:156-159 | a canonical network contains an address exactly when its table key is the key of that length around the address |
| Table.CompactInPlace | route/table.go:100-105 | filtering into the same array leaves exactly the kept elements, in order, in front |
| Table.FilterBucket | route/table.go:179-186 | one bucket filtered through its own array is the filtered list |
| Table.BestPath | route/table.go:223-250 | the winner is one of the two and neither beats it in preference, path length, cost, age |
| Table.BetterIsWeakOrder | route/table.go:221-250 | route preference is a strict weak order, so the rank of a winner does not depend on the order of comparison |
| Table.RoutingTable.constructor | route/table.go:34-39 | a new table represents the empty map |
| Table.RoutingTable.SetDirectNetworks | route/table.go:42-46 | replaces the attached networks and leaves the learned routes alone |
| Table.RoutingTable.AddRoute | route/table.go:56-88 | the buckets keep representing the map under insertion: loops refused, duplicates only refreshed, other costs overwrite; the flag tells whether to pass the route on |
| Table.RoutingTable.RemoveRoute | route/table.go:91-111 | exactly the routes of that origin for that prefix leave the map, and no empty bucket stays |
| Table.RoutingTable.SweepBucket | route/table.go:178-192 | one bucket is filtered, or leaves the map when it becomes empty; the drop is counted |
| Table.RoutingTable.SweepBuckets | route/table.go:118-130 | one pass in any bucket order filters every bucket once and counts the dropped entries |
| Table.RoutingTable.Sweep | route/table.go:118-130 | the pass removes exactly the routes not to be kept, and the count is the difference of the sizes |
| Table.RoutingTable.RemoveAllFromOrigin | route/table.go:114-131 | afterwards no route is originated by or goes through the peer, and all others remain |
| Table.RoutingTable.GC | route/table.go:173-194 | precisely the routes younger than the lifetime remain, and the result is the drop in size |
| Table.RoutingTable.GetAllRoutes | route/table.go:197-208 | the snapshot lists every stored route exactly once |
| Table.RoutingTable.Size | route/table.go:211-219 | the number of entries in all buckets is the cardinality of the map |
| Table.RoutingTable.ScanBucket | route/table.go:155-166 | after a bucket the running best is a best of all candidates seen so far |
| Table.RoutingTable.ScanBuckets | route/table.go:151-167 | in any bucket order the result is a best of all candidates |
| Table.RoutingTable.Lookup | route/table.go:134-170 | the first attached network that contains the address, else a stored route of a longest containing prefix of at least one bit that no candidate beats, else nothing |
| Lookup.AnswerIsBest | route/table.go:134-170 | attached networks first, in order; else a stored route than which no candidate has a longer mask, then none a higher preference whatever its path, then none a shorter path, then none a lower cost, then none is older |
| Lookup.AnswersTie | route/table.go:154-169 | two lookups on one table agree up to routes that tie in mask length, preference, path length, cost and age |
| Lookup.FoundIff | route/table.go:151-169 | outside attached networks a lookup succeeds exactly when some stored prefix of length at least 1 contains the address, and the answer's prefix is a longest |
| Lookup.DefaultRouteIsInvisible | route/table.go:152-165 | a table that holds only 0.0.0.0/0 answers nothing although that network contains every IPv4 address |
| Lookup.CandidateIsKeyed | route/table.go:156-159 | for canonical networks the candidates of a length are the routes under one key |
| Lookup.CandidatesProbed | route/table.go:154-166 | the first key found from the longest length down holds exactly the candidates of maximal length |
| Lookup.ScanIsProbe | route/table.go:154-169 | for canonical networks the scan over all buckets and probing one key per length, longest first, allow the same answers |
| Lookup.RefreshOutlivesGC | route/table.go:74-87 | a route heard again survives a collection within its lifetime even if only its age changed, and no other route's fate changes |
| WireRoute.EncodeRouteMessage | wire/route.go:25-69 | the buffer that is filled field by field is the encoding |
| WireRoute.PutTail | wire/route.go:56-67 | cost, origin, preference and path go behind what is already written, and only there |
| WireRoute.PutHops | wire/route.go:64-67 | the hop loop appends the hops in order |
| WireRoute.DecodeRouteMessage | wire/route.go:72-137 | the stepping decoder computes the decoding function on all inputs, including errors and the crash |
| WireRoute.ReadTail | wire/route.go:116-136 | the part behind the prefix, with the limit of 32 hops |
| WireRoute.ReadHops | wire/route.go:129-135 | the hop loop reads that many hops or reports truncation |
| WireRoute.HopsRoundTrip | wire/route.go:64-67 | hops followed by any bytes decode to themselves |
| WireRoute.HopsParsed | wire/route.go:129-135 | decoded hops are the bytes that were read |
| WireRoute.RouteRoundTrip | wire/route.go:25-137 | an encoded message followed by any bytes decodes to itself if and only if the mask fits the family and the path has at most 32 hops |
| WireRoute.RouteParsed | wire/route.go:72-137 | every input that decodes begins with the encoding of what it decodes to, if and only if the decoded mask fits the family: a length beyond the width and a v4-mapped address of family 6 are not written back as read |
| WireRoute.CrashIff | wire/route.go:73-126 | the decoder indexes out of range exactly on IPv6 messages of 34 to 45 bytes |
| Layout.RouteLayout | wire/route.go:25-62 | type, flags, mask length, family, address, cost, origin, preference and hop count stand at these offsets, numbers big-endian |
| Layout.RouteHops | wire/route.go:64-67 | hop i stands behind the fixed part, nearest hop first |
| Layout.RouteReads | wire/route.go:72-137 | exactly the messages of type 1 and a known family decode that say at most 32 hops and hold them all |
| Layout.NetworkRead | wire/route.go:94-114 | the network read from a message contains the addresses of its family that share as many bits with the address in it as the length byte says; none if that exceeds the width |
| Layout.WithdrawalBit | route/propagation.go:78 | a message is a withdrawal exactly when the lowest flag bit is set |
| Layout.EntryLayout | wire/gossip.go:47-58 | identity, key, state, version, address length and address of a gossip record stand at these offsets |
| Layout.PushLayout | wire/gossip.go:33-61 | a push is type 3, the number of records, and the records one behind the other |
| Layout.HeaderLayout | wire/forward_tcp.go:23-49 | the fields of the TCP header stand at these offsets |
| Layout.HeaderReads | wire/forward_tcp.go:53-82 | which TCP headers decode, how many bytes they take and which address they name |
| Layout.FrameLayout | transport/frame.go:48-64 | kind, stream, payload length and payload of a frame stand at these offsets |
| Layout.ReadFails | transport/frame.go:67-87 | which of the three errors reading a frame ends in, or that it succeeds, from the bytes alone |
| Propagation.BytesCarryMessages | route/propagation.go:67-111 | handling an encoded message, with any trailing bytes, has the effect of handling the message, and what is passed on decodes to what was meant |
| Propagation.LostAndKept | route/propagation.go:134-147 | routes that stay and routes that go with a peer add up to the table |
| Propagation.Propagator.constructor | route/propagation.go:32-39 | a Propagator starts on its table with nothing sent |
| Propagation.Propagator.PathContains | route/path.go:24-31 | a node is found exactly when it is on the path |
| Propagation.Propagator.Emit | route/propagation.go:126-129 | one broadcast of the encoded message |
| Propagation.Propagator.SendExcept | route/propagation.go:175-187 | every peer but the excepted one is sent the message once, in order |
| Propagation.Propagator.HandleRouteUpdate | route/propagation.go:67-111 | table and messages after any input bytes: errors change nothing, withdrawals remove and go on as received, loops and long paths stop, news goes on with this node in front |
| Propagation.Propagator.AdvertiseOne | route/propagation.go:116-130 | an attached network is stored and broadcast whether or not it was new |
| Propagation.Propagator.AdvertiseDirectNetworks | route/propagation.go:114-131 | all attached networks, in order |
| Propagation.Propagator.BroadcastAdverts | route/propagation.go:165-170 | each listed route is broadcast once with this node in front |
| Propagation.Propagator.AdvertiseTick | route/propagation.go:161-170 | a tick announces the attached networks and then every route of the resulting table exactly once, to all |
| Propagation.Propagator.BroadcastWithdrawals | route/propagation.go:139-146 | exactly the routes via or from the peer are withdrawn |
| Propagation.Propagator.WithdrawAllFromPeer | route/propagation.go:134-147 | exactly the removed routes are withdrawn, once each: size before is size after plus withdrawals |
| Propagation.LostListed | route/propagation.go:135-141 | filtering the snapshot lists exactly the routes that the removal drops |
| Network.AdvertOk | route/propagation.go:201-211 | what a node sends about a sound route is a sound update |
| Network.LearnOk | route/propagation.go:88-104 | what passes loop check and length cap is a sound route |
| Network.StepKeepsInv | route/propagation.go:67-187 | origination, rebroadcast, delivery, expiry, peer loss, rewiring and message loss keep the path invariant |
| Network.ReachableStatesAreSound | route/propagation.go:84-131 | the path invariant holds in every state of every run |
| Network.HonestMessagesDecode | wire/route.go:123-127 | no honest message is rejected or changed by the decoder; cost never wraps and the hop limit never bites |
| Network.NeverViaSelf | route/table.go:62-65 | no lookup answers with the node itself as next hop or origin |
| Network.PreferenceIsLengthThenAge | route/table.go:223-250 | between routes the network produced, preference is path length and then age |
| Network.PeerDownForgets | route/propagation.go:134-147 | after a peer loss no route is via or from the peer, and the node's own routes survive |
| Network.StaysForgotten | route/propagation.go:87-106 | no step but the acceptance of an update from or about the peer brings such a route back |
| Network.NeverViaDownPeer | route/table.go:134-170 | over any run in which the node accepts no such update no lookup uses the lost peer |
| Effects.WithdrawalEffect | route/table.go:91-111 | at one node a withdrawal takes out exactly the entries of its prefix and origin, leaves all others as they are, and goes on as it came |
| Effects.RejectedEffect | route/propagation.go:87-95 | an update that names the node or has gone 32 hops changes nothing and is not passed on |
| Effects.UpdateEffect | route/table.go:56-88 | any other update touches its own entry only: refreshed if cost and preference are those stored, else replaced, and passed on in that case only |
| Effects.BytesEffect | route/propagation.go:67-111 | what does not decode changes nothing; a withdrawal goes on byte for byte, an update encoded anew |
| Effects.StepOnEntry | route/table.go:56-194 | every step at every node: an entry goes exactly when it is withdrawn, expires or is lost with a peer; one that the step brings news of is stored or refreshed; all others stay unchanged |
| Effects.WithdrawalSparesOthers | route/table.go:96-106 | a withdrawal leaves every route of another prefix or origin, at every node, present and unchanged, also when its own prefix is not stored |
| Effects.PathKept | route/table.go:75-83 | an entry changes its path only together with its cost or preference |
| Effects.FirstPathStays | route/table.go:75-83 | over whole runs the first path of a cost stays while cost and preference do, whatever else is announced |
| Effects.DuplicateOnlyRefreshes | route/table.go:80-83 | a duplicate makes its own entry younger, changes nothing else anywhere and sends nothing |
| Effects.DeliverySends | route/propagation.go:78-110 | a delivery takes its message off the wire and puts exactly the one that is passed on on it, once per target |
| Effects.AnnouncementsSent | route/propagation.go:114-170 | originations and rebroadcasts send one update per target, the path starting with the node |
| Effects.PeerLossTells | route/propagation.go:134-147 | a neighbour is sent a withdrawal of a prefix and origin exactly when some route for them was via or from the lost peer |
| Refinement.BroadcastsAreFans | gossip/gossip.go:163-173 | broadcast bytes, decoded at the receivers, are the messages that were meant, one per connection |
| Refinement.SendsAreFan | route/propagation.go:175-187 | the sends to all alive peers but one reach exactly those of them that are connected |
| Refinement.HandlingIsDelivery | route/propagation.go:67-111 | HandleRouteUpdate on the bytes of a packet, signature stripped or not, told all alive peers, is one delivery step |
| Refinement.WithdrawingIsPeerDown | node/node.go:609-617 | WithdrawAllFromPeer after the connection is dropped is one peer-down step |
| Refinement.OriginationsRun | route/propagation.go:114-131 | AdvertiseDirectNetworks is a run of originations |
| Refinement.RebroadcastsRun | route/propagation.go:163-170 | the loop over the snapshot is a run of rebroadcasts |
| Refinement.TickIsRun | route/propagation.go:161-170 | a tick of the advertise loop is a run of steps with the same table and packets |
| Flood.DeliveryLowersMeasure | route/propagation.go:88-110 | delivering an update strictly lowers the sum of (D+1)^(32-l) over the messages in flight |
| Flood.FloodTerminates | route/propagation.go:88-110 | from any state, deliveries of updates number at most that sum |
| Flood.AnnounceSpreads | route/propagation.go:106-110 | announcing a new route settles what the node owed its neighbours |
| Flood.LoopedDelivery | route/propagation.go:87-90 | a message rejected as a loop starves nobody, since the node has announced the route already |
| Flood.DuplicateDelivery | route/table.go:74-83 | neither does a suppressed duplicate |
| Flood.StaticStep | route/propagation.go:67-187 | every step on static links keeps the flood invariant |
| Flood.NewsTravels | route/propagation.go:175-187 | with nothing in flight, news has passed along every walk within the hop limit |
| Flood.HeldImpliesWalk | route/propagation.go:92-95 | a stored route is evidence of a walk of at most 31 links |
| Flood.FloodReachesExactly | route/propagation.go:84-131 | at quiescence a node holds a route if and only if a walk of at most 31 links leads to the origin, on any graph, in any order, with any rebroadcasts |
| Flood.SimpleWalk | route/propagation.go:93-95 | nodes joined by a walk are joined by one without repetition |
| Flood.SmallComponentIsComplete | route/propagation.go:84-131 | in a component of at most 32 nodes every connected node holds the route |
| Flood.Settle | route/propagation.go:88-110 | deliveries in some order bring every flood to its end, even with one message held back |
| Flood.EveryFloodSettles | route/propagation.go:84-131 | every run on static links can be continued by deliveries until nothing is in flight |
| Tree.StoredWalk | route/propagation.go:97-104 | a stored route is a simple walk to its origin, its cost the number of nodes on it |
| Tree.OneRoutePerOrigin | route/table.go:74-87 | without cycles never two routes for one prefix of one origin |
| Tree.ExactTables | route/propagation.go:97-109 | on a tree, at quiescence, exactly one route per prefix and origin: the tree path, cost distance plus one |
| Tree.OneWayIn | route/propagation.go:179-182 | an unvisited node has one visited neighbour, so no copy of a withdrawal meets another |
| Tree.CopyDelivered | route/propagation.go:78-82 | delivering a withdrawal moves the frontier of the flood by one node |
| Tree.OtherDelivered | route/propagation.go:67-111 | no other delivery disturbs the flood |
| Tree.FloodRun | route/propagation.go:78-82 | over any run of deliveries the receivers are distinct and form the visited part |
| Tree.WithdrawalFlood | route/propagation.go:78-82 | a withdrawal reaches every node of a tree once, never its source; at the end nobody reached stores the route, if no acceptable update was on its way |
| Tree.PeerLossStartsFlood | route/propagation.go:134-147 | a peer loss on a tree starts such a flood for each route lost with the peer |
| Tree.PeerOutOfReach | node/node.go:609-617 | on a tree the lost peer is out of reach of the node that dropped it |
| Tree.PeerLossIsForgotten | route/propagation.go:78-147 | a peer lost on a tree, all copies delivered, no acceptable update in flight before: nobody whom the node still reaches stores a route that was lost with the peer |
| Cycle.CirclingStep | route/propagation.go:78-82 | a copy that can go on without turning back is replaced by another such copy |
| Cycle.CirclesForever | route/propagation.go:78-82 | so some copy is in flight after every run of deliveries |
| Cycle.WalksCloseRing | route/propagation.go:175-187 | two different simple walks between the same nodes contain a ring of links |
| Cycle.RingsNeverQuiet | route/propagation.go:78-82 | a node has sent withdrawals to its neighbours and reaches a ring: there is always a copy in flight |
| Cycle.PeerLossNeverQuiet | route/propagation.go:134-147 | a peer loss that leaves a ring within reach causes withdrawals that never die out, whatever other routes the node has |
| Cycle.DepthDrops | route/propagation.go:175-187 | on a tree the way that is left to a copy gets shorter with every link |
| Cycle.CopiesRunOut | route/propagation.go:78-82 | on a tree, whatever copies are in flight, every run delivers a bounded number of them |
| Cycle.FinishCopies | route/propagation.go:78-82 | on a tree some run delivers every copy and nothing else |
| Cycle.DiesOutOnlyOnTrees | route/propagation.go:78-82 | the withdrawals that a node sends to its neighbours can die out if and only if its component is a tree |
| Cycle.LateUpdate | route/propagation.go:84-110 | an update that somebody accepts can come after the last copy of the withdrawal |
| Cycle.FinalIff | route/propagation.go:78-110 | on a tree every run that delivers all copies leaves nobody with the route if and only if no acceptable update was in flight |
| Shortest.DeliveryPasses | route/propagation.go:84-110 | a delivery keeps it that what a node announced on a shortest path its neighbour has or is about to hear |
| Shortest.HeardFromCloser | route/propagation.go:84-131 | at quiescence a node has a route through every neighbour on a shortest path, on any graph |
| Shortest.RouteAvoids | route/propagation.go:87-95 | a stored route is a simple way from the next hop that avoids the node |
| Shortest.ShortestKept | route/table.go:74-87 | a node has a shortest route at quiescence if through one closer neighbour all ways that avoid the node are equally long |
| Shortest.LinesAndRingsAreForests | route/propagation.go:87-95 | where nobody has more than two links, at most one simple way avoids a given node |
| Shortest.TreesAndRingsAreShortest | route/table.go:74-87 | on trees, lines and rings every node within reach ends with a shortest route |
| Shortest.CarryAll | route/propagation.go:97-110 | news can travel along compatible ways, all in one run, before it travels anywhere else |
| Shortest.LateDetours | route/table.go:75-80 | compatible ways from different neighbours can all be the last ones heard: some run ends with all of them in the table |
| Families.CompatibleDetours | route/table.go:74-87 | wherever nodes have longer ways, such ways can be chosen so that the suppression of equally long duplicates stops none of them |
| Shortest.DetoursLoseShortest | route/table.go:75-80 | with longer compatible ways through all closer neighbours some run ends without a shortest route |
| Shortest.ShortestIff | route/table.go:74-87 | a node has a shortest route at the end of every run if and only if through some closer neighbour all ways that avoid the node are equally long |
| Shortest.KiteLosesBoth | route/table.go:75-80 | a kite, and a run at whose end a node with two shortest paths has no shortest route |
| Shortest.TriangleWithTail | route/table.go:75-80 | a triangle with a tail, and a run at whose end the tail has no shortest route |
| Framing.Writer.Write | transport/frame.go:35-42 | a connection takes any part of what it is given; it is at fault when a write fails or takes nothing |
| Framing.Reader.ReadFull | transport/frame.go:69-71 | all bytes asked for, or an error that tells whether any were there |
| Framing.WriteFull | transport/frame.go:33-45 | succeeds with exactly the input under arbitrary positive short writes; fails exactly when the connection is at fault, with a prefix written |
| Framing.WriteFrame | transport/frame.go:48-64 | one encoded frame unless the connection is at fault, then a prefix of it; nothing when too large |
| Framing.ReadFrame | transport/frame.go:67-87 | the parse of what the pipe holds |
| Framing.FrameInverse | transport/frame.go:48-87 | a frame followed by any bytes parses to the frame and those bytes |
| Framing.FrameParsed | transport/frame.go:67-87 | only an encoded frame parses |
| Framing.TruncationInverse | transport/frame.go:67-87 | cutting the bytes of any frames anywhere yields the complete ones and then an error, which is a plain EOF also right behind a header |
| Framing.SequenceInverse | transport/frame.go:48-87 | reading all that was written gives the same list of frames, then EOF |
| Mux.AttemptIsOdd | transport/conn.go:99-103 | the tried identifiers are the odd numbers in order, across the 32-bit wrap |
| Mux.AttemptsDiffer | transport/conn.go:96-103 | none is tried twice within a round |
| Mux.Stream.constructor | transport/conn.go:105 | a stream starts open and empty |
| Mux.Stream.Read | transport/conn.go:229-252 | leftover first, else the front of the queue with the rest left over; nil reads as closed |
| Mux.Stream.Write | transport/conn.go:255-272 | an open stream sends one data frame and succeeds unless the connection is at fault, then a prefix; nothing on a closed stream or when too large |
| Mux.Stream.Close | transport/conn.go:275-288 | the first call sends the close frame, or a prefix of it when the connection is at fault; later calls send nothing |
| Mux.Stream.NotifyClosed | transport/conn.go:181-188 | the stream is closed, and its reader told unless the queue is full |
| Mux.TakesWhatFits | transport/conn.go:229-252 | a read gets as many bytes as are in front and fit the buffer, and what does not fit is left over |
| Mux.EndAnnounced | transport/conn.go:181-188 | a stream that is told is closed and has a nil behind all it holds, if there was room |
| Mux.EndsAnnounced | transport/conn.go:213-225 | after closeAll every stream is closed; those that were open have the nil, if there was room |
| Mux.Conn.constructor | transport/conn.go:74-87 | a connection starts with the control stream alone |
| Mux.Conn.OpenStream | transport/conn.go:90-111 | the first free odd identifier among a thousand, never in use and never the control stream; failure only if all are taken or the connection is closed |
| Mux.Conn.CloseAll | transport/conn.go:203-226 | every stream still open is told once, no other changes, and a second call changes nothing |
| Mux.Conn.Close | transport/conn.go:128-137 | only the connection is closed; no stream is, and nobody is told |
| Mux.Conn.Demux | transport/conn.go:156-201 | a frame changes its own stream only; a new stream is offered once, and waits for room in the accept channel; a close removes the stream; a full queue blocks with nothing changed |
| Mux.Conn.Meet | transport/conn.go:164-179 | the stream of the frame, new ones offered to the acceptor or waiting to be |
| Mux.Conn.Dispatch | transport/conn.go:181-199 | what the frame does to its stream once the queue has room |
| Mux.Conn.AcceptStream | transport/conn.go:115-125 | the stream offered first, or nothing once the connection is closed |
| Mux.Conn.StreamFor | transport/conn.go:164-179 | the stream of an identifier, created if need be, no other touched |
| Mux.Conn.EndStream | transport/conn.go:181-193 | a close frame tells the reader and removes the stream, no other touched |
| Mux.Conn.Enqueue | transport/conn.go:195-199 | a payload joins the queue of its stream, no other touched |
| Mux.OpenAtBothEnds | transport/conn.go:78-107 | the first streams opened at both ends have one identifier: the frame of one is queued in the other and the acceptor hears nothing |
| Conservation.SendExtendsFlight | transport/conn.go:295-299 | a sent frame joins the frames in flight at the end |
| Conservation.ArrivalShortensFlight | transport/conn.go:158 | an arrival takes the first frame in flight |
| Conservation.StepIsViewStep | transport/conn.go:156-288 | a step is a write, a close, a move into the queue or a read of one stream and invisible to the others |
| Conservation.BytesAreConserved | transport/conn.go:156-288 | read, left over, queued and in flight, put together, are the bytes written, for every interleaving, buffer size and close |
| Conservation.EndedStreamIsComplete | transport/conn.go:181-193 | a reader that has read a closed stream to the end has everything that was written to it |
| Conservation.ReaderSeesPrefix | transport/conn.go:229-272 | the reader always has a prefix of what was written |
| Conservation.AlignedTake | transport/conn.go:229-252 | with non-empty writes that fit the buffer a read returns one whole payload or the end of the stream |
| Conservation.ReadsWholeIff | transport/conn.go:236-251 | with nothing left over a read returns the whole front payload if and only if it is not empty and fits, and fails if and only if it is empty |
| Conservation.EmptyWriteReadsClosed | transport/conn.go:236-245 | an empty write to an open stream reads as closed at the other end, though it is open and nothing is lost |
| Conservation.MessagesStayWhole | node/node.go:599-625 | the control messages read are the messages written, one read each |
| Endings.ReadingOn | transport/conn.go:229-252 | once nothing more comes in, a reader gets what is held, in order, and hears of an end once per blank element, whatever else happens on the connection |
| Endings.CloseIsHeard | transport/conn.go:181-193 | after a close frame reading on yields exactly the bytes held, which are all that was written; with room in the queue the reader never blocks before the end is reported, and it is; with a full queue it is not |
| Endings.BreakIsHeard | transport/conn.go:203-226 | the same for every open stream when the connection breaks |
| Endings.HangUpIsUnheard | transport/conn.go:127-137 | after a local Close no reader is told, not even by closeAll, and its stream is not closed |
| Endings.QueuesStayBounded | transport/conn.go:84-105 | no queue ever outgrows its channel |
| Endings.EverythingArrives | transport/conn.go:156-252 | from every state of an open connection some run of arrivals and reads empties the pipe and gives the reader every byte written |
| WireGossip.EncodeGossipPush | wire/gossip.go:33-61 | the buffer that is filled record by record is the encoding |
| WireGossip.PutEntries | wire/gossip.go:46-59 | the record loop writes the records in order |
| WireGossip.PutEntry | wire/gossip.go:47-58 | one record behind what is already written, and only there |
| WireGossip.DecodeGossipPush | wire/gossip.go:64-101 | the stepping decoder computes the decoding function on all inputs |
| WireGossip.ReadEntries | wire/gossip.go:78-99 | the counted loop reads that many records or fails as a whole |
| WireGossip.ReadEntry | wire/gossip.go:79-97 | one record, with both truncation checks |
| WireGossip.EntryRoundTrip | wire/gossip.go:33-101 | a record is read at an offset if and only if its encoding stands there and its address has at most 255 bytes |
| WireGossip.PushDecodesIff | wire/gossip.go:33-101 | data decodes to a list if and only if the list fits the format and its encoding begins the data |
| WireGossip.PushRoundTrip | wire/gossip.go:33-101 | a push followed by any bytes decodes to itself if and only if it fits the format |
| WireGossip.EntrySays | gossip/gossip.go:321-330 | the merged record has the identity, address, state and version of its entry, and its key unless that is all zeros |
| WireGossip.PushedBytesJoin | gossip/gossip.go:130-137 | a push that travels as bytes leaves a known peer with the newest version among what was stored and what the entries say, alive if one of that version says so |
| WireTCP.EncodeTCPForwardHeader | wire/forward_tcp.go:23-49 | the buffer is the encoding, in both address widths |
| WireTCP.DecodeTCPForwardHeader | wire/forward_tcp.go:53-82 | the stepping decoder computes the decoding function and the consumed count |
| WireTCP.HeaderRoundTrip | wire/forward_tcp.go:23-82 | a header followed by any bytes decodes to itself and consumes its own length, if and only if it names an address |
| WireTCP.HeaderParsed | wire/forward_tcp.go:53-82 | what decodes is an encoding, except that a v4-mapped address in 16 bytes is read as IPv4 |
| Gossip.Join | gossip/peer.go:64 | the least rank above both |
| Gossip.PeerManager.constructor | gossip/peer.go:40-45 | a new table is empty |
| Gossip.PeerManager.AddOrUpdate | gossip/peer.go:49-78 | the whole new table: never the node itself, version 1 on first sight, newer or equally new and alive records replace, a known key is kept |
| Gossip.PeerManager.Remove | gossip/peer.go:81-85 | only that peer goes |
| Gossip.PeerManager.MarkSuspect | gossip/peer.go:120-133 | an alive peer becomes suspect with the next version |
| Gossip.PeerManager.MarkDead | gossip/peer.go:136-147 | a known peer becomes dead with the next version |
| Gossip.PeerManager.MarkAlive | gossip/peer.go:150-161 | a known peer becomes alive at its version |
| Gossip.PeerManager.HandlePush | gossip/gossip.go:312-337 | the entries are merged in order, and the callback hears of exactly those that changed the table |
| Gossip.FirstSight | gossip/peer.go:56-62 | an unknown peer enters with version 1 whatever the record claims, seen now, the rest as the record says; nobody else changes |
| Gossip.NewsTakesOver | gossip/peer.go:64-77 | news replaces state, version, address, networks and time together, and the key unless the record has none; nobody else changes |
| Gossip.ChangeReported | gossip/peer.go:49-78 | a change is reported exactly for a first record or news about another node; otherwise nothing changes |
| Gossip.ReportedIff | gossip/gossip.go:332-335 | the callback hears of a peer exactly when some entry of the push is its first or is news; else its record stays |
| Gossip.MarksTouchLittle | gossip/peer.go:120-161 | marking touches state, version and, for alive, the time; only an alive peer becomes suspect, every known one can become dead |
| Gossip.RecordIsWhole | gossip/peer.go:49-78 | after any merges a record is the old one or comes from a single record, the last that was news; never a mixture |
| Gossip.MergeIsJoin | gossip/peer.go:64-77 | on a known peer the rank becomes the join of the two ranks, and no other peer changes |
| Gossip.PushIsJoin | gossip/gossip.go:312-337 | a whole push moves the rank to the join of all its entries |
| Gossip.JoinAllIsLeast | gossip/peer.go:64 | that join is the least upper bound |
| Gossip.PushContinues | gossip/gossip.go:312-337 | pushes one after the other are one sequence of merges |
| Gossip.MergesJoin | gossip/peer.go:64-77 | a sequence of merges, each at its own time, moves the rank to the join of all records |
| Gossip.OrderDoesNotMatter | gossip/gossip.go:312-337 | any two sequences of pushes with the same records, at any times, give a known peer the same version and liveness |
| Gossip.StateIsFromTop | gossip/peer.go:64-77 | the state is the old one or that of a record that no other beats |
| Gossip.StateConvergesIff | gossip/peer.go:64-77 | the state is independent of order, times and repetitions if and only if all records on top agree on it |
| Gossip.StateDependsOnOrder | gossip/peer.go:64 | suspect and dead of one version: the one that came first stays |
| Gossip.RankNeverDrops | gossip/peer.go:49-161 | an operation lowers the rank of a peer it keeps if and only if it overflows the version; a key is never lost |
| Gossip.RunIsMonotone | gossip/peer.go:49-161 | the same over whole runs; the node itself is never stored |
| Gossip.StaleEntriesAreIgnored | gossip/gossip.go:285-291 | a peer's entries about itself change nothing once its record has version 2 |
| Gossip.DeadIgnoresSelfAnnouncements | gossip/gossip.go:110-114 | neither these nor a new connection revive a peer that was marked dead |
| Gossip.RevivesIff | gossip/peer.go:64-77 | an alive record revives a dead peer if and only if its version is at least the one that marking it dead produced |
| Limiter.TruncatedQuotient | node/node.go:145 | the truncated real quotient is the integer quotient |
| Limiter.RateLimiter.constructor | node/node.go:130-137 | the bucket starts full |
| Limiter.RateLimiter.TryAllow | node/node.go:139-154 | refill, cap, take one if there is one |
| Limiter.EarnedSum | node/node.go:145 | the sum of truncated refills is at most the truncated total |
| Limiter.RunKeepsBounds | node/node.go:139-154 | tokens stay between 0 and the maximum in every run |
| Limiter.AcceptedBound | node/node.go:139-154 | accepted calls are bounded by the tokens at hand and those earned since |
| Limiter.WindowBound | node/node.go:130-154 | between times s and t at most max + floor(max * (t - s) / interval) calls are accepted, whatever came before |
| Limiter.BurstAccepted | node/node.go:139-154 | of n calls at one instant exactly min(n, max, tokens + floor(max * elapsed / interval)) are accepted |
| Limiter.FullAfterPause | node/node.go:145-151 | after a pause of an interval exactly the next max calls are accepted, whatever came before |
| Limiter.SpacedCallsPass | node/node.go:139-154 | calls whose gaps all earn a whole token are all accepted |
| Limiter.CloseCallsStarve | node/node.go:142-145 | calls whose gaps earn no whole token are never refilled: exactly the tokens at hand are accepted |
| Limiter.StarvesIff | node/node.go:142-153 | from an empty bucket a run of calls is refused altogether if and only if none of its gaps earns a whole token |

## Left out

- Network.Apply: each call of the Propagator on one node is one step, or a run of steps for a tick; interleavings inside `HandleRouteUpdate` and `WithdrawAllFromPeer`, a snapshot that is stale by the time it is withdrawn, and routes changed through shared pointers while they are being encoded are not covered.
- Network.Rewire: dialling, reconnecting, bootstrap and the gossip probes appear only as arbitrary changes of connections and liveness.
- Network.ConnsOf: one set of connections stands for the connection maps of the node and of the gossip engine.
- Flood.FloodReachesExactly: for static reliable links without withdrawals or expiry; nothing is claimed on how long periodic rebroadcasts keep a route fresh.
- Tree.PeerLossIsForgotten: an update in flight anywhere counts as acceptable unless its receiver rejects it, also where it could not come within reach of the node; `Cycle.FinalIff` is exact for components that no link leads into from outside.
- Cycle.DiesOutOnlyOnTrees: message loss, which can stop a circling copy, is not part of these runs.
- Table.CompactInPlace: the array behind a slice is copied in and out, since buckets are sequences; aliasing between a filtered bucket and an older slice of the same array is not modelled.
- Table.RoutingTable.GetAllRoutes: returns values, not shared pointers to the stored routes.
- Table.RoutingTable.AddRoute: one clock reading per call, given as a parameter; so for the other timed calls.
- Addr.KeyOf: the text of a network is taken as an injective function of address and mask length; masks with holes, which the code never builds, are left out.
- Mux.Conn.Demux: the round that the closing of the connection ends while it waits is left out.
- Endings.EverythingArrives: the connections of this model accept every new stream at once; that a full accept channel holds up all streams of a connection until somebody accepts is in `Mux.Conn.Demux` only.
- Conservation.Half: one direction with one writer per stream, and streams that its reader does not close; conservation is not claimed for identifiers that both ends opened.
- Framing.Reader.ReadFull: the connection delivers what it has and then ends; deadlines and other errors are not distinguished.
- Limiter.RateLimiter.TryAllow: float64 rounding and the overflow of the int conversion are not modelled, the quotient is exact.
- Gossip.PeerManager.HandlePush: all entries of a push are merged at one reading of the clock, each under the table's lock.
- Signatures are bytes that follow a message; Ed25519 and SHA-256, key files and certificate pins are not part of this model.
- Sockets, TLS, listeners, the SOCKS5 server, the TCP and UDP relays with their sessions, health, metrics, configuration and command line.
- Random choice of gossip targets and the timers of the probe loop.
- Getters, counters, and the messages that consist of a type byte.
