# Verified core of the ngtcp2 bindings and the tokio server

`ngtcp2` wraps the ngtcp2 C library; `tokio-ngtcp2` builds a QUIC server on it. Most of both is
calls into C. This project models the logic that is written in Rust and that the safety of those
calls and the routing of datagrams rest on, and proves what it guarantees over every input and
every run:

* **Send buffers** (`InFlight`, `SendStreams`, `SendBuffer`). ngtcp2 keeps raw pointers into
  application data until the data is acknowledged. `InFlight` is the buffer of one stream as a
  value, with allocations that have an identity and a capacity. `SendStreams` is a whole connection
  with the environment: any writes, ngtcp2 taking any prefix of each, acknowledgements in order,
  closed streams, rejected 0-RTT. `SendBuffer` is the imperative code over heap arrays; each of its
  calls is proved to be one step of that connection.
* **Routing** (`Resolve`, `RouteTable`, `TakenCids`, `HandOff`, `RouteSystem`, `LiveRoutes`,
  `HeldRoutes`, `ServerRoutes`; `Openings`, `ResetWindow`, `KeyReuse` and `PrefixClash` are particular runs). One socket, two routing tables and any number of accepted connections, as a step
  system whose steps are as long as a task keeps running or the mutex is held. `HeldRoutes` says
  exactly what each step does to the tables and where the packets after it go; `ServerRoutes` has
  the methods of `SharedRoutes` and `Server`, each proved to do the corresponding step.
* **Address validation** (`Admission`, `AddressValidation`, `ConnectionEvents`). Retry and NEW_TOKEN
  over whole runs against an arbitrary network, stated against a log of what happened.
  `ServerRuns` joins it with the routing system: one run, in which the tokens that admit a
  connection are those the run has made.
* **Rate limit** (`ResetLimiter`). The token bucket for Stateless Resets, with its saturating
  arithmetic and floored divisions.
* **Wire formats** (`Varint`, `Packet`, `Alpn`). Variable-length integers, splitting of coalesced
  packets, ALPN lists and selection.

`Octets` holds the shared small types. `dafny verify dfyconfig.toml` checks everything.

Some things that one might expect of the code are false. Each is stated with failing cases and the
exact condition under which it holds; the packets in the cases have arbitrary tails and the IDs
arbitrary values, so that they include packets that the C library accepts:

* The rate limit is not 33 a second beyond the burst: rounding grants one more at 121 212 121 ns
  (`ResetLimiter.ExactRateExceeded`). Every run keeps the exact rate if and only if the clock is
  below that (`ResetLimiter.ExactRateWindow`); the bound that always holds is `GrantBound`.
* A connection key is not always unique. The key of a connection that returned from a Retry is the
  Retry's SCID. Once an accepted connection has retired that ID, a copy of its first Initial, within
  the lifetime of the token, makes a second connection under the same key, and delivery through the
  shared table can then fail (`KeyReuse.DeliveryFails`). A key in use is given out in no other way
  (`LiveRoutes.KeyInUse`); a step keeps all routes live if and only if it does not do this
  (`LiveRoutes.StepKeepsLive`), and any step that does can be followed by a failed delivery
  (`LiveRoutes.ReuseBreaksDelivery`).
* A Stateless Reset can hit a live connection. The shared table is asked, unlocked, and only the
  remembered IDs are looked at again (`ResetWindow.ResetInWindow`); and `flush` sends the packets
  that announce an ID before the ID is registered (`ResetWindow.ResetBeforeSync`). It happens exactly
  for IDs in one of these two windows (`LiveRoutes.ResetHitsLive`).
* `split_packets` does not split version 2 datagrams correctly, since `packet_len` gives the type
  bits their version 1 meaning: a version 2 Initial is always cut (`Packet.V2InitialIsCut`).
  `Packet.SplitOfV2` says exactly which version 2 datagrams come out right.
* Handing a connection over can lose its packets if one connection ID is a prefix of another, which
  happens with SCIDs shorter than those of a Retry (`PrefixClash.PrefixClaimsPacket`; exact
  conditions in `HandOff.ServerReleases` and `HandOff.SharedClaims`).

## Model

| member | source | states |
|---|---|---|
| SendStreams.PointerStability | ngtcp2/src/conn.rs:211-270 | In every run, each byte ngtcp2 took and has not reported acknowledged is in an allocation the stream still holds, at the index it was handed out at, and reads what was sent. Holds also after rejected 0-RTT, when stream IDs are reused over a kept entry. |
| SendStreams.NoSharedAllocation | ngtcp2/src/conn.rs:164-209 | In every run no allocation is held twice, neither by two streams nor twice by one, so an in-place append can only touch its own stream. |
| SendStreams.RetentionBound | ngtcp2/src/conn.rs:227-256 | In every run the capacities of the retired buffers sum to at most the current capacity, their end offsets are non-decreasing, and every buffer still retired ends beyond the acknowledged offset. |
| SendStreams.QueueRefinement | ngtcp2/src/conn.rs:994-1050 | In every run the last bytes held are exactly the sent and unacknowledged ones; the buffer is exactly that queue, with the acknowledged count as offset, if and only if the entry carries no bytes of an earlier use of the stream ID. |
| SendStreams.NoRejectionNoStaleBytes | ngtcp2/src/conn.rs:2306-2317 | Without a 0-RTT rejection no run leaves such bytes, so the refinement is exact for every stream. |
| SendStreams.ReofferedTail | ngtcp2/src/conn.rs:1004-1050 | If the application re-offers what was not taken, then whatever prefixes ngtcp2 takes, what was sent is a prefix of the message and the buffer holds exactly its unacknowledged part: nothing is duplicated or lost. |
| SendStreams.StepKeepsInv | ngtcp2/src/conn.rs:164-289 | Every write, acknowledgement, close and rejection keeps all entries well formed, their allocations apart and every outstanding pointer tracked. |
| SendStreams.RunsKeepInv | ngtcp2/src/conn.rs:164-289 | The same for whole runs from any state in which it holds. |
| InFlight.ReleaseDropsPrefix | ngtcp2/src/conn.rs:227-229 | A retired buffer is released exactly when the acknowledged offset reaches its end, and what remains is a suffix of the retired ones. |
| InFlight.AckKeepsWellFormed | ngtcp2/src/conn.rs:211-230 | An acknowledgement keeps order, retention bound and distinct allocations, and does not move the end offset. |
| InFlight.AckKeepsTracks | ngtcp2/src/conn.rs:211-230 | An acknowledgement of any prefix of the outstanding bytes leaves every pointer beyond it reading its byte. |
| InFlight.SwapKeepsTracks | ngtcp2/src/conn.rs:237-256 | Moving to a new allocation copies every outstanding byte to its place and leaves every pointer reading it in a retired one. |
| InFlight.SwapKeepsWellFormed | ngtcp2/src/conn.rs:237-256 | Doubling the capacity on a swap is what keeps the retention bound. |
| InFlight.EmptyHasNoRetired | ngtcp2/src/conn.rs:237-256 | An entry without data retires nothing, so replacing its buffer outright, as the code does, frees no referenced byte. |
| InFlight.WriteIsReserveThenExtend | ngtcp2/src/conn.rs:1004-1050 | Appending all bytes and truncating what ngtcp2 did not take equals appending in place just what it took, after a swap if all would not have fitted. |
| InFlight.WriteKeepsWellFormed | ngtcp2/src/conn.rs:1004-1050 | A write adds to the unacknowledged bytes exactly the prefix taken and keeps the entry well formed. |
| InFlight.WriteKeepsTracks | ngtcp2/src/conn.rs:1004-1050 | After a write all earlier pointers and the new ones read the bytes that were sent through them. |
| SendBuffer.InFlightStreamData.AckUntil | ngtcp2/src/conn.rs:211-230 | The in-place method over arrays does what the value model says and writes no array. |
| SendBuffer.InFlightStreamData.Append | ngtcp2/src/conn.rs:237-262 | In-place append within the capacity, a fresh array otherwise; result and returned start as in the value model, and no retired array is written. |
| SendBuffer.InFlightStreamData.TruncateUnwritten | ngtcp2/src/conn.rs:268-270 | Shortens the length in use and neither moves nor writes the array. |
| SendBuffer.InFlightStreamData.Write | ngtcp2/src/conn.rs:1004-1050 | The buffering part of a write, for any number of bytes ngtcp2 reports, equals the value model. |
| SendBuffer.ConnectionUserData.AckedStreamData | ngtcp2/src/conn.rs:275-280 | Acknowledges up to the saturated sum on the stream's entry, if there is one, and leaves every other stream's arrays unchanged. |
| SendBuffer.ConnectionUserData.ClosedStream | ngtcp2/src/conn.rs:286-288 | Drops the one entry and leaves every other stream's arrays unchanged. |
| SendBuffer.ConnectionUserData.WriteStream | ngtcp2/src/conn.rs:994-1050 | A write creates the entry if needed, does what the value model says to it, and leaves every other stream's arrays unchanged. |
| SendBuffer.OutstandingCells | ngtcp2/src/conn.rs:164-197 | Pointer stability on the heap: after any sequence of the four calls below, every byte ngtcp2 took and has not reported acknowledged is in the array cell its pointer leads to, in an array the connection still owns. |
| SendBuffer.ConnectionUserData.Write | ngtcp2/src/conn.rs:994-1050 | A write on the heap, with ngtcp2 taking the prefix it reports, is one enabled step of the whole connection and keeps every outstanding pointer tracked. |
| SendBuffer.ConnectionUserData.Ack | ngtcp2/src/conn.rs:275-280 | So is an acknowledgement. |
| SendBuffer.ConnectionUserData.Close | ngtcp2/src/conn.rs:286-288 | So is a closed stream. |
| SendBuffer.ConnectionUserData.RejectEarlyData | ngtcp2/src/conn.rs:2306-2317 | So is the rejection of 0-RTT, which leaves all buffers in place. |
| SendBuffer.WriteIsStep | ngtcp2/src/conn.rs:1004-1050 | A write is an enabled step whenever what it allocates is an array the connection has never held; bytes that fit need no new identity. |
| SendBuffer.ReadsArrayCell | ngtcp2/src/conn.rs:164-197 | A pointer that reads a byte in the value model is into an array the entry owns, in bounds, and the array cell has that byte. |
| LiveRoutes.DeliveryNeverFails | tokio-ngtcp2/src/server.rs:1598-1624 | In every interleaving that does not reuse a key, whatever the shared table resolves to has an open queue: a closed route is never reported and the clean-up after it is unreachable. |
| LiveRoutes.StepKeepsLive | tokio-ngtcp2/src/server.rs:920-971 | From any state with live routes, a step of the server or of an accepted connection keeps all shared routes live, and no connection both held and accepted, if and only if it does not create a connection from a Retry token whose SCID is the key of an accepted one. |
| LiveRoutes.RunsKeepLive | tokio-ngtcp2/src/server.rs:1207-1270 | So do all runs without such a step. |
| LiveRoutes.KeyInUse | tokio-ngtcp2/src/server.rs:1855-1905 | A new connection gets a key in use only if it was admitted by a Retry token, its DCID is that key, and the connection with the key has retired the ID, so that it is in neither table. |
| LiveRoutes.ReuseBreaksDelivery | tokio-ngtcp2/src/server.rs:1134-1146 | Every such step can be followed by a hand-over, a drop and a sync after which the shared table resolves to a connection without a queue, for any ID that connection is issued and any long header that names it. |
| KeyReuse.DeliveryFails | tokio-ngtcp2/src/server.rs:1785-1905 | Whole runs to such a state, for all IDs and packet tails: the server sends a Retry, the client returns with its token, retires the Retry's SCID, and its Initial is repeated. |
| LiveRoutes.SharedRoutesLive | tokio-ngtcp2/src/server.rs:1181-1294 | In every state reached without reusing a key, the shared table routes only to live connections, each with the queue that is its own, and no connection is both held and accepted. |
| RouteSystem.RoutesOnlyToHeld | tokio-ngtcp2/src/server.rs:1627-1742 | In every reachable state the server's table routes only to connections it holds, at most 1024; all shared ID lengths are listed; neither table has address entries with a non-zero ID length; every accepted connection has a queue, of at most 512 datagrams. |
| RouteSystem.StepKeepsInv | tokio-ngtcp2/src/server.rs:1530-1742 | Every step of the server and of accepted connections keeps that invariant. |
| RouteSystem.RunsKeepInv | tokio-ngtcp2/src/server.rs:1482-1527 | So does every interleaving, whatever Retry tokens come back. |
| LiveRoutes.TakeNeedsUnusedKey | tokio-ngtcp2/src/server.rs:2380-2435 | Taking a connection keeps all shared routes live if and only if its key is not in use there. |
| RouteSystem.ResetSafety | tokio-ngtcp2/src/server.rs:2256-2306 | In every reachable state in which a Stateless Reset is about to be sent, the ID whose token it uses starts the packet, which is long enough, and is neither routed nor remembered by the server; the shared table routes it if and only if it was registered after that table was asked, and remembers it if and only if it was retired after it was looked up. |
| RouteSystem.LooksFindTarget | tokio-ngtcp2/src/server.rs:2256-2306 | Each turn of the search, which takes the lock anew, keeps the target of the whole search as long as nothing else happens, and ends at it. |
| RouteSystem.ResetTargetIsCandidate | tokio-ngtcp2/src/server.rs:2256-2306 | The chosen ID starts the packet, has a listed length and is not remembered. |
| HeldRoutes.ResetTargetExactly | tokio-ngtcp2/src/server.rs:2256-2306 | An ID is the target if and only if it is listed, starts the packet, has a token and is not remembered, and no longer listed ID that starts the packet has a token or is remembered. |
| LiveRoutes.ResetHitsLive | tokio-ngtcp2/src/server.rs:790-797 | In every state reached without reusing a key, a client may still use that ID if and only if its connection registered it after the shared table was asked, or has announced it and not registered it yet; what was registered meanwhile leads to a live connection. |
| ResetWindow.ResetInWindow | tokio-ngtcp2/src/server.rs:1552-1589 | For all IDs and packet tails, a reachable state in which the reset about to be sent uses the token of an ID that a live connection has registered in between. |
| ResetWindow.ResetBeforeSync | tokio-ngtcp2/src/server.rs:790-797 | For all IDs and packet tails, a reachable state in which it uses the token of an ID that a live connection has announced and not yet registered. |
| RouteSystem.HandOffKeepsDatagrams | tokio-ngtcp2/src/server.rs:2380-2435 | In every reachable state, with non-empty SCIDs and prefix-free IDs, every datagram resolved to a connection before it is taken is then unresolved by the server, resolved to that connection by the shared table, and deliverable. |
| HeldRoutes.HandOffKeepsAddressed | tokio-ngtcp2/src/server.rs:2380-2435 | In every reachable state, a datagram the server resolved by address is, once the connection is taken, unresolved there and resolved to it by the shared table, unless an ID of another accepted connection claims it. |
| HeldRoutes.TakeIsExact | tokio-ngtcp2/src/server.rs:2380-2435 | The connection is handed over with an empty queue and nothing pending, its IDs are remembered, nothing in the server's table leads to it, and every other accepted connection is as it was. |
| HeldRoutes.TakenIdsAreRemembered | tokio-ngtcp2/src/server.rs:2380-2435 | In every reachable state, with room for them among 8192, all IDs of a connection that is taken are remembered, so that no reset is sent for them. |
| HeldRoutes.DropIsExact | tokio-ngtcp2/src/server.rs:1134-1146 | Dropping an accepted connection takes its routes, queue and pending IDs; every datagram of another stays with it. |
| HeldRoutes.OwnReadIsExact | tokio-ngtcp2/src/server.rs:920-971 | In every reachable state, a datagram that the shared table leads to its reader or to no one is handed to ngtcp2, and what that issues and retires is in the table right after. |
| HeldRoutes.SyncedIsFound | tokio-ngtcp2/src/server.rs:959-971 | Packets to an ID issued in that call are then found in the shared table. |
| HeldRoutes.AfterIoIsExact | tokio-ngtcp2/src/server.rs:2603-2624 | After an internal error all of it is still pending, and nothing else has changed. |
| HeldRoutes.PopTakesFirst | tokio-ngtcp2/src/server.rs:859-875 | Queued datagrams are handled in order, one for each turn. |
| LiveRoutes.ReadReachesOwner | tokio-ngtcp2/src/server.rs:920-953 | In every state reached without reusing a key, a datagram read by another accepted connection ends up last in its owner's queue, or is dropped if that is full; nothing else changes. |
| LiveRoutes.HandOffReachesOwner | tokio-ngtcp2/src/server.rs:1598-1624 | The same for a datagram the server has read and does not know itself. |
| RouteSystem.SyncIsExact | tokio-ngtcp2/src/server.rs:959-971 | After a sync the shared table routes to the connection exactly the IDs it had or was issued since the last one, less those retired since, and no other connection loses an ID that was not issued again. |
| RouteSystem.NewConnectionIsFound | tokio-ngtcp2/src/server.rs:2042-2096 | A created connection is found by retransmitted Initials with the original DCID, by packets to its SCID and by packets to every ID issued meanwhile. |
| RouteSystem.AddRoutesMaps | tokio-ngtcp2/src/server.rs:2042-2096 | Exactly the SCID, the original DCID, the preferred-address ID and the issued IDs lead to the new connection; every other entry is as before. |
| HeldRoutes.AddRoutesLengths | tokio-ngtcp2/src/server.rs:2042-2096 | Exactly the lengths of the SCID, the preferred-address ID and the issued IDs come to be listed, and not that of the original DCID. |
| HeldRoutes.AddRoutesAddresses | tokio-ngtcp2/src/server.rs:2042-2060 | The client's address leads to the connection exactly if its SCID is not its key. |
| HeldRoutes.CreatedExactly | tokio-ngtcp2/src/server.rs:1855-2040 | An admitted Initial creates its connection if and only if there are fewer than 1024, it is validated or no duplicate, set-up succeeds, no Retry is required and the error, if any, can be ignored; otherwise nothing changes. |
| HeldRoutes.DuplicateIsResolved | tokio-ngtcp2/src/server.rs:1860-1870 | In every reachable state a tokenless Initial for a known original DCID resolves to its connection before it could create another. |
| HeldRoutes.NewIdsAreFound | tokio-ngtcp2/src/server.rs:2042-2096 | Every long or short header to the new connection's SCID, preferred-address ID or issued IDs resolves to it. |
| HeldRoutes.NewClientIsFound | tokio-ngtcp2/src/server.rs:1552-1567 | In every reachable state of a server with zero-length SCIDs, every short header and every long header without an ID from the address of the client that just connected resolves to its connection, unless an ID resolves it. |
| HeldRoutes.NewAddressIsFound | tokio-ngtcp2/src/server.rs:1552-1567 | The same in any state, with the ID that takes precedence. |
| HeldRoutes.UnknownIdIsUnresolved | tokio-ngtcp2/src/server.rs:1545-1567 | A long header with an ID of its own is never resolved by address, so that a returning Initial can create its connection. |
| RouteSystem.NewConnectionKeepsInv | tokio-ngtcp2/src/server.rs:1855-1905 | Creation keeps the invariant: the limit of 1024 and, with a non-zero SCID length, no address entries. |
| RouteSystem.ExistingKeepsInv | tokio-ngtcp2/src/server.rs:1627-1742 | Handling a datagram or a timer for a held connection keeps the invariant, whatever ngtcp2 issues, retires or reports. |
| HeldRoutes.ReceiveIsExact | tokio-ngtcp2/src/server.rs:1530-1673 | In every reachable state, a datagram for a held connection leaves that connection, while it is held, with exactly the IDs it had or was issued less the retired ones, all their lengths listed, its retired IDs remembered and every other connection's IDs that were not issued again; if it is no longer held, nothing leads to it. Any other datagram is left to the shared table. |
| HeldRoutes.TimerStepIsExact | tokio-ngtcp2/src/server.rs:2309-2337 | The same for a timer. |
| HeldRoutes.ExistingIsExact | tokio-ngtcp2/src/server.rs:1627-1673 | The same in any state in which the connection is held. |
| HeldRoutes.TimerIsExact | tokio-ngtcp2/src/server.rs:2309-2337 | The same for its turn in the timer loop. |
| HeldRoutes.IssuedIsFound | tokio-ngtcp2/src/server.rs:1654-1662 | Every long header naming an ID issued in such a call, and every short header it starts when no longer listed ID does, resolves to the connection at once. |
| HeldRoutes.HeldAfterDatagram | tokio-ngtcp2/src/server.rs:1676-1742 | For each kind of error, whether the connection is still held: kept if there is none, it can be ignored or is final already, and for a close only if the closing packet was written. |
| HeldRoutes.HeldAfterTimer | tokio-ngtcp2/src/server.rs:2309-2337 | The same for timers, which write no closing packet. |
| HeldRoutes.RemoveClosedIsExact | tokio-ngtcp2/src/server.rs:2443-2456 | Closed connections go with every ID and address that led to them, and nothing of the others does. |
| RouteSystem.RemoveAllKeepsInv | tokio-ngtcp2/src/server.rs:2443-2456 | Removing closed connections leaves no route to them. |
| RouteSystem.DropKeepsInv | tokio-ngtcp2/src/server.rs:1134-1146 | Dropping an accepted connection keeps the invariant and leaves no ID and no address in the shared table that leads to its key. |
| RouteSystem.KeyIsScid | tokio-ngtcp2/src/server.rs:1872-1905 | With a non-zero SCID length the routing key is the SCID, also after a Retry. |
| HandOff.HandOffPreservesOwner | tokio-ngtcp2/src/server.rs:2380-2435 | With prefix-free IDs and no address entries, what the server resolved to the connection is then unresolved there and resolved to it by the shared table, also if the shared table had the same ID before. |
| HandOff.LongHeaderHandOff | tokio-ngtcp2/src/server.rs:415-436 | For long headers the same holds without any condition on the IDs. |
| HandOff.ServerReleases | tokio-ngtcp2/src/server.rs:437-455 | The server's table lets go of a short header if and only if no other connection it holds has a listed ID that starts the packet. |
| HandOff.SharedClaims | tokio-ngtcp2/src/server.rs:1201-1222 | The shared table resolves it to the connection if and only if no other accepted connection has an ID there that is longer than all of the connection's own. |
| HandOff.HandOffKeepsOthers | tokio-ngtcp2/src/server.rs:2380-2435 | Datagrams of every other held connection stay with it, whatever the IDs. |
| PrefixClash.PrefixClaimsPacket | tokio-ngtcp2/src/server.rs:415-455 | For every generated SCID that is a proper prefix of a Retry's SCID, a reachable state with both connections: once the second is taken, all its packets resolve to the first. |
| Resolve.FindOwner | tokio-ngtcp2/src/server.rs:415-455 | The search from the longest length down computes the specification: an exact lookup for long headers, the longest listed match for short ones, nothing for truncated or over-long IDs. |
| Resolve.ResolvesByLongestMatch | tokio-ngtcp2/src/server.rs:437-455 | A short header resolves to a key if and only if the longest registered ID of a listed length that starts it belongs to that key. |
| RouteTable.UnresolvedHasNoPrefix | tokio-ngtcp2/src/server.rs:1552-1589 | An unresolved short header starts with no registered ID of a listed length. |
| RouteTable.ServerOwnerByAddress | tokio-ngtcp2/src/server.rs:1552-1567 | Where no ID decides, the address does in the server's table if and only if the packet carries no ID. |
| RouteTable.SharedOwnerByAddress | tokio-ngtcp2/src/server.rs:1201-1204 | In the shared table it does for every packet. |
| RouteTable.ForgetKeepsOwner | tokio-ngtcp2/src/server.rs:1266-1270 | Forgetting a connection leaves every datagram of the others with them. |
| Resolve.LongDcidExactly | tokio-ngtcp2/src/server.rs:424-436 | The ID of a long header is the bytes its sixth byte counts, if they are there and at most 20. |
| Resolve.LongResolvesExactly | tokio-ngtcp2/src/server.rs:424-436 | A long header resolves to a key if and only if that ID is registered for it. |
| TakenCids.RemembersLast | tokio-ngtcp2/src/server.rs:2461-2473 | After any insertions the queue is exactly the last 8192 accepted ones, in order and without duplicates, and the set has the same elements. |
| TakenCids.RememberKeepsConsistent | tokio-ngtcp2/src/server.rs:1275-1287 | One insertion keeps set and queue in agreement and the newest ID remembered; only the oldest is forgotten, and only at the limit. |
| TakenCids.RememberOnlyAdds | tokio-ngtcp2/src/server.rs:1275-1287 | Nothing is remembered but what was inserted. |
| TakenCids.RemembersAll | tokio-ngtcp2/src/server.rs:2461-2473 | While there is room, everything inserted is remembered and nothing is forgotten. |
| TakenCids.RememberTakenCid | tokio-ngtcp2/src/server.rs:2461-2473 | The loop that trims the queue computes that insertion. |
| ServerRoutes.RetireCids | tokio-ngtcp2/src/server.rs:1241-1248 | Retired IDs leave the table if the connection owns them and are remembered in any case. |
| ServerRoutes.AddConnectionRoutes | tokio-ngtcp2/src/server.rs:2042-2096 | The registrations in their order, including the removal of a stale original DCID after a Retry, amount to the routes of the step system. |
| ServerRoutes.SharedRoutes.Owner | tokio-ngtcp2/src/server.rs:1201-1204 | By ID, else by address for every header form. |
| ServerRoutes.SharedRoutes.RegisterConnection | tokio-ngtcp2/src/server.rs:1207-1222 | Adds the IDs with their lengths, the addresses and the queue. |
| ServerRoutes.SharedRoutes.Sync | tokio-ngtcp2/src/server.rs:959-971 | Issued IDs are added before retired ones are taken out and remembered. |
| ServerRoutes.SharedRoutes.Deliver | tokio-ngtcp2/src/server.rs:1255-1263 | Reports failure exactly for a missing or closed queue; a full queue drops the datagram and reports success. |
| ServerRoutes.SharedRoutes.Remove | tokio-ngtcp2/src/server.rs:1266-1270 | Walking both maps, it leaves no ID, address or queue of the connection, and every other connection has exactly the IDs, addresses and queue it had. |
| ServerRoutes.ForgetsOnlyExactly | tokio-ngtcp2/src/server.rs:1266-1270 | Only one table does that, and it is the one the step system uses. |
| ServerRoutes.SharedRoutes.HandOffDatagram | tokio-ngtcp2/src/server.rs:1598-1624 | Owned datagrams are queued with their owner; a closed route is removed and the datagram still counts as owned; others change nothing. |
| ServerRoutes.Server.Owner | tokio-ngtcp2/src/server.rs:1552-1567 | By ID, else by address only for short headers and zero-length DCIDs. |
| ServerRoutes.Server.HandleConnError | tokio-ngtcp2/src/server.rs:1676-1742 | Removes the connection exactly for the errors that end it, or when its closing packet cannot be written. |
| ServerRoutes.Server.HandleExistingConnection | tokio-ngtcp2/src/server.rs:1627-1673 | Synchronises the table and then deals with the error, as the step system says; unknown keys change nothing. |
| ServerRoutes.Server.HandleTimer | tokio-ngtcp2/src/server.rs:2309-2337 | The same for a timer, which removes on every error that is not ignorable or terminal. |
| ServerRoutes.Server.HandleNewConnection | tokio-ngtcp2/src/server.rs:1855-2103 | Every early return leaves the tables alone; otherwise the connection and its routes are added as the step system says. |
| ServerRoutes.Server.TakeConnection | tokio-ngtcp2/src/server.rs:2380-2435 | Exactly the connection's IDs and addresses, in any order, move to the shared table and its IDs are remembered. |
| ServerRoutes.Server.ChooseReset | tokio-ngtcp2/src/server.rs:2256-2306 | The loop over lengths picks the longest listed ID that starts the packet and has a token, and nothing if it meets a remembered one first. |
| ServerRoutes.Server.RemoveConnection | tokio-ngtcp2/src/server.rs:2490-2494 | Walking both maps, it leaves no ID or address that leads to the connection, and every other connection is held and has exactly the IDs and addresses it had. |
| AddressValidation.RetryBinding | tokio-ngtcp2/src/server.rs:1785-1928 | In every run, a connection marked as retried was created from an Initial carrying, for the same version, the token of a Retry this server sent earlier to the same address; its original DCID is that of the still earlier Initial that caused the Retry, and its SCID, key and retry_source_connection_id are that Retry's SCID, which is not empty. |
| AddressValidation.RetriedExactly | tokio-ngtcp2/src/server.rs:1785-1853 | In every run a connection is marked as retried if and only if its Initial carried a Retry token. |
| AddressValidation.NoRetryNoRetryScid | tokio-ngtcp2/src/server.rs:1916-1928 | In every run, other connections never advertise retry_source_connection_id and their original DCID is that of the Initial they were created from. |
| AddressValidation.OnlyTokenHolders | tokio-ngtcp2/src/server.rs:1785-1853 | In every run with Retry configured, each connection was created from an Initial whose token this server had made earlier for the address the Initial came from. |
| AddressValidation.AdmitsExactly | tokio-ngtcp2/src/server.rs:1785-1853 | Against the log: an Initial with a token is admitted if and only if the token was made for its address (and, for a Retry, its version and DCID) and has not expired, and is never answered with a Retry instead; one without is admitted if and only if Retry is not configured. |
| AddressValidation.UnverifiedChangesNothing | tokio-ngtcp2/src/server.rs:1840-1853 | A token that does not verify gets its client nothing: no connection and no Retry. |
| AddressValidation.ConnectsExactly | tokio-ngtcp2/src/server.rs:1750-2103 | An Initial gets a connection if and only if it is admitted, nothing refuses it and ngtcp2 takes or discards its packet. |
| AddressValidation.RetriesExactly | tokio-ngtcp2/src/server.rs:1785-2040 | It gets a Retry if and only if it has no token and Retry is configured, or it is admitted and ngtcp2 asks for one. |
| AddressValidation.RetryCauses | tokio-ngtcp2/src/server.rs:2116-2168 | In every run, each Retry answers an Initial from its address that had no token or was admitted. |
| AddressValidation.NewTokenChain | tokio-ngtcp2/src/server.rs:2565-2588 | In every run, each NEW_TOKEN was passed on, connection by connection and always from the same address, from one whose connection was created by an Initial that brought a Retry token back from that address, or on which that address passed path validation before. |
| AddressValidation.NewTokenProven | tokio-ngtcp2/src/server.rs:2525-2588 | One step of it: the connection of each NEW_TOKEN is validated, and the token's address was proven on that very connection earlier, by the token its first Initial brought from there or by path validation. |
| AddressValidation.NewTokenRooted | tokio-ngtcp2/src/server.rs:1958-1965 | The induction behind it, back through the log from token to token. |
| AddressValidation.OneSubmission | tokio-ngtcp2/src/server.rs:2525-2588 | In every run at most one NEW_TOKEN is submitted successfully on a connection. |
| AddressValidation.HandshakeMakesToken | tokio-ngtcp2/src/server.rs:2525-2588 | In every run, a completed handshake makes a NEW_TOKEN if and only if the connection is validated, tokens are configured, one can be made and none was submitted before; it is for the address last proven on the connection. |
| AddressValidation.SecondHandshake | tokio-ngtcp2/src/server.rs:2565-2588 | A second one makes another if and only if ngtcp2 did not take the first. |
| AddressValidation.PathValidationIsExact | tokio-ngtcp2/src/server.rs:2525-2560 | A path validation moves the address of the connection if and only if it succeeded. |
| AddressValidation.DrainSplits | tokio-ngtcp2/src/server.rs:2525-2560 | Events take effect in their order. |
| AddressValidation.RetryScidLength | tokio-ngtcp2/src/server.rs:2116-2168 | Every Retry token of a log that is accounted for has an SCID of the configured length but at least 8 bytes, as the routing relies on. |
| ServerRuns.RunProjects | tokio-ngtcp2/src/server.rs:1482-1527 | Every run of the whole server is a run of the routing system and a run of the validation model, so that all theorems of both hold of it together. |
| ServerRuns.RunKeepsLogged | tokio-ngtcp2/src/server.rs:2042-2096 | In every run, every connection held or handed over is one the log has under its key. |
| ServerRuns.RoutedAreTokenHolders | tokio-ngtcp2/src/server.rs:1785-1853 | In every run with Retry configured, each connection the server holds or has handed over was created from an Initial whose token the same run made earlier for the address it came from. |
| ServerRuns.ResolvedAreTokenHolders | tokio-ngtcp2/src/server.rs:1552-1567 | So every datagram the server's table resolves goes to a connection whose address was validated. |
| AddressValidation.RetryRoundTrip | tokio-ngtcp2/src/server.rs:1785-1928 | Whatever happens in between, a client that answers a Retry in time, from the same address and to the Retry's SCID, gets a connection with the DCID it first used as original DCID and the Retry's SCID as SCID, key and retry_source_connection_id, unless a limit or a C call refuses it. |
| AddressValidation.NewTokenRoundTrip | tokio-ngtcp2/src/server.rs:1785-1853 | Likewise, a client that returns in time with a NEW_TOKEN for its address is admitted as validated, without a Retry and without retry_source_connection_id. |
| AddressValidation.RunExtendsLog | tokio-ngtcp2/src/server.rs:1750-2103 | No run takes back a token or forgets a connection it made. |
| AddressValidation.CreationIsJustified | tokio-ngtcp2/src/server.rs:1785-1928 | A creation the token checks allow is accounted for by earlier log entries. |
| AddressValidation.ArriveKeepsInv | tokio-ngtcp2/src/server.rs:1750-2103 | Any Initial from any address, with any outcome of the C calls, leaves a log in which every Retry, connection and token is accounted for. |
| AddressValidation.DrainKeepsInv | tokio-ngtcp2/src/server.rs:2525-2560 | So does any sequence of connection events. |
| ConnectionEvents.ServerConnection.SubmitNewToken | tokio-ngtcp2/src/server.rs:2565-2588 | Makes a token only for a validated address, and none after one was submitted; a token ngtcp2 refuses does not count as submitted. |
| ConnectionEvents.ServerConnection.DrainEvents | tokio-ngtcp2/src/server.rs:2525-2560 | The loop over events, in order, gives the state and log of the run model. |
| ResetLimiter.GrantBound | tokio-ngtcp2/src/server.rs:462-510 | For every call sequence up to clock T, grants·(10⁹−32) ≤ 100·(10⁹−32) + 33·T, and the refill time never passes the clock. |
| ResetLimiter.CreditBound | tokio-ngtcp2/src/server.rs:491-509 | As long as elapsed·33 does not saturate, rounding loses no credit over a run: all but one token and 31 rounding units of the elapsed time has been credited. |
| ResetLimiter.RefusedExactly | tokio-ngtcp2/src/server.rs:481-488 | A reset is refused if and only if the bucket is empty and less than a thirty-third of a second has passed since the last refill. |
| ResetLimiter.LeftExactly | tokio-ngtcp2/src/server.rs:481-509 | What is left is what there was and one for each thirty-third of a second, at most 100, less the one taken. |
| ResetLimiter.BurstIsGranted | tokio-ngtcp2/src/server.rs:481-488 | Over any run, no call is refused as long as there are tokens, whatever the clock does. |
| ResetLimiter.RefillAccounts | tokio-ngtcp2/src/server.rs:491-509 | A refill moves the refill time by what its credit is worth, rounded down by less than 1 ns and not past the clock; no operation but elapsed·33 saturates. |
| ResetLimiter.RefillLag | tokio-ngtcp2/src/server.rs:491-509 | After a refill 33·lag ≤ 10⁹+31. |
| ResetLimiter.RunInvariant | tokio-ngtcp2/src/server.rs:481-509 | Over any run, grants plus remaining tokens are at most the burst plus the credit, and the credit is worth the refill time up to 32 parts in 10⁹. |
| ResetLimiter.ExactRateExceeded | tokio-ngtcp2/src/server.rs:481-509 | Calls at 0 and 121 212 121 ns with more grants than the exact rate allows. |
| ResetLimiter.ExactRateWindow | tokio-ngtcp2/src/server.rs:481-509 | All runs up to a clock keep the exact rate if and only if the clock is below 121 212 121 ns. |
| ResetLimiter.StatelessResetLimiter.TryAcquire | tokio-ngtcp2/src/server.rs:481-488 | The method computes the step of that run model. |
| ResetLimiter.StatelessResetLimiter.Refill | tokio-ngtcp2/src/server.rs:491-509 | The method computes the refill of that model. |
| Packet.SplitDecomposes | ngtcp2/src/packet.rs:23-90 | For every sequence of well-formed version 1 Initial, 0-RTT and Handshake packets, with varints of any length, optionally ended by a Short header, Retry or Version Negotiation packet, splitting the concatenation gives exactly that sequence. |
| Packet.SplitCovers | ngtcp2/src/packet.rs:23-39 | For any bytes the pieces concatenate to the input. |
| Packet.SplitNonEmpty | ngtcp2/src/packet.rs:23-39 | For any bytes no piece is empty. |
| Packet.SplitPieces | ngtcp2/src/packet.rs:23-39 | For any bytes, splitting a returned piece again gives just that piece. |
| Packet.SplitsExactly | ngtcp2/src/packet.rs:23-90 | For any bytes, the datagram is cut if and only if it begins with a well-formed Initial, 0-RTT or Handshake packet and goes on after it; any other stays one piece. |
| Packet.TruncatedIsOnePiece | ngtcp2/src/packet.rs:23-90 | A well-formed packet cut short anywhere, in its header, token, Length or payload, comes back as it is. |
| Packet.CutIsPacket | ngtcp2/src/packet.rs:44-90 | What is cut off is a well-formed packet, bit for bit. |
| Packet.SplitPackets | ngtcp2/src/packet.rs:23-39 | The loop terminates and computes the split these theorems are about. |
| Packet.PacketLenOfSerialized | ngtcp2/src/packet.rs:44-90 | The length of a well-formed packet is found whatever follows it. |
| Packet.PacketLenOfPacket | ngtcp2/src/packet.rs:44-90 | The length found depends on no byte beyond the packet. |
| Packet.SplitOfV2 | ngtcp2/src/packet.rs:23-90 | For every sequence of well-formed version 2 packets and any packet that ends the datagram, splitting gives exactly that sequence if and only if all are 0-RTT, except that a Handshake packet may be the very last, and a Retry at the end does not read as a shorter Initial. |
| Packet.V2InitialIsCut | ngtcp2/src/packet.rs:69-77 | A version 2 Initial with an empty token, byte by byte, comes back in two pieces. |
| Packet.PacketLenOfV2 | ngtcp2/src/packet.rs:69-77 | With the type bits of version 2 the length is right if and only if the packet is 0-RTT, or Handshake and last in the datagram. |
| Packet.PacketLenOfV2Retry | ngtcp2/src/packet.rs:69-90 | A version 2 Retry is cut if and only if its body reads as a token and a payload with bytes left over. |
| Packet.SerializedKinds | ngtcp2/src/version.rs:37-62 | The type bits written for either version are the ones `long_header_type` reads as that kind. |
| Varint.DecodeEncode | ngtcp2/src/varint.rs:38-114 | For every n ≤ 2⁶²−1 and any trailing bytes, decoding the encoding gives n and its length. |
| Varint.DecodeEncodeAs | ngtcp2/src/varint.rs:87-114 | So does decoding any longer encoding, which the decoder also accepts. |
| Varint.DecodesExactly | ngtcp2/src/varint.rs:87-114 | Bytes decode if and only if there are as many as the two top bits of the first say, and exactly those are consumed. |
| Varint.DecodedValue | ngtcp2/src/varint.rs:87-114 | The value for each of the four lengths, byte by byte in network byte order. |
| Varint.EncodeTags | ngtcp2/src/varint.rs:18-70 | Each value takes the shortest of 1, 2, 4 and 8 bytes that holds it, with 0, 1, 2 and 3 in the top bits. |
| Varint.EncodeDecode | ngtcp2/src/varint.rs:38-114 | Decoding loses nothing: the bytes consumed are the encoding of the value in that many bytes. |
| Varint.Decode | ngtcp2/src/varint.rs:87-114 | For any bytes a decoded value is at most 2⁶²−1 and no more bytes than there are are consumed. |
| Varint.PrefixFree | ngtcp2/src/varint.rs:38-70 | No encoding is a proper prefix of another. |
| Varint.ReencodeNotLonger | ngtcp2/src/varint.rs:18-28 | Re-encoding a decoded value takes no more bytes than were consumed. |
| Varint.EncodeInto | ngtcp2/src/varint.rs:38-70 | The in-place encoder writes the encoding and no byte after it. |
| Varint.EncodeToVec | ngtcp2/src/varint.rs:76-81 | Appends the encoding to what is there. |
| Alpn.SelectAlpn | ngtcp2/src/crypto.rs:864-922 | For arbitrary lists: picks the server's first protocol that the client offers, at its first occurrence; refuses exactly if there is none; the selected range is in bounds and equals the server's protocol. |
| Alpn.FindInClient | ngtcp2/src/crypto.rs:880-915 | The inner loop finds the first occurrence, or there is none before the list ends or is cut short. |
| Alpn.SelectionOnEncodedLists | ngtcp2/src/crypto.rs:864-922 | On encoded lists the choice is the first server protocol in the client list, and the offset is where the encoding of its first occurrence starts. |
| Alpn.RoundTrip | ngtcp2/src/crypto.rs:491-498 | Parsing an encoded list gives back the list if and only if every protocol has at most 255 bytes. |
| Alpn.EncodeAlpn | ngtcp2/src/crypto.rs:491-498 | The loop computes the encoding, with the length byte cut to 8 bits. |
| Alpn.EntryInBounds | ngtcp2/src/crypto.rs:880-915 | Every entry read from arbitrary bytes is a range of them. |
| Alpn.EntriesExactly | ngtcp2/src/crypto.rs:880-915 | Arbitrary bytes are the encoding of the entries read from them, up to an incomplete one that is left out. |

## Left out

- The C library: packet protection, TLS, congestion control, header decoding and everything else behind the bindings. Its outcomes are free choices of the environment: what it issues, retires, accepts and reports.
- Token cryptography: tokens are ideal. One verifies only if the server made it for the same parameters and `made + timeout > now`; the version is bound to Retry tokens only.
- Sockets, select loops, sleeping, logging, qlog and certificate set-up.
- `PendingStreams`, packet writing and `ServerSockets`, which only pass data on.
- Configuration builders, transport parameter setters, statistics, error texts and address conversion, each of which copies fields from one form to another.
- The client, which delegates to the C connection.
- Dropping the `Server` while accepted connections live on, and the two public listings of its state.
- Parsing of an Initial (`accept_initial`), Version Negotiation and the close for an invalid token: whether a datagram is an acceptable Initial is a choice of the environment (the C library asks for 1200 bytes and, without a token, a DCID of 8), and what is sent does not touch the tables.
- The rate limiter is not joined to the routing steps: a reset that it stops is a `FinishReset` step like one that is sent.
- RouteSystem.HandOffKeepsDatagrams: one direction only, since the shared table falls back to the address for every header form and the server does not; the exact conditions are in HandOff.ServerReleases and HandOff.SharedClaims.
- LiveRoutes.DeliveryNeverFails: for runs that reuse no key. Generated keys are random and taken to be unused; the SCID of a Retry is not, and LiveRoutes.StepKeepsLive, LiveRoutes.ReuseBreaksDelivery and KeyReuse.DeliveryFails say what it can do.
- RouteSystem.ResetSafety: remembered IDs are those of the bounded memory, so an ID forgotten after 8192 others is not covered.
- SendStreams.PointerStability: widths are unbounded except for the saturating sum of an acknowledgement; `usize` arithmetic on buffer lengths cannot wrap before memory is exhausted.
- SendStreams.NoSharedAllocation: a `Vec` without capacity counts as an allocation of its own; capacity granted beyond the request is any amount.
- SendBuffer.InFlightStreamData.Retain: walks the retired buffers from the last to the first, where `Vec::retain` goes forwards; the result is the same.
- SendBuffer.InFlightStreamData.Write: the prefix ngtcp2 takes is a parameter, and the error returns of a write, which truncate in the same way with nothing taken, are the case of no bytes reported.
- AddressValidation.OnlyTokenHolders: a token may be used more than once, as the code does not remember used ones.
- The comment above `resolve_dcid` speaks of Stateless Reset as absent, while `send_stateless_reset` implements it; the model follows the code.
