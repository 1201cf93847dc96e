# Verified models of the coturn core

This project models the parts of coturn (the TURN server in this repository) whose correctness is not
visible in any single function, and proves what they are for:

- **Hash tables and maps** (`Probing`, `KhashTheory`, `Khash`, `UrMap`, `LocalMap`, `AddrMap`). Open
  addressing with double hashing, tombstones and a rehash that moves entries inside the very arrays it
  reads from. Every probe loop ends, a miss means absence, the in-place rehash keeps exactly the same
  map, and any run of operations answers like a mathematical map. The bucketed maps for port numbers
  and for addresses are proved in the same way.
- **Permissions and channels** (`Addresses`, `AddrHash`, `Slots`, `AllocTheory`, `Allocation`, `TurnServer`).
  The channel table, the permission table and each permission's port map stay in agreement through
  ChannelBind, CreatePermission, both timeouts and the end of the allocation (sections 8, 9 and 11 of
  RFC 5766). Channel numbers and peers are in bijection, and the replies 500 and the branches the source
  itself calls strange cannot be reached.
- **The STUN codec** (`StunType`, `StunWire`, `StunBuild`, `StunIntegrity`, `StunFingerprint`,
  `StunAddr`, `StunStream`, `CrcTheory`, `Crc`). What the library builds it reads back; a signed message
  still verifies after it was extended, and verifying leaves the buffer as it was; the fingerprint check
  passes; the table-driven CRC is the bit-serial one; address attributes survive masking and address
  mapping; a stream is cut into the messages that went in.
- **The telnet tracker** (`TelnetMachine`, `Telnet`, `TelnetRoundTrip`, `TelnetDialogue`,
  `TelnetNegotiation`, `TelnetProtocol`, `TelnetWire`, `TelnetHandler`). The receiver that batches data and calls itself refines a machine
  that takes one byte at a time, so how the input is cut into buffers does not matter; whatever one tracker
  sends, another receives. In every run of two trackers, with requests about any options started and arriving in
  any order, the requests under way and the ends that wait for an answer are conserved, negotiation never
  loops, and the ends agree whenever nothing is under way, but for one branch of the source that drops a
  request. These runs of requests are what the bytes between two receivers amount to, cut in any way.
- **Reserved sockets** (`RtcpMap`, `RtcpTable`). The map of reservations stands on the hash table, and in
  every interleaving of put, get and the two-phase sweep each socket has exactly one fate.
- **Base64** (`Base64`). Decoding undoes encoding, and encoding undoes decoding for exactly the texts an
  encoder writes.

Objects that the source updates in place are classes or arrays; loops are loops. Each of them is proved
against a function or an invariant, and the laws are proved about those. Several invariants are
quantifiers over a small named predicate with that predicate as the only trigger, which keeps them out
of the verifier's way until a proof names an instance. Where a proof must not look into a definition (the step of
the telnet machine, the polynomial of the CRC), it is done for any function with the same laws.

Properties that turned out to be false of the code come with their exact condition:

- `lm_map_put` makes a second entry for a held key exactly when the key is in an extra slot or a free
  slot comes before it (`LocalMap.Put`); four insertions into an empty map lead there
  (`LocalMap.ExtraSlotShadows`).
- The option queue of a telnet tracker forgets everything when a new option makes its one-byte length
  wrap, and is a map otherwise (`TelnetMachine.SetThenGet`); the 64th option does it
  (`TelnetNegotiation.SixtyFourthForgets`).
- Two trackers agree about an option whenever no request about it is under way, exactly when it has not
  happened that WONT arrived at an asker that had changed its mind about turning the option off
  (libtelnet.c:409-412): it then waits for an answer to a request it does not send, for good
  (`TelnetProtocol.RunAgrees`, `TelnetProtocol.MindLost`). This is for trackers with room in their queues.
- The handler of a tracker knows which ends are on after every answer, exactly when the answer is not WONT
  to an asker that has changed its mind or DONT to an end that is being turned off (libtelnet.c:409-412,
  463-471), where what is reported is not what is recorded (`TelnetHandler.AnswerIsReported`,
  `TelnetHandler.WontMisreported`).
- With queues that may forget and with proxies, two trackers that agree about an option agree again after a
  request that one of them starts, exactly when it does not happen that one end records the change and the
  other, a proxy or a queue that forgets, does not (`TelnetNegotiation.BegunAgrees`,
  `TelnetNegotiation.AnswererAlone`).
- A stray request, which neither side has on record, leads to at most four more requests, and to more than
  three exactly when both sides would turn the option on and both queues forget it
  (`TelnetNegotiation.RequestSettles`, `TelnetNegotiation.StrayFourMore`). It leads back to agreement
  exactly when neither a proxy nor a queue that forgets leaves one side alone with the change
  (`TelnetNegotiation.StrayAgrees`, `TelnetNegotiation.StrayDisagrees`).
- A telnet subnegotiation is received exactly when it is no longer than 16384 bytes
  (`TelnetRoundTrip.SubRoundTripExact`).
- `stun_get_message_len_str` is wrong for exactly the messages of 65536 bytes or more, because its sum
  is 16 bits wide (`StunStream.CommandCutExact`, `StunStream.LongCommandCut`).
- It cuts a channel message wrong exactly when the HTTP test takes the stream there for a request of
  another length (`StunStream.CutFrame`, `StunStream.CutStream`, `StunStream.ChannelCutAsHttp`), which may
  come about only when more bytes arrive (`StunStream.CutStable`, `StunStream.ChannelCutChanges`).
- `stun_attr_add_fingerprint_str` ignores a refusal and then writes over the last four bytes
  (`StunIntegrity.AddFingerprint`, `StunIntegrity.StampFull`).
- An address survives the public/private map exactly when its first entry has a public address that no
  earlier entry has, or it has no entry and is nobody's public address (`StunAddr.MapRoundTrip`,
  `StunAddr.SharedPublicShadows`).
- A sweep of the reserved sockets leaves an expired one behind exactly when more than 1024 have expired
  (`RtcpMap.Swept`, `RtcpMap.OneLeftBehind`).
- Encoding a decoded text gives it back exactly when it has no foreign symbol, no padding before its end
  and no spare bits set (`Base64.EncodeDecode`, `Base64.SpareBitsLost`).
- A token that is put while it is held loses a socket, and one that is put while the sweep is about to
  delete it gets the new socket closed early; with any other token neither happens
  (`RtcpMap.UsedTokenFails`, `RtcpMap.UnusedRunConserves`).

## Model

| member | source | states |
|---|---|---|
| Probing.ProbeInjective | coturn/src/server/ns_turn_khash.h:145-158 | the first n probes of a key in a table of a prime size n go to n different buckets |
| Probing.ProbeSurjective | coturn/src/server/ns_turn_khash.h:145-158 | every bucket is one of the first n probes |
| Probing.ProbeReturns | coturn/src/server/ns_turn_khash.h:151-154 | the probe walk is back at its first bucket after n steps and not before, which is the test that ends the loops |
| KhashTheory.MissIsAbsent | coturn/src/server/ns_turn_khash.h:145-158 | a search that ends at an empty bucket or after a full turn without a match means the key is not in the map |
| KhashTheory.InsertNew | coturn/src/server/ns_turn_khash.h:228-265 | filling the bucket found for an absent key, empty or tombstone, extends the map by that key alone and keeps all others reachable |
| KhashTheory.SwapDown | coturn/src/server/ns_turn_khash.h:196-203 | displacing a not yet moved entry keeps the two views of the arrays disjoint and the union of what they hold |
| KhashTheory.SidesDisjoint | coturn/src/server/ns_turn_khash.h:183-211 | during the rehash no bucket is both still to be moved and already placed |
| KhashTheory.StartMove | coturn/src/server/ns_turn_khash.h:183-186 | at the start of a rehash everything is in the view of the old flags |
| KhashTheory.EndMove | coturn/src/server/ns_turn_khash.h:220-226 | when the old view is empty, the new flags represent the same map |
| KhashTheory.EmptyBucket | coturn/src/server/ns_turn_khash.h:228-244 | fewer occupied buckets than buckets means some bucket is empty |
| Khash.Displace | coturn/src/server/ns_turn_khash.h:196-203 | one displacement puts the carried entry down, picks the other up and loses neither |
| Khash.Settle | coturn/src/server/ns_turn_khash.h:187-209 | a chain of displacements ends, and every entry is then in exactly one view |
| Khash.MoveAll | coturn/src/server/ns_turn_khash.h:183-211 | the in-place rehash represents exactly the same map with no tombstones and as many occupied buckets as keys |
| Khash.PickSize | coturn/src/server/ns_turn_khash.h:163-168 | the size chosen is the least listed one above the wanted size |
| Khash.Table.constructor | coturn/src/server/ns_turn_khash.h:127-129 | a new table holds the empty map |
| Khash.Table.Get | coturn/src/server/ns_turn_khash.h:145-158 | returns the live bucket of a held key, and the number of buckets exactly for an absent key |
| Khash.Table.Resize | coturn/src/server/ns_turn_khash.h:159-227 | keeps the map; either refuses and changes nothing, or has the new size, no tombstones and as many occupied as live buckets |
| Khash.Table.Put | coturn/src/server/ns_turn_khash.h:228-265 | answers 0 and keeps the map for a held key, and 1 or 2 with the map extended by the key alone otherwise, through rehash and tombstone reuse |
| Khash.Table.Del | coturn/src/server/ns_turn_khash.h:266-272 | deleting a live bucket removes its key alone; deleting any other changes nothing |
| Khash.Table.Replace | coturn/src/server/ns_turn_maps.c:83-95 | a key that is deleted and put again has the new value, and all others are kept |
| Khash.Table.Foreach | coturn/src/server/ns_turn_maps.c:189-202 | visits only entries of the map, none twice, and all of them unless the callback stops it |
| UrMap.UrMap.Put | coturn/src/server/ns_turn_maps.c:75-98 | the map holds the new value under the key and is otherwise the same; a valid map never answers -1 |
| UrMap.UrMap.Get | coturn/src/server/ns_turn_maps.c:105-119 | answers 1 and the value exactly for held keys |
| UrMap.UrMap.Del | coturn/src/server/ns_turn_maps.c:126-143 | removes the key alone, hands its value to the callback and says whether it was held |
| UrMap.UrMap.Size | coturn/src/server/ns_turn_maps.c:181-187 | the number of keys held |
| UrMap.UrMap.Foreach | coturn/src/server/ns_turn_maps.c:189-202 | every entry once unless the callback stops |
| UrMap.Run | coturn/src/server/ns_turn_maps.c:75-187 | any sequence of put, get, del and size on a new map, however long, is answered as a mathematical map answers it, while no put finds more than 805306369 keys |
| LocalMap.Get | coturn/src/server/ns_turn_maps.c:333-370 | answers the value held under the key |
| LocalMap.Put | coturn/src/server/ns_turn_maps.c:252-325 | stores an absent key alone, keeps a held one, and breaks the one-entry-per-key rule exactly when the key is held in an extra slot or behind a free one |
| LocalMap.ExtraSlotShadows | coturn/src/server/ns_turn_maps.c:285-325 | after the keys 1, 9, 17 and 25 are put into an empty map, putting 25 again holds it twice and a lookup still gives the old value |
| LocalMap.Del | coturn/src/server/ns_turn_maps.c:377-420 | removes the key alone and says whether it was held |
| LocalMap.Entries | coturn/src/server/ns_turn_maps.c:504-542 | the walk visits exactly the held pairs, each once |
| AddrMap.WriteSlot | coturn/src/server/ns_turn_maps.c:597-630 | writing a slot changes the value of its key and of no other address |
| AddrMap.Map.Put | coturn/src/server/ns_turn_maps.c:826-843 | the map holds the value under the address, putting 0 removes it, and a list grows only when it has no hole |
| AddrMap.Map.Get | coturn/src/server/ns_turn_maps.c:850-866 | finds exactly the addresses held, with their values |
| AddrMap.Map.Del | coturn/src/server/ns_turn_maps.c:873-887 | removes the address alone and says whether it was held |
| AddrMap.Map.NumElements | coturn/src/server/ns_turn_maps.c:908-923 | counts the live slots, which is the size of the map |
| AddrMap.Run | coturn/src/server/ns_turn_maps.c:797-923 | with the hash of the source, any run over IPv4 and IPv6 addresses is answered as by a finite map of non-zero values |
| AddrHash.NoPortRespects | coturn/src/client/ns_turn_ioaddr.c:116-130 | addresses that are equal up to the port have the same bucket of a permission table, and every bucket is in range |
| AllocTheory.BindingsBijective | coturn/src/server/ns_turn_server.c:2663-2684 | in every state the invariant allows, two bindings have the same number exactly when they have the same peer |
| AllocTheory.BoundPeersPermitted | coturn/src/server/ns_turn_allocation.c:318-337 | every bound peer has a live permission |
| AllocTheory.BindKeeps | coturn/src/server/ns_turn_allocation.c:318-337 | entering a channel into the channel table and the port map of its permission keeps the agreement of the three structures |
| AllocTheory.UnbindKeeps | coturn/src/server/ns_turn_allocation.c:297-316 | taking a channel out of both keeps the agreement |
| AllocTheory.CleanPermKeeps | coturn/src/server/ns_turn_allocation.c:171-190 | freeing a permission after its channels keeps the agreement |
| Allocation.Allocation.constructor | coturn/src/server/ns_turn_allocation.c:41-48 | a new allocation binds and permits nothing |
| Allocation.Allocation.GetPermission | coturn/src/server/ns_turn_allocation.c:236-267 | finds the live permission with the IP address, or there is none |
| Allocation.Allocation.AddPermission | coturn/src/server/ns_turn_allocation.c:386-449 | one more permitted IP address, nothing else permitted or forbidden |
| Allocation.Allocation.GetChannel | coturn/src/server/ns_turn_allocation.c:451-498 | finds the live channel with the number, or there is none |
| Allocation.Allocation.GetTurnChannel | coturn/src/server/ns_turn_allocation.c:366-379 | finds the channel a permission owns for the port, or it owns none |
| Allocation.Allocation.GetChannelByPeer | coturn/src/server/ns_turn_allocation.c:343-349 | finds the live channel bound to the peer, or there is none |
| Allocation.Allocation.NewChannel | coturn/src/server/ns_turn_allocation.c:318-337 | for a free number and an unbound peer, adds exactly that binding and at most that permission, owned by a live permission with the same IP address |
| Allocation.Allocation.ChannelDelete | coturn/src/server/ns_turn_allocation.c:297-316 | removes the binding of that channel alone, keeps all permissions and reports nothing strange |
| Allocation.Allocation.PermissionClean | coturn/src/server/ns_turn_allocation.c:171-190 | removes the permission with every binding to its IP address and nothing else |
| Allocation.Allocation.Clear | coturn/src/server/ns_turn_allocation.c:50-87 | leaves no binding and no permission |
| TurnServer.UpdatePermissionLifetime | coturn/src/server/ns_turn_server.c:881-909 | restarts one permission's timer and expiry and touches nothing else |
| TurnServer.UpdateChannelLifetime | coturn/src/server/ns_turn_server.c:911-940 | restarts the timers and expiries of a channel and its owner and touches nothing else |
| TurnServer.ReadBindRequest | coturn/src/server/ns_turn_server.c:2594-2643 | the loop over the attributes that stops at the first error is the fold over all of them |
| TurnServer.ScanBindMeaning | coturn/src/server/ns_turn_server.c:2594-2643 | the request passes exactly when no attribute is unknown, is a zero number or names a peer without a port or of a family without a relay socket, and there is at most one channel number; the number is the only one and the peer the last one |
| TurnServer.FirstBadReply | coturn/src/server/ns_turn_server.c:2594-2650 | of a request with bad attributes the first one decides the reply: 420 for an unknown one, 443 for a peer with a port but of the wrong family, 400 otherwise |
| TurnServer.HandleChannelBind | coturn/src/server/ns_turn_server.c:2577-2750 | succeeds exactly for a well-formed request that renews a binding or binds a free number to a free permitted peer; adds exactly that binding and permission with running timers, keeps all others; a refusal changes nothing and has the code of the first bad attribute, else 400 for a malformed request or a pair that is taken, else 403; never 500 |
| TurnServer.UpdatePermission | coturn/src/server/ns_turn_server.c:3087-3113 | after it exactly the IP address is permitted in addition; its timer runs for the permission lifetime and no channel has changed, unless a channel is bound to the very address, which is then renewed together with the permission and nothing else |
| TurnServer.ScanPermMeaning | coturn/src/server/ns_turn_server.c:3130-3171 | the request passes exactly when no attribute is unknown and no listed peer is forbidden or of a family without a relay socket (that of IPv6 for an IPv6 peer, of IPv4 for all others), and then has found a peer exactly when one is listed |
| TurnServer.FirstBlockReply | coturn/src/server/ns_turn_server.c:3130-3171 | of a request with attributes that block the first one decides the reply: 420 for an unknown one, 443 for a peer of the wrong family, 403 for a forbidden one |
| TurnServer.HandleCreatePermission | coturn/src/server/ns_turn_server.c:3115-3239 | all or nothing: a refused request changes no permission and has the code of the first attribute that blocks, or 400 when there is no peer; an accepted one leaves exactly the listed decodable peers permitted in addition, each with a restarted timer |
| TurnServer.ChannelForPeer | coturn/src/server/ns_turn_server.c:4912-4918 | data from a peer is forwarded exactly when it is permitted or the server relays everything, with the number bound to that very peer or 0 when none is |
| TurnServer.PermissionExpired | coturn/src/server/ns_turn_server.c:852-877 | a permission timer that fires removes that permission alone, and none of the complaints of the handler about it is logged |
| TurnServer.Handle | coturn/src/server/ns_turn_server.c:840-940 | each event has its effect: a request that of its handler, a timer that fires on a live entry the end of that entry alone, any other timer none; the invariant is kept |
| TurnServer.Run | coturn/src/server/ns_turn_server.c:840-940 | with the hash of the source, every run of requests and timeouts has the effects of its events one after another from an empty allocation; at its end numbers and peers are in bijection, bound peers are permitted, no reply was 500 and nothing strange was met |
| StunType.TypeRoundTrip | coturn/src/client/ns_turn_msg.c:409-427 | the two type bytes give back the method and exactly the class they were made from |
| StunType.TypeBits | coturn/src/client/ns_turn_msg.c:409-427 | the method lies in the bits 0-3, 5-7 and 9-13 of the type and the class in the bits 4 and 8, as section 5 of RFC 8489 has it |
| StunType.BindingTypes | coturn/src/client/ns_turn_msg.c:409-427 | the types of a binding are 0x0001, 0x0011, 0x0101 and 0x0111 |
| StunWire.MessageLen | coturn/src/client/ns_turn_msg.c:387-399 | -1, or a length between the header's and the buffer's |
| StunWire.MessageLenMeans | coturn/src/client/ns_turn_msg.c:387-399 | it is the header and what the bytes 2 and 3 declare, or -1 exactly when the buffer is shorter than that |
| StunWire.CommandMeans | coturn/src/client/ns_turn_msg.c:435-453 | bytes are a message exactly when the first two bits are zero, the cookie 2112A442 is in its place and the declared length, a multiple of four, is that of what follows the header |
| StunWire.First | coturn/src/client/ns_turn_msg.c:1411-1420 | refers to the bytes behind the header exactly when a whole attribute lies there |
| StunWire.Next | coturn/src/client/ns_turn_msg.c:1422-1439 | refers to the bytes behind the padded attribute exactly when a whole attribute lies there, inside the declared message |
| StunWire.ScanFrom | coturn/src/client/ns_turn_msg.c:1389-1439 | on any bytes the walk ends, every attribute it meets lies inside the declared message, and there are at most a quarter as many as bytes |
| StunWire.FindByType | coturn/src/client/ns_turn_msg.c:1376-1387 | -1 exactly when a scan gives no attribute of the type; otherwise the first one that it gives |
| StunWire.ScanExact | coturn/src/client/ns_turn_msg.c:1389-1439 | scanning a message gives exactly its attributes in order, whatever the padding |
| StunBuild.AddAttribute | coturn/src/client/ns_turn_msg.c:1441-1468 | refuses exactly at the largest size and then changes nothing; otherwise writes the attribute at the end and the new length, and no other byte |
| StunBuild.AddHolds | coturn/src/client/ns_turn_msg.c:1441-1468 | a message with an attribute added has its old attributes and then that one |
| StunBuild.InitCommand | coturn/src/client/ns_turn_msg.c:625-637 | a message with the type, the cookie, the transaction id and no attribute |
| StunBuild.SampleRequest | coturn/src/client/ns_turn_msg.c:625-637 | a binding request with SOFTWARE of three bytes, byte by byte |
| StunBuild.BuiltReadsBack | coturn/src/client/ns_turn_msg.c:435-453 | a built message is accepted, gives back method, class and transaction id, and scans to the attributes added |
| StunBuild.Build | coturn/src/client/ns_turn_msg.c:630-637 | starting a message and adding a list of attributes in a buffer gives a message that reads back as that list, all of it exactly when it fits |
| StunIntegrity.AddIntegrity | coturn/src/client/ns_turn_msg.c:1829-1861 | appends the hash of everything before it, taken with the new length in place, or refuses exactly at the largest size |
| StunIntegrity.CheckIntegrity | coturn/src/client/ns_turn_msg.c:1910-1977 | gives the verdict that VerdictMeans characterises and leaves every byte of the buffer as it was |
| StunIntegrity.VerdictMeans | coturn/src/client/ns_turn_msg.c:1910-1977 | on any bytes the check fails exactly when a scan gives no integrity attribute or the first one has another size, and is right exactly when that one is the hash of what comes before it with its end as the declared length |
| StunIntegrity.ScanLies | coturn/src/client/ns_turn_msg.c:1389-1439 | on any bytes the attributes of a scan lie one behind the other with type, length and value in place, and behind the last one there is no other |
| StunIntegrity.ShaSizes | coturn/src/client/ns_turn_msg.c:1923-1945 | the four sizes of an integrity attribute are 160, 256, 384 and 512 bits |
| StunIntegrity.SignedVerifies | coturn/src/client/ns_turn_msg.c:1910-1977 | a message signed without an earlier integrity attribute and then extended by any attributes still verifies |
| StunIntegrity.AddFingerprint | coturn/src/client/ns_turn_msg.c:1651-1658 | appends the fingerprint of everything before it; at the largest size overwrites the last four bytes instead |
| StunIntegrity.StampFull | coturn/src/client/ns_turn_msg.c:1651-1658 | a message built with one attribute of 65480 bytes gets no fingerprint and has the last four bytes of that attribute replaced |
| StunIntegrity.FullCheck | coturn/src/client/ns_turn_msg.c:476-498 | accepts exactly a well-formed message whose first fingerprint matches, or without one a binding or a check that does not insist |
| StunIntegrity.FullMeans | coturn/src/client/ns_turn_msg.c:476-498 | the same over the attributes of a scan, on any bytes |
| StunIntegrity.FingerprintPasses | coturn/src/client/ns_turn_msg.c:476-498 | a message whose only fingerprint is at its end and matches passes the full check |
| StunIntegrity.SentIsAccepted | coturn/src/client/ns_turn_msg.c:1829-1861 | built, signed, extended and stamped: the full check passes, the integrity verifies and the scan gives what went in |
| StunIntegrity.Send | coturn/src/client/ns_turn_msg.c:1651-1658 | the same in a buffer, which succeeds exactly when everything fits |
| StunFingerprint.SendWithCrc | coturn/src/client/ns_turn_msg.c:1651-1658 | a message that is built, signed, extended and stamped with its CRC passes the full check that computes the CRC |
| StunAddr.FieldRoundTrip | coturn/src/client/ns_turn_msg_addr.c:35-180 | decoding an encoded address gives it back for every address, transaction id and kind |
| StunAddr.FieldExact | coturn/src/client/ns_turn_msg_addr.c:109-180 | every field that is decoded is the encoding of its address, so no other field gives it |
| StunAddr.XorIsExclusive | coturn/src/client/ns_turn_msg_addr.c:48-54 | a bit of the masked value is set exactly when the bits of value and mask differ |
| StunAddr.MaskedBit | coturn/src/client/ns_turn_msg_addr.c:35-107 | a byte of a masked field differs from the plain one in exactly the bits of the cookie, and of the transaction id behind it |
| StunAddr.UnspecifiedField | coturn/src/client/ns_turn_msg_addr.c:39-54 | an address of no family is received as the IPv4 address 0.0.0.0 with port 0 |
| StunAddr.SampleField | coturn/src/client/ns_turn_msg_addr.c:35-107 | the address 192.0.2.1:32853 of section 2.2 of RFC 5769 is 0001A147E112A643 masked and 00018055C0000201 plain |
| StunAddr.EncodeAddr | coturn/src/client/ns_turn_msg_addr.c:35-107 | the byte loops fill the field with the encoding that FieldRoundTrip, MaskedBit and SampleField characterise |
| StunAddr.DecodeAddr | coturn/src/client/ns_turn_msg_addr.c:109-180 | the byte loops read the address, and refuse every other field, which by FieldExact is every field that no address encodes to |
| StunAddr.AddAddr | coturn/src/client/ns_turn_msg.c:1470-1498 | appends the encoded public address, masked with the message's own transaction id, exactly when it fits |
| StunAddr.MaskedKinds | coturn/src/client/ns_turn_msg.c:1470-1498 | the attributes 0x0020, 0x0012 and 0x0016 are masked and the four plain ones are not |
| StunAddr.MapToPublic | coturn/src/client/ns_turn_ioaddr.c:535-546 | the loop finds the first mapping by private address and keeps the port |
| StunAddr.MapToPrivate | coturn/src/client/ns_turn_ioaddr.c:522-533 | the loop finds the first mapping by public address and keeps the port |
| StunAddr.MapRoundTrip | coturn/src/client/ns_turn_ioaddr.c:522-546 | going to the public address and back gives an equal address exactly when its first entry has a public address that no earlier entry has, or it has no entry and is nobody's public address |
| StunAddr.CheckedTableRoundTrips | coturn/src/client/ns_turn_ioaddr.c:522-546 | in a table of different public addresses every mapped address, and every address that is nobody's public one, comes back |
| StunAddr.SharedPublicShadows | coturn/src/client/ns_turn_ioaddr.c:522-546 | of two private addresses behind one public address the second comes back as the first |
| StunAddr.GetFirstAddr | coturn/src/client/ns_turn_msg.c:1541-1555 | the address in the first attribute, in the order of a scan, that has the type and holds one; none exactly when no attribute does |
| StunAddr.AnswersMeans | coturn/src/client/ns_turn_msg.c:1342-1364 | the attributes that may hold an address are those of eleven types |
| StunAddr.DefaultStandsIn | coturn/src/client/ns_turn_msg.c:1530-1536 | an unspecified address is read as the given default with its own port, and as it is without one |
| StunAddr.AddressReadsBack | coturn/src/client/ns_turn_msg.c:1470-1555 | an address put into a message is read back as an equal one, unless an entry of the map hides it or a default really replaces it |
| StunStream.FirstCut | coturn/src/client/ns_turn_msg.c:929-981 | a cut never reaches past the bytes there are |
| StunStream.FindStr | coturn/src/client/ns_turn_msg.c:861-895 | the two loops find the first place of the needle, with or without regard to case, or there is none |
| StunStream.HeadEndMeans | coturn/src/client/ns_turn_msg.c:897-910 | the test finds the blank line behind the first complete request line, or there is none |
| StunStream.RequestLength | coturn/src/client/ns_turn_msg.c:897-923 | the length of a request is that of its head and of the body that the first content-length header declares, which counts for nothing from 0x0FFFFFFF on |
| StunStream.PlainRequestLength | coturn/src/client/ns_turn_msg.c:897-923 | without that header it is the length of the head |
| StunStream.RequestIsCut | coturn/src/client/ns_turn_msg.c:929-981 | a request is cut off with its body as soon as all of it is there |
| StunStream.PostIsCut | coturn/src/client/ns_turn_msg.c:929-981 | a POST with five bytes of body is cut off whole, whatever follows |
| StunStream.HttpStable | coturn/src/client/ns_turn_msg.c:897-923 | once the head of a request is complete, more bytes change its length exactly when they change the number after the content-length header |
| StunStream.CutStable | coturn/src/client/ns_turn_msg.c:929-981 | when more bytes arrive, the cut stays exactly if it is a STUN message, or the HTTP test now takes the same piece, or the HTTP test now takes none and the piece is that of the channel test |
| StunStream.ChannelCutChanges | coturn/src/client/ns_turn_msg.c:950-975 | a channel message of 21540 bytes that holds the first line of a request is cut off whole, and with a blank line behind it 21544 bytes are |
| StunStream.CommandCutExact | coturn/src/client/ns_turn_msg.c:931-949 | a STUN message is cut off exactly when it is shorter than 65536 bytes |
| StunStream.LongCommandCut | coturn/src/client/ns_turn_msg.c:931-949 | a message of 65552 bytes is accepted and cut after 16 |
| StunStream.InitChannel | coturn/src/client/ns_turn_msg.c:794-808 | writes number and length and gives the padded length, or refuses exactly outside the allowed lengths |
| StunStream.ChannelRecognised | coturn/src/client/ns_turn_msg.c:810-856 | a padded channel message is recognised with its number and its length without padding |
| StunStream.ChannelMessageMeans | coturn/src/client/ns_turn_msg.c:810-856 | bytes are a channel message exactly when they begin with a number from 0x4000 to 0x7FFF, hold what the header declares and have beyond it padding only |
| StunStream.TruncatedChannel | coturn/src/client/ns_turn_msg.c:810-856 | a truncated channel message is not recognised |
| StunStream.PartIsNotCut | coturn/src/client/ns_turn_msg.c:929-981 | a message that has not arrived whole is not cut off, exactly when the HTTP test does not take the part for a request |
| StunStream.UnpaddedIsCut | coturn/src/client/ns_turn_msg.c:950-975 | where no padding is used, a channel message is cut off exactly when the HTTP test refuses the stream or cuts the same piece |
| StunStream.CutStream | coturn/src/client/ns_turn_msg.c:929-981 | a stream of built STUN messages and padded channel messages is cut into exactly those, with their unpadded lengths, if and only if the HTTP test spoils none of the channel messages where it stands |
| StunStream.CutFrame | coturn/src/client/ns_turn_msg.c:929-981 | a message at the head of a stream is cut off whatever follows if and only if it is a STUN message, or the HTTP test refuses the stream or cuts the same piece |
| StunStream.ChannelCutAsHttp | coturn/src/client/ns_turn_msg.c:950-975 | of a channel message of 21540 bytes that begins like a GET request 18 bytes are cut off |
| CrcTheory.UpdateIsFeed | coturn/src/client/ns_turn_msg.c:1663 | for any register with the laws of one, a table look-up for a byte is feeding its eight bits |
| Crc.TableRight | coturn/src/client/ns_turn_msg.c:1665-1754 | each of the 256 entries is what the generator in the source comment puts there |
| Crc.Crc32 | coturn/src/client/ns_turn_msg.c:1756-1761 | the CRC by table is the CRC computed bit by bit, for buffers of every length |
| Crc.ComputeStamp | coturn/src/client/ns_turn_msg.c:1655-1656 | the fingerprint value is the masked bit-serial CRC |
| Crc.SampleStamp | coturn/src/client/ns_turn_msg.c:1651-1658 | the CRC of the letter a is E8B7BE43 and its fingerprint BBE3EB0D |
| TelnetMachine.SetThenGet | coturn/src/apps/relay/libtelnet.c:272-321 | the option queue is a map from options to states, unless a new option makes its length wrap, which turns every option off |
| TelnetMachine.RunAppend | coturn/src/apps/relay/libtelnet.c:941-1108 | receiving two pieces is receiving their concatenation |
| TelnetMachine.RunChunks | coturn/src/apps/relay/libtelnet.c:941-1108 | receiving pieces one by one ends as receiving them joined, so any two ways to cut the input agree |
| Telnet.Tracker.constructor | coturn/src/apps/relay/libtelnet.c:853-867 | a new tracker is in the data state with no option known |
| Telnet.Tracker.CheckTelopt | coturn/src/apps/relay/libtelnet.c:247-269 | the loop reads the first entry of the option table |
| TelnetHandler.SupportsMeans | coturn/src/apps/relay/libtelnet.c:247-269 | an option is supported at an end exactly when the first entry for it says so of that end |
| Telnet.Tracker.SetOption | coturn/src/apps/relay/libtelnet.c:291-321 | the loop writes the first entry of the option, or appends four |
| Telnet.Tracker.Negotiate | coturn/src/apps/relay/libtelnet.c:334-479 | answers an option request as the one-byte machine does, or passes it on in proxy mode |
| Telnet.Tracker.Begin | coturn/src/apps/relay/libtelnet.c:1177-1258 | starts a request, records it or only a change of mind, or passes it on in proxy mode |
| Telnet.Tracker.BufferByte | coturn/src/apps/relay/libtelnet.c:903-939 | appends a byte, growing along the list of sizes, and refuses exactly at 16384 bytes |
| Telnet.Tracker.Process | coturn/src/apps/relay/libtelnet.c:941-1108 | the batching, recursing loop leaves the state and the log that the one-byte machine leaves, whose meaning RequestArrives, CommandArrives, EscapeRoundTrip, SubRoundTripExact and SubBreaksOff give |
| Telnet.Tracker.Recv | coturn/src/apps/relay/libtelnet.c:1111-1166 | receiving a buffer is running the one-byte machine over it |
| Telnet.Tracker.RecvAll | coturn/src/apps/relay/libtelnet.c:1111-1166 | receiving buffers one after another is running the machine over all their bytes |
| TelnetWire.RequestArrives | coturn/src/apps/relay/libtelnet.c:963-1016 | the three bytes of a request are answered as that request, with its own verb and option, and the receiver is in the data state again |
| TelnetWire.CommandArrives | coturn/src/apps/relay/libtelnet.c:995-1005 | any other command byte is reported as it is |
| TelnetWire.ProxyReports | coturn/src/apps/relay/libtelnet.c:338-355 | a proxy reports the request that arrived and answers nothing |
| TelnetWire.EchoRefused | coturn/src/apps/relay/libtelnet.c:963-1016 | a tracker without options receives FF FB 01 and sends FF FE 01 |
| TelnetWire.Codes | coturn/src/apps/relay/libtelnet.c:963-1016 | the codes of the four requests and of a subnegotiation on the wire |
| Telnet.Tracker.Send | coturn/src/apps/relay/libtelnet.c:1262-1284 | sends and does nothing else; the bytes sent are the data with every IAC doubled |
| Telnet.Tracker.SendSubnegotiation | coturn/src/apps/relay/libtelnet.c:1297-1308 | the bytes sent are the framed and escaped subnegotiation |
| TelnetRoundTrip.EscapeRoundTrip | coturn/src/apps/relay/libtelnet.c:1262-1284 | escaped data received in the data state is exactly that data, and the state is data again |
| TelnetRoundTrip.SubRoundTrip | coturn/src/apps/relay/libtelnet.c:1019-1068 | a framed subnegotiation of at most 16384 bytes is received as exactly that one |
| TelnetRoundTrip.SubRoundTripExact | coturn/src/apps/relay/libtelnet.c:903-939 | it is reported exactly when it has at most 16384 bytes |
| TelnetRoundTrip.SubBreaksOff | coturn/src/apps/relay/libtelnet.c:1069-1095 | a subnegotiation that another command breaks off is reported with a warning, and the command is received as if it stood alone |
| TelnetRoundTrip.SubIsReported | coturn/src/apps/relay/libtelnet.c:807-850 | every subnegotiation is reported itself, and those of five options also by their parser |
| TelnetDialogue.AllArrive | coturn/src/apps/relay/libtelnet.c:941-1108 | a receiver in the data state reports exactly the data and subnegotiations of a sender, in order, and is in the data state again |
| TelnetDialogue.Converse | coturn/src/apps/relay/libtelnet.c:1111-1308 | what one tracker sends in any number of calls, cut in any way and received by another, is reported there as exactly those messages |
| TelnetNegotiation.ExchangeIsTurn | coturn/src/apps/relay/libtelnet.c:272-479 | an exchange of requests through the two option queues is a step of a small machine that keeps, for each side, the state of the option and whether its queue is about to wrap |
| TelnetNegotiation.RequestSettles | coturn/src/apps/relay/libtelnet.c:334-479 | with any two queues and proxies one request under way, on record or stray, leads to at most four more, and to at most three exactly when not both queues forget an option both sides turn on |
| TelnetNegotiation.BegunSettles | coturn/src/apps/relay/libtelnet.c:1177-1258 | a request that a tracker starts, from any states and queues of the two, leads to at most three more |
| TelnetNegotiation.BegunAgrees | coturn/src/apps/relay/libtelnet.c:1177-1258 | two trackers that agree about an option agree again after a request that one of them starts, exactly when it does not happen that one end records the change and the other, a proxy or a queue that forgets, does not |
| TelnetNegotiation.AnswererAlone | coturn/src/apps/relay/libtelnet.c:1177-1258 | an asker with 63 options and a new answerer have the option off; the answerer starts WILL and ends with it on, the asker with it off |
| TelnetNegotiation.StrayArises | coturn/src/apps/relay/libtelnet.c:1177-1202 | a tracker whose queue forgets its own WILL, or a proxy, has sent a request that neither side has on record |
| TelnetNegotiation.StrayAgrees | coturn/src/apps/relay/libtelnet.c:334-479 | after a request that neither side has on record two sides that agree about an option agree again, with nothing left to say, exactly when neither a proxy nor a queue that forgets leaves one of them alone with the change |
| TelnetNegotiation.StrayRoom | coturn/src/apps/relay/libtelnet.c:334-479 | without proxies and with room in both queues such a request is settled by at most three more and leads back to agreement |
| TelnetNegotiation.StrayFourMore | coturn/src/apps/relay/libtelnet.c:334-479 | two trackers with 63 options each: such a WILL leads to four more requests |
| TelnetNegotiation.StrayDisagrees | coturn/src/apps/relay/libtelnet.c:334-479 | when only the answerer has 63 options, such a WILL finds both with the option off and leaves them in disagreement |
| TelnetNegotiation.SixtyFourthForgets | coturn/src/apps/relay/libtelnet.c:291-321 | a tracker that has turned on 63 options answers the 64th with WILL and then has it and the others off |
| TelnetProtocol.StepIsLine | coturn/src/apps/relay/libtelnet.c:334-479 | a step of two trackers with their two channels is, for each option and direction, a step of a small machine or nothing at all |
| TelnetProtocol.LineKeeps | coturn/src/apps/relay/libtelnet.c:334-479 | the two ends and the requests under way fit together until the asker drops a request, and after that they never do again |
| TelnetProtocol.RunAgrees | coturn/src/apps/relay/libtelnet.c:334-479 | in every run there is one request under way for each end that waits, one fewer once a request was dropped; whenever none is under way the ends agree exactly when none was dropped |
| TelnetProtocol.RunsDown | coturn/src/apps/relay/libtelnet.c:1177-1258 | after any run, once no more requests are started, at most seven more arrive about an option in one direction |
| TelnetProtocol.EndsAgree | coturn/src/apps/relay/libtelnet.c:334-479 | two new trackers, after any run that leaves nothing under way, agree about every option in each direction exactly when no request about it was dropped |
| TelnetProtocol.FewAgree | coturn/src/apps/relay/libtelnet.c:291-321 | the same for any run about at most 63 options, in which no queue ever wraps |
| TelnetProtocol.MindLost | coturn/src/apps/relay/libtelnet.c:409-412 | DO, then DONT and DO again before the answer: nothing is left under way, the asker waits for yes and the other end has the option off |
| TelnetWire.WireRefines | coturn/src/apps/relay/libtelnet.c:941-1108 | every run of bytes between two receivers, heard one at a time in any order, is a run of requests between two trackers |
| TelnetWire.WireAgrees | coturn/src/apps/relay/libtelnet.c:941-1108 | two new trackers told about at most 63 options, once every byte has arrived, are in the data state and agree about an option in each direction exactly when no request about it was dropped |
| TelnetWire.PlayAll | coturn/src/apps/relay/libtelnet.c:1111-1258 | two trackers that start requests and receive each other's bytes in buffers of any size end as that run of bytes does |
| TelnetHandler.AnswerIsReported | coturn/src/apps/relay/libtelnet.c:359-478 | a handler that knows which ends are on knows it after an answer exactly when the answer is none of the three that are misreported |
| TelnetHandler.WontMisreported | coturn/src/apps/relay/libtelnet.c:463-466 | a tracker turns its end on, is told to turn it off and gets DONT: its handler is told WONT and takes the end for on |
| TelnetHandler.BeginIsSilent | coturn/src/apps/relay/libtelnet.c:1177-1258 | starting a request changes neither end, so there is nothing to report |
| RtcpMap.ReservationMap.Put | coturn/src/server/ns_turn_maps_rtcp.c:194-210 | the socket is held under the token for 300 seconds; a socket held there before is lost |
| RtcpMap.ReservationMap.Get | coturn/src/server/ns_turn_maps_rtcp.c:217-233 | hands out the held socket and forgets it, or answers that there is none |
| RtcpMap.ReservationMap.Collect | coturn/src/server/ns_turn_maps_rtcp.c:70-86 | the walk collects expired tokens as far as the array holds them |
| RtcpMap.CollectedAll | coturn/src/server/ns_turn_maps_rtcp.c:70-86 | no expired token is left out while the array has room |
| RtcpMap.Swept | coturn/src/server/ns_turn_maps_rtcp.c:70-86 | when the collected tokens are gone, nothing unexpired is missing, and nothing expired is left exactly when at most 1024 had expired |
| RtcpMap.ReservationMap.Sweep | coturn/src/server/ns_turn_maps_rtcp.c:136-161 | an uninterrupted sweep keeps every unexpired entry, removes every expired one exactly when at most 1024 have expired, and every socket keeps one fate |
| RtcpMap.OneLeftBehind | coturn/src/server/ns_turn_maps_rtcp.c:70-161 | a run of 1025 puts under different tokens, 301 seconds and one whole sweep leaves the last of them in the map, expired |
| RtcpTable.TraversalIsWalk | coturn/src/server/ns_turn_maps_rtcp.c:145-150 | the traversal of the hash table meets every reserved token once and no other |
| RtcpTable.Table.Put | coturn/src/server/ns_turn_maps_rtcp.c:194-210 | a new record under the token in the hash table is the reservation held there for 300 seconds, and all others are kept |
| RtcpTable.Table.Get | coturn/src/server/ns_turn_maps_rtcp.c:217-233 | hands out the socket of the record and takes the token out of the hash table |
| RtcpTable.Table.Sweep | coturn/src/server/ns_turn_maps_rtcp.c:136-161 | a sweep over the hash table keeps every unexpired reservation, and leaves no expired one exactly when at most 1024 have expired |
| RtcpMap.RunConserves | coturn/src/server/ns_turn_maps_rtcp.c:118-233 | in every interleaving each reserved socket is exactly one of held, handed out once, closed once, lost |
| RtcpMap.UnusedRunConserves | coturn/src/server/ns_turn_maps_rtcp.c:136-233 | with tokens that are neither held nor about to be deleted, none is lost and none is closed before it expired |
| RtcpMap.UsedTokenFails | coturn/src/server/ns_turn_maps_rtcp.c:156-159 | a put under a token in use loses the held socket or gets the new one closed with all its time left |
| Base64.BuildTable | coturn/src/apps/common/apputils.c:979-988 | the loop fills the table with the value of every symbol and zero elsewhere |
| Base64.Encode | coturn/src/apps/common/apputils.c:948-977 | the loops over zero-filled groups and then over the padding write the encoding and a terminator |
| Base64.Symbols0 | coturn/src/apps/common/apputils.c:937-944 | the first sixteen symbols are A to P |
| Base64.Symbols1 | coturn/src/apps/common/apputils.c:937-944 | the next sixteen are Q to f |
| Base64.Symbols2 | coturn/src/apps/common/apputils.c:937-944 | the next sixteen are g to v |
| Base64.Symbols3 | coturn/src/apps/common/apputils.c:937-944 | the last sixteen are w to / |
| Base64.SampleEncoded | coturn/src/apps/common/apputils.c:948-977 | foobar and its beginnings are encoded as in section 10 of RFC 4648 |
| Base64.Decode | coturn/src/apps/common/apputils.c:990-1031 | the guarded loop gives the decoding, or nothing when the length is no multiple of four |
| Base64.DecodeEncode | coturn/src/apps/common/apputils.c:948-1031 | decoding what was encoded gives it back, for every byte string but the empty one |
| Base64.PaddingOfEncoded | coturn/src/apps/common/apputils.c:970-973 | the encoding ends in as many padding symbols as its last group lacks bytes, and has no other |
| Base64.EncodeDecode | coturn/src/apps/common/apputils.c:948-1031 | encoding what was decoded gives the text back exactly when it has only symbols, padding at its end and no spare bits set |
| Base64.SpareBitsLost | coturn/src/apps/common/apputils.c:990-1031 | the texts AA== and AB== decode to the same byte |

## Left out

- Sockets, timers, TLS, databases and logging: a timer is an event that may come at any moment on a live entry.
- HMAC and random numbers are open functions or parameters; key derivation, oAuth tokens and credential lookup are not modelled.
- The telnet parsers of single options (TTYPE, ENVIRON, MSSP, ZMP) are an open function that emits events and returns a flag; COMPRESS2 is switched off.
- Error codes, lifetimes on the wire and the readers of single attributes: each copies one field, and nothing spans two of them beyond the attribute walk that is modelled.
- Base64.Decode: takes a text of at least one byte, because the source looks at the last two bytes of the text before any test of its length, and takes its bytes as unsigned.
- StunStream.HttpStable: the number after the content-length header is read by the C library and is an open function of the bytes there.
- AddrHash.NoPortRespects: the words of an address are those of a machine that stores the low byte first, and an address of no family hashes as zeros.
- The mobility transfer, IPv6 address ranges, the proxy and its scheduler are not part of this model.
- Khash.Table.Put: takes as a hypothesis that the listed table sizes are prime, and bounds the table to 805306369 entries, because beyond that the sum of a bucket index and a step does not fit 32 bits.
- UrMap.Run: has the same bound on the keys held, and none on the length of the run.
- Khash.Table.Resize: models the two flag bits of a bucket as a pair of booleans, not packed sixteen to a word, and the load factor as an integer quotient, which agrees with the floating-point one for the listed sizes.
- LocalMap.Put: works on a value, not in place, because the map is part of a permission slot that is itself copied into its table.
- Allocation.Allocation.NewChannel: slots of the tables are addressed by bucket and index instead of by pointer, so reallocation of the extra slots is not modelled.
- TurnServer.HandleChannelBind: attribute decoding is the caller's; a request is a list of decoded attributes, and the relay's address family and the peer filter are parameters.
- Telnet.Tracker.Process: the log has one event for each data byte, because where runs of data are cut depends on the buffers; allocation failure is not modelled.
- StunBuild.AddAttribute: requires a buffer of the largest message size and a message whose declared length fits, which the source demands of its callers without a test.
- RtcpMap.ReservationMap.Collect: times do not wrap around, and the order of the walk over the map is a parameter; RtcpTable.TraversalIsWalk shows that the traversal of the hash table is such a walk.
- RtcpTable.Table.Put: a record has a number that is never used again, so freed memory is not modelled.
- TelnetProtocol.RunAgrees: a proxy passes requests on and negotiates nothing itself, so both trackers negotiate; what queues that forget do to a single request is in TelnetNegotiation.BegunAgrees.
