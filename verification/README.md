# perlink, modelled and verified

perlink punches holes in NATs. A relay server keeps a table of registered peers; each peer is a
provider or a consumer. The server introduces every provider to every consumer, and the introduced
peers PING and PONG each other directly. All of this travels as 112-byte records (`SrvCap`)
enciphered with XTEA. This project models the relay, the peer, their cipher, their table, the
endpoint type they compare, the stream loops and the pairing registry, and proves what they keep.

`dafny verify dfyconfig.toml` checks everything.

## How the model is organised

| file | part of the program | form |
|---|---|---|
| `Bytes.dfy` | C words: wrapping, shifts, bit operators, memory layout, htonl/htons, `sqlite3_column_int` | functions |
| `Xtea.dfy`, `Cipher.dfy` | the XTEA rounds and `ed` | in-place array methods against functions |
| `Text.dfy`, `AddressText.dfy`, `RangeMask.dfy` | decimal text, `Ip2str`, `sip2ip`, `from_string`, `compare_range_ip` | functions |
| `Endpoint.dfy` | `SADDR_46` comparison and `std::set<SADDR_46>` | functions |
| `Fingerprint.dfy`, `Record.dfy` | the text behind the key K, and `SrvCap` as 112 bytes | functions |
| `Table.dfy`, `Calendar.dfy` | `sqliter.cpp`, and the texts of SQLite's `date` and `datetime` | class over a sequence of rows in rowid order |
| `Wire.dfy` | `udp_xdea` sends | class with its buffer and an outbox |
| `Introductions.dfy`, `Server.dfy` | `_ping_pers` and the server's loop | nested loop functions, class `UServer` |
| `Peer.dfy` | the peer's loop | class `APeer` |
| `Streams.dfy`, `Pairing.dfy` | `sendall`, `receiveall`; `peers.cpp` | classes |
| `Hearing.dfy` | a record sent under one key and read under another | functions |
| `Protocol.dfy`, `Linking.dfy`, `Reaching.dfy`, `Talking.dfy` | server, peers and network together | state machine and its theorems |

Every method of a class is proved equal to a function of its old state (`Iterate` for the server's
loop body, `Turn` for the peer's), and the theorems are about those functions. The whole system is a
state machine whose steps are exactly those turns: a step delivers to one program any packet of the
history, or none, so the network may lose, duplicate, delay and reorder. The main results:

- **Why a link exists** (`Linking.LinkedBecause`): in every reachable state, every endpoint in a
  peer's set has a complete history behind it: both registrations, the round that read both rows in
  opposite roles, the introduction, the PING with the introduced keys, the PONG that was read as one.
- **When a link can exist** (`Reaching.LinkableExactly`): from a reachable state there is a
  continuation, with clocks that only go forward, that links two registrable peers of opposite roles if
  and only if the ports and the keys allow it; both ways under the conditions of both directions
  (`Reaching.LinkableBothExactly`). With the same key the ports alone decide
  (`Reaching.SameKeyLinkable`).
- **Keys and addresses agree** (`Linking.PingsAgree`): every peer has a key of its own, and still every
  PING ever sent is addressed to the registered target and enciphered under that target's key, and
  deciphers there to exactly the record sent.
- **What links are for** (`Talking.LineHeardExactly`): once ports and keys allow it in both directions, a
  line typed at one peer can be handed over at the other; a linked peer stays linked and stops
  registering (`Talking.LinkedForGood`).

## What the code does where one might expect otherwise

- `udp_sock::receive` zeroes the mask of the sender's endpoint (sock.cpp:1335), so a received
  endpoint is compared by its port alone: two peers with one port number on different addresses cannot
  both be in a peer's set, and a peer with the server's port number is taken for the server. This is
  the exact condition in `Reaching.LinkableExactly`.
- `!=` is not the negation of `==` when exactly one port is zero (sock.h:165, 188), and `<` is a strict
  weak order only where no endpoint with port zero has the address of two with different ports.
- `_peering` picks the `ipp` overload of `send`, so a PING goes under the introduced keys and not under
  the sender's (a_peer.cpp:286, udp_xdea.cpp:66-80). The answer does not: a PONG goes under the key of
  the peer that answers (a_peer.cpp:257) and is read under the other's (a_peer.cpp:245). Between peers
  with different keys it is another record by then, and links only if its first byte happens to be
  PER_PONG; it may also be read as a PING and be answered in turn. `Reaching.Hears` is the exact
  condition on the keys.
- `_srv_process` tests for `SRV_UNREGISTER`, which a peer never is, so a peer is only ever
  `SRV_UNREGISTERED` or `PER_LINKED`; the test for a missing server follows the assignment that makes
  it false (a_peer.cpp:105-106). An unlinked peer therefore keeps registering although the server has
  answered.
- `ipp::operator=` does not copy the role and `ipp::operator==` compares it (per_id.h:36-37). The
  registry stores all roles as zero, because std::map creates its values zeroed, and so lets a
  registrant with a non-zero role be paired with itself.
- The expiry compares a date-and-time text with a date text (sqliter.cpp:65): rows die at the end of
  a day, and not after thirty seconds.
- A registration that meets a database that does not answer is remembered in `_prev`, and its
  repetitions are dropped until the next round (u_server.cpp:115-119; `Servers.RepetitionLost`).
- `get_pers` reads every group (sqliter.cpp:236): introductions are between roles, not within groups.
- A datagram from the server's port that is not a whole number of records ends in a failed assertion,
  and above 9968 bytes the loop reads past the peer's buffer first (a_peer.cpp:178-192).

## Model

| member | source | states |
|---|---|---|
| Xtea.SumIsProduct | per_id.h:79 | the sum that encipherment accumulates round by round is delta * num_rounds modulo 2^32, where decipherment starts |
| Xtea.BackwardForward | per_id.h:59-86 | decipherment undoes encipherment for every block and round count, whatever the two mixing terms compute |
| Xtea.ForwardBackward | per_id.h:59-86 | and the reverse |
| Xtea.XteaInverse | per_id.h:59-86 | for every key, block and round count each of the two routines undoes the other |
| Xtea.RoundIsCycle | per_id.h:65-69 | one round of the program is one cycle of the published cipher written in plain arithmetic: multiplication, division and remainder for the shifts and masks |
| Xtea.EncipheredIsCycles | per_id.h:65-69 | n rounds are n cycles with the sums 0, delta, 2 delta and so on |
| Xtea.FirstHalf | per_id.h:66 | the first half of one cycle on the block (0, 1) under the zero key is 17 |
| Xtea.XteaEncipher | per_id.h:59-71 | the in-place loop leaves that many cycles of the cipher of the block in its array |
| Xtea.XteaDecipher | per_id.h:74-86 | the in-place loop with the falling sum leaves the block that so many cycles take to the one given |
| Bytes.BitwiseLaws | per_id.h:66-68 | bit by bit, an exclusive or has a bit exactly where its operands differ, and a conjunction exactly where both have it |
| Bytes.ShiftsArePlain | per_id.h:66-68 | the shifts by 4, 5 and 11 are multiplication by 16 modulo 2^32 and division by 32 and 2048 |
| Cipher.CryptBlockwise | per_id.cpp:10-16 | each block of the result is the transform of the same block of the input and depends on no other byte |
| Cipher.CryptInverse | per_id.cpp:7-30 | on whole blocks, undoing every block undoes the buffer |
| Cipher.EdRoundTrip | per_id.cpp:7-30 | for every length, and whatever the stack buffers of the tail hold, every whole block returns |
| Cipher.EdBijective | per_id.cpp:7-30 | under any key decrypting undoes encrypting and encrypting undoes decrypting on buffers of whole blocks |
| Cipher.EdIsTheCipher | per_id.cpp:10-16 | each eight bytes of an encrypted buffer, read as two little-endian words, are the 32 cycles of the cipher applied to those of the input; decrypting goes back |
| Cipher.Ed | per_id.cpp:7-30 | the copy-and-overwrite loop produces the block-wise transform in the output range and touches no byte outside it |
| Endpoints.Converse | sock.h:185-216 | > is the converse of <, and == is symmetric, for any masks and ports |
| Endpoints.NeIsNotEq | sock.h:162-196 | != is the negation of == exactly unless one port alone is zero and the masked addresses agree |
| Endpoints.OrderExactly | sock.h:197-206 | among endpoints of one mask, < is a strict weak order if and only if no endpoint with port zero has the masked address of two with different ports |
| Endpoints.EquivalentIsEq | sock.h:185-206 | what std::set takes for the same is exactly == |
| Endpoints.PortedOrder | sock.h:185-206 | with non-zero ports < is a strict weak order whose equivalence is equality of masked address and port |
| Endpoints.ReceivedComparesPorts | sock.cpp:1335 | a received endpoint, whose mask is zero, compares with anything by port alone |
| Endpoints.InsertReceived | a_peer.cpp:262 | inserting a PONG's sender keeps the set in port order with one endpoint a port, loses and invents nothing, and takes the sender in exactly when its port was free or its own |
| Endpoints.MatchesOnce | a_peer.cpp:142-151 | a short datagram's sender matches at most one element of the set, and one exactly when its port is there |
| AddressText.PrintParse | sock.cpp:1531-1546 | sip2ip of the printed endpoint gives back address and port if and only if the address is non-zero or the port zero |
| AddressText.PrintParsePorted | sock.cpp:50-73 | for every non-zero address and every port the text is read back to both, through the decimal forms and both byte swaps |
| RangeMasks.AndHigh | sock.h:143-144 | conjunction with ~(2^k - 1) clears exactly the k low bits, at any width |
| RangeMasks.AndSwaps | sock.h:157-161 | bitwise conjunction commutes with the byte swap |
| RangeMasks.RangesCompare | sock.h:157-161 | with byte-swapped addresses and masks, the comparison is agreement of the host-order addresses on division by the wider range |
| RangeMasks.RangeMembership | sock.h:127-161 | after from_string on two texts a.b.c.d/n, compare_range_ip holds exactly when the addresses agree on division by 2^n for the larger n |
| RangeMasks.PlainText | sock.h:146-152 | from_string on a.b.c.d gives the address in network order with the port and mask of the call, as a peer reads its server's |
| RangeMasks.PortedText | sock.h:130-134 | on a.b.c.d:p the port is that of the text |
| RangeMasks.NoQuad | sock.h:148 | any other text gives the address that stands for failure |
| Fingerprints.FingerprintInjective | u_server.cpp:120-121 | the text determines address, port, id and the four keys, though the id may hold spaces and digits |
| Fingerprints.FitsExactly | u_server.cpp:117-121 | the text and its terminator fit the 64 bytes exactly when the widths of the seven fields leave a byte; with an id of at most 15 characters it has at most 81 |
| Fingerprints.DoesNotFit | u_server.cpp:117-121 | a registrant whose text has all 81 characters |
| Records.Written | per_id.h:37 | the assignment of an ipp into a record carries address, port and keys and leaves everything else, the role among it, as it was; and the verb stays what was written |
| Records.MeiotExactly | sqliter.cpp:290 | a record names a mid exactly when its bytes from the union on are the mid's, and then a zero |
| Records.OpenSeal | per_id.cpp:7-30 | a record enciphered under a key is read back under that key, and the reverse |
| Records.ToKeysOnto | per_id.h:162-165 | every key is the key of a hexadecimal mid, whose characters after the 32nd do not matter |
| Records.MecapReads | a_peer.cpp:64-66 | from the packet a peer starts with, under any verb, exactly its mid, role and id are read |
| Tables.RowReadsBack | sqliter.cpp:189-256 | address, port, role and keys of a stored row come back unchanged through the signed integer columns |
| Bytes.ColumnIntExactly | sqliter.cpp:163 | what sqlite3_column_int gives is the signed 32-bit number with the same low word |
| Tables.UpsertKeeps | sqliter.cpp:125-229 | storing keeps one row per K, rising Ids, and R rising in rowid order within each group name |
| Tables.UpsertChanges | sqliter.cpp:202-222 | a repeated registration changes only D of its own row; a new one appends one row and changes none; either way the row is there now |
| Tables.NewRow | sqliter.cpp:177-200 | a new registration appends its fields under the next Id with R one above the highest of its group, or 1 |
| Tables.EveryTable | sqliter.cpp:61-229 | over any interleaving of store, refresh, expire and remove there is at most one row per K and R rises within each name |
| Tables.ExpireExactly | sqliter.cpp:61-74 | expiry removes exactly the rows of a day before that of thirty seconds ago; a row refreshed within thirty seconds stays |
| Tables.RefreshedStay | sqliter.cpp:358-380 | a row refreshed by its address outlives every expiry of the next thirty seconds with only D moved, and no other row changes |
| Calendar.DatesRise | sqliter.cpp:65 | successive days have successive dates, over months and leap years |
| Calendar.DateTexts | sqliter.cpp:65 | up to the year 9999 the texts of dates are in the order of the dates |
| Calendar.TextExpiry | sqliter.cpp:65 | a date-and-time text is at most a date text of its width exactly when its date comes strictly before |
| Calendar.StampOrder | sqliter.cpp:65 | the text of a time is at most the text of a day exactly when its day comes before |
| Tables.OldIsTheStatement | sqliter.cpp:65 | the rows the model calls old are those for which the condition of the statement, on the texts, holds |
| Tables.FirstAuthFirst | sqliter.cpp:277-297 | the row chosen authenticates the request and no earlier row does |
| Tables.AuthComplete | sqliter.cpp:264-301 | a request enciphered under the keys of a row for its address or for all addresses, that it names, is always accepted, at that row or before |
| Tables.AuthSound | sqliter.cpp:272-297 | the accepting row is for the request's address or for all addresses, and the request deciphers under its keys to a record that names it |
| Tables.StrangersRefused | sqliter.cpp:272-273 | rows for other addresses accept nothing |
| Tables.Sqlyte.StorePeer | sqliter.cpp:125-229 | the SELECT loop, the INSERT and the UPDATE together are the upsert, with R one above the last R of the name |
| Tables.Sqlyte.GetPers | sqliter.cpp:231-261 | one entry per row in rowid order |
| Tables.Sqlyte.Authorize | sqliter.cpp:264-301 | accepts exactly when some row for the address or for all addresses has keys under which the request names that row, so whenever it was made under such a row's keys; the result is the first such row's keys, a clear record that names it, and enciphering that record again gives the request |
| Tables.Sqlyte.DelOldies | sqliter.cpp:61-74 | the rows left are exactly those for which the comparison of texts in the statement fails; none refreshed within thirty seconds is taken |
| Tables.Sqlyte.UpdatePeer | sqliter.cpp:358-380 | exactly the rows of that address and port get a new D and nothing else, and no expiry of the next thirty seconds takes them; the others stay, in order |
| Wires.AddrReturns | udp_xdea.cpp:71-72 | the address computed from a stored host-order entry is the address it was stored from |
| Wires.UdpXdea.SendKeyed | udp_xdea.cpp:24-33 | with keys the enciphered bytes go out, without them the bytes themselves, to the given address |
| Wires.UdpXdea.SendIpp | udp_xdea.cpp:66-80 | the ipp overload enciphers under the entry's own keys and sends to its swapped address |
| Introductions.RoundFulfils | u_server.cpp:134-164 | every packet of a round does what its tag says: right address, right keys, right verb, right peer introduced, whatever the reused packet held |
| Introductions.RoundGap | u_server.cpp:134-164 | every packet of a round carries, outside verb, address, port and keys, the bytes of the packet the round started from |
| Introductions.IntroducedTwice | u_server.cpp:139-163 | each row is greeted once; each ordered pair of rows of opposite roles gets exactly two introductions and a pair of one role none |
| Introductions.RoundLength | u_server.cpp:139-163 | P providers and C consumers make P + C greetings and 4 * P * C introductions |
| Servers.QuietExactly | u_server.cpp:85-92 | from a quiet loop head the next is quiet if and only if it was not an authorised REGISTER that met a dead database between rounds |
| Servers.AlwaysQuiet | u_server.cpp:53-93 | while stores succeed, `_prev` is zero and `_dirty` false at every loop head of every run |
| Servers.RegisterServed | u_server.cpp:113-131 | an authorised REGISTER at a quiet head is never dropped: its row is stored and outlives the expiry, the reply is sent under the authorising keys, and the round reads a table that holds it |
| Servers.ReplyCleared | u_server.cpp:124-128 | it gets one reply, under the authorising keys: verb 2, the union all zero, the bytes around it as they came; the reply, and the packet the round starts from, name no mid and no id |
| Servers.RoundSilent | u_server.cpp:134-164 | nor does any packet of the round that follows |
| Servers.AnsweredExactly | u_server.cpp:113-131 | an authorised REGISTER is answered, and reaches the table, exactly when it differs from the remembered one and the database answers |
| Servers.RepetitionLost | u_server.cpp:113-131 | after one failure of the database the same REGISTER is lost again, though the database answers by then, until a round |
| Servers.Refused | u_server.cpp:72-79 | an unauthorised datagram changes nothing but the packet, whose front it overwrites |
| Servers.AliveRefreshes | u_server.cpp:187-190 | an authorised PER_AIH gives exactly the rows of its source a new D, and does nothing else |
| Servers.UnregisterAnswered | u_server.cpp:202-210 | an authorised SRV_UNREGISTER is answered in clear with verb 5 and its own bytes, and asks for a round |
| Servers.OtherVerbsIgnored | u_server.cpp:211-214 | any other verb does nothing |
| Servers.RoundWhen | u_server.cpp:85 | from a quiet head a round runs exactly when the last is more than 15 seconds ago, a registration was stored, or someone unregistered |
| Servers.StartedEntry | u_server.cpp:124 | a peer started with the id p:abc or c:abc is stored in the group abc, in the role it was started in, at the address the server saw |
| Servers.SameKExactly | u_server.cpp:113-124 | under an injective hash two registrations meet in one row exactly when source, keys and id agree |
| Servers.UServer.PingPers | u_server.cpp:134-164 | the nested loop over the reused packet sends exactly the packets of the round, in order |
| Servers.UServer.StorePeer | u_server.cpp:113-131 | the duplicate test, the store, and the reply, sent enciphered with its union zeroed and left so in the packet |
| Servers.UServer.HandleDatagram | u_server.cpp:70-84 | receiving, authorising and processing change the server and answer as specified |
| Servers.UServer.PingAndExpire | u_server.cpp:85-92 | the periodic part is the specified one: round, reset of the duplicate test, expiry |
| Servers.UServer.LoopOnce | u_server.cpp:53-93 | one loop iteration is the specified one: datagram, round when due or dirty, reset, expiry |
| Peers.SplitsIntoRecords | a_peer.cpp:182-191 | a datagram of enciphered records decodes to exactly those records in order, whatever follows in the buffer |
| Peers.APeer.ReceivedFromServer | a_peer.cpp:178-193 | the loop processes record after record; it completes exactly on a whole number of records, and reads past the buffer exactly above 9968 bytes, with the records before processed either way |
| Peers.TurnKeeps | a_peer.cpp:81-130 | whatever arrives, a turn leaves the peer in one of two states, loses no endpoint, keeps its identity and the port order of its set |
| Peers.LinkedExactly | a_peer.cpp:241-277 | an unlinked peer with an empty set becomes linked with nobody exactly when a full-size datagram deciphers to a data record |
| Peers.RunLinked | a_peer.cpp:241-277 | in every run without such a datagram, linked means that someone is in the set |
| Peers.StatusExactly | a_peer.cpp:204-277 | an unregistered peer becomes linked exactly when a full-size datagram, not from the server's port, is read as a PONG or as data; a linked one is released exactly when a record of the server says so |
| Peers.RegtimeExactly | a_peer.cpp:85-92 | the registration time after a turn is that of the server's answer, else now if the timer fired, else what it was |
| Peers.TimerExactly | a_peer.cpp:85-93 | the timer sends the peer's packet with verb 1 to the server exactly when it is unregistered and more than ten seconds have passed |
| Peers.DeliveredExactly | a_peer.cpp:142-151 | a turn hands its datagram over once exactly when it is a short one from a port in the set, or a full-size one read as data |
| Peers.HereExactly | a_peer.cpp:101-113 | the I-am-here timer never finds the server missing, empties the set or unlinks the peer |
| Peers.RegistersApart | a_peer.cpp:85-99 | under a clock that never goes back, successive REGISTERs are at least REG_TICK + 1 seconds apart |
| Peers.RegistersBounded | a_peer.cpp:85-99 | so the time elapsed between the first and the last bounds how many there are |
| Peers.APeer.PerProcessRecord | a_peer.cpp:241-277 | the answer to a peer's record: PONG to a PING, the sender into the set and the peer linked on a PONG, data delivered once |
| Peers.APeer.RecUdp | a_peer.cpp:134-202 | one datagram is handled as specified, and a short one is delivered once per match; when the assertion fails, every record before has been processed, the partial one as the buffer completes it |
| Peers.APeer.SendToPers | a_peer.cpp:304-312 | the same plain bytes go to every element of the set, in order |
| Peers.APeer.LoopOnce | a_peer.cpp:81-130 | one turn of the loop is the specified one: registration timer, datagram, I-am-here timer, keyboard; a turn that dies has run the timer and processed its records |
| Hearing.HeardHeadOf | per_id.cpp:10-16 | the first block read depends on the first block sent and the two keys alone |
| Hearing.SameKeyAnswers | a_peer.cpp:254-265 | under one key the first PONG of an exchange is read as a PONG, and there is no second |
| Protocol.FirstMid | sqliter.cpp:78-104 | a table whose first row is the one that all peers are built with, whatever rows follow, reads every registration at that row |
| Protocol.OwnMidFirst | sqliter.cpp:264-301 | so does any table in which no eligible row with another key comes before the row of a peer itself |
| Protocol.OneMid | sqliter.cpp:264-301 | so does a table with one key for a fleet with that key |
| Protocol.RegistrationRead | sqliter.cpp:264-301 | a registration is authorised exactly when its sender can register, and is then read as it was written, under its sender's own key |
| Protocol.TailLeft | u_server.cpp:70-84 | a registration leaves in the server's packet its own bytes when it is authorised and its ciphertext when it is not |
| Protocol.StepKeeps | a_peer.cpp:81-277 | every step of server, peer or network keeps the invariant: every event of the history is justified by what came before it |
| Protocol.ServerStepKeeps | u_server.cpp:53-93 | a server iteration only sends what the history justifies, and its rows stay registered peers with their own keys |
| Protocol.PeerStepKeeps | a_peer.cpp:81-130 | a peer's turn only sends what the history justifies, and its set stays explained |
| Protocol.Invariant | a_peer.cpp:178-287 | the invariant holds after every run of any fleet, under any schedule, loss, duplication and reordering |
| Linking.PongStory | a_peer.cpp:254-265 | a PONG goes back, over PONGs that were read as PINGs, to a PING of one of the two; with the same key, directly to the other's PING |
| Linking.PongAnswers | a_peer.cpp:254-265 | its first block is an answer of the exchange that the first PING began |
| Linking.LinkedBecause | a_peer.cpp:178-287 | every endpoint of every peer's set in every reachable state has its story: two registrations, the round with both rows in opposite roles, the introduction, the PING, and a PONG that was read as one, in that order; and it does not have the server's port |
| Linking.PingsAgree | a_peer.cpp:281-287 | every PING of every run is addressed to the introduced peer, under the keys that peer registered with whatever the sender's are, and is deciphered there to exactly the record sent |
| Linking.SenderKeyExactly | a_peer.cpp:286 | under its sender's key the target would read the same record only if the two keys encipher it to the same bytes |
| Linking.PeersLive | a_peer.cpp:178-202 | in no reachable state does a delivery fail the assertion on the remainder, and a linked peer has someone in its set unless a foreign key made data of a PONG |
| Linking.SharedKeyReads | a_peer.cpp:241-277 | which it never does of a key that all share |
| Linking.TextDelivered | a_peer.cpp:134-153 | in every reachable state a text is handed over at most once, exactly when its sender's port is in the set; from a sender with a port of its own, exactly when it is itself in the set |
| Reaching.PongLinks | a_peer.cpp:241-266 | a PONG of j, under j's key, puts j into i's set exactly when i reads a PONG in it under its own |
| Reaching.Handshake | a_peer.cpp:204-287 | from an introduction in the history, three deliveries link the two exactly when the answer comes out as a PONG |
| Reaching.Speak | a_peer.cpp:254-258 | two introduced peers can be made to say every PONG of their exchange |
| Reaching.Register | u_server.cpp:53-131 | from a quiet head, delivering a registration stores its row and puts a round over it, and all its packets, into the history |
| Reaching.RoundWithTail | u_server.cpp:85-92 | when the server's timer is due, any registration, authorised or not, makes it introduce the peers of the table in packets that carry what it left |
| Reaching.IntroduceBoth | u_server.cpp:134-164 | registered peers of opposite roles are introduced to each other in packets with the tail of any registration, at rising times |
| Reaching.PersStay | a_peer.cpp:204-277 | over any continuation no peer loses an endpoint |
| Reaching.StartedCanRegister | a_peer.cpp:62-66 | a peer as the program starts it can register as soon as its mid is an eligible row with its key |
| Reaching.SameKeyLinks | a_peer.cpp:241-266 | peers with the same key hear each other |
| Reaching.HearsByKeys | a_peer.cpp:241-266 | in a fleet as the program starts it, whether one hears another is up to their two keys alone |
| Reaching.OnwardRises | a_peer.cpp:81-83 | after a run whose clocks rise, a continuation that the clocks allow is one with which they go on rising |
| Reaching.LinkableExactly | a_peer.cpp:178-287 | in every reachable state, some continuation that the clocks allow puts j into i's set if and only if neither has the server's port number, j's port is not in i's set under another address, and i hears j |
| Reaching.SameKeyLinkable | a_peer.cpp:178-287 | with the same key, if and only if the ports allow it |
| Reaching.LinkableBothExactly | a_peer.cpp:178-287 | some continuation that the clocks allow links the two peers to each other if and only if ports and keys allow it in both directions |
| Reaching.StartedPeersLink | README.md:25 | a provider and a consumer that can register can be linked to each other by a run with rising clocks, whoever else is in the fleet, if and only if neither is on the server's port number and each hears the other |
| Reaching.StartedFleetLinks | sqliter.cpp:78-104 | two peers started with the mid of the table's first row meet every assumption, and can be linked if and only if neither is on the server's port number |
| Talking.SetMeansLinked | a_peer.cpp:260-263 | in every reachable state a peer with someone in its set is linked |
| Talking.LinkedForGood | a_peer.cpp:85-99 | over any continuation a linked peer stays linked and sends no further REGISTER |
| Talking.LineSent | a_peer.cpp:114-129 | in every reachable state a turn with a line sends it in clear once to each endpoint of the set after the turn, in order, if the peer is then linked; nothing else is sent in clear, by peers or server |
| Talking.TextsToLinked | a_peer.cpp:304-312 | in every reachable state whoever was sent a text by a peer is in that peer's set |
| Talking.LinkedTalk | a_peer.cpp:134-153 | of two peers in each other's sets, what one types the other is handed, once |
| Talking.LineHeardExactly | README.md:25 | when ports and keys allow it in both directions, some continuation that the clocks allow has one peer handed any line of the other, once; when no other peer has the sender's port number, only then |
| Streams.SendBounds | sock.cpp:406-436 | at most tout/10 + 1 sleeps, at most one call per byte and per sleep and one more, and all bytes delivered exactly when the run ends whole |
| Streams.PatienceExactly | sock.cpp:412 | the budget of sleeps is the timeout divided by ten, toward zero, and one |
| Streams.WholeExactly | sock.cpp:406-436 | for any kernel, everything is delivered if and only if some number of calls moves enough bytes with no other failure and no more blocking than the budget allows |
| Streams.ShortBecause | sock.cpp:416-431 | a short delivery is explained by its last call: nothing moved, and errno was zero, fatal, or EAGAIN once too often |
| Streams.PatienceHelps | sock.cpp:412-428 | a larger timeout never delivers less |
| Streams.FilledExactly | sock.cpp:385-402 | receiveall fills the buffer if and only if the bytes are there and come without a pause |
| Streams.TcpSock.SendAll | sock.cpp:406-436 | terminates; exactly the reported prefix of the buffer goes out, once and in order; the socket is closed only by a failure other than EAGAIN |
| Streams.TcpSock.ReceiveAll | sock.cpp:385-402 | exactly the reported prefix of the buffer is filled with the stream's first bytes, the rest of buffer and stream is as before |
| Pairing.EveryState | peers.cpp:15-58 | in every run the stored roles are zero, and side b is filled only if side a is |
| Pairing.EveryEntry | peers.cpp:15-58 | with ports, every entry of every run has side a from the registrant that made it and side b from a later one of the same name that was not a repeat |
| Pairing.StaysUntilTaken | peers.cpp:15-80 | an entry stays exactly until it is removed or expires, its birth never changes, and a full pair does not change at all |
| Pairing.AnswerExactly | peers.cpp:15-58 | `add` answers true exactly when the entry was there and is full afterwards, unless side a was left without a port or side b is given none |
| Pairing.PortedAnswer | peers.cpp:15-58 | with ports it is exact in every run |
| Pairing.JoinExactly | peers.cpp:31-46 | who may join an entry that has side a alone: whoever brings neither endpoint onto the first slot and neither onto the second, where a registrant on 127.0.0.1 may; and what side b then holds |
| Pairing.RefillExactly | peers.cpp:26-30 | an entry left without a port on side a takes the next registrant there and answers true; a rejected repeat changes nothing |
| Pairing.PairedWithItselfExactly | peers.cpp:33-41 | a registrant that comes twice is paired with itself exactly when its roles hide the repeat |
| Pairing.Peers.Add | peers.cpp:15-58 | the branches of `add` make the specified change and answer, a rejected repeat changing nothing |
| Pairing.Peers.DelOldies | peers.cpp:68-80 | the restarting loop ends, whatever the order of the walk, and leaves exactly the entries of age at most TTLIVE |

## Left out

- Linking.LinkedBecause: each peer has one address, one key and one role for the whole run. The row at which `authorize` stops for a registration is assumed to hold its sender's key (`Protocol.RightRow`); Protocol.FirstMid, Protocol.OwnMidFirst and Protocol.OneMid give tables for which it holds whatever the cipher does, the program's own among them. A peer on the server's port number is assumed to have the key of all others (`Protocol.Unmasked`): they take it for the server, and would read commands into its answers.
- Linking.PingsAgree: under the same assumptions.
- Reaching.LinkableExactly: as the members after it, it says that a schedule exists, not that a fair network finds it; the hash behind K is assumed injective. Whether two different keys hear each other is a condition on the cipher that is stated and not evaluated.
- Tables.EveryTable: fewer than 2^31 - 1 operations, so that R fits the program's int.
- Tables.OldIsTheStatement: for times from 1970 on with a year of four digits, which is what SQLite writes; leap seconds do not exist there either.
- Servers.SameKExactly: the hash is one function from text to the value in column K, and injectivity is assumed; std::hash has collisions.
- Fingerprints.FingerprintInjective: the text untruncated; the program writes it into 64 bytes, and what happens where it does not fit (Fingerprints.FitsExactly) is not modelled.
- AddressText.PrintParse: sip2ip on other spellings (spaces, signs, numbers beyond an int) is not modelled.
- RangeMasks.RangeMembership: inet_addr only on plain dotted quads, and no widths above 31, which overflow the program's int.
- Cipher.EdRoundTrip: nothing is claimed of the partial last block; the program enciphers uninitialised bytes with it, which are a parameter here.
- Peers.RunLinked: unencrypted text is shorter than a record, as the model of the keyboard requires; longer text is read as a record by its receiver.
- Streams.TcpSock.SendAll: closing a socket succeeds at once and leaves `_syserr` alone; errno of a call that moves nothing is whatever the kernel leaves.
- Pairing.Peers.Find: returns the entry by value; the program returns a pointer into the map, through which a caller could write.
- Sockets, `select`, `bind`, DNS, interfaces, blocking modes and sleeps; a send to the network always succeeds, so the peer that gives up when its send returns zero is not modelled.
- One clock value serves an iteration of the server and its statements; a peer reads one at the head of its turn and one while handling a datagram.
- SQLite handles, SQL text and quoting, and statements that fail one by one: a store succeeds or fails as a whole.
- `_remove_peer` hashes another text than was stored and appends the hash as a character; the model lets it remove any set of rows.
- A mid is taken to be 32 to 57 hexadecimal characters, which is what the program's own keys are; other rows of `mid` are not modelled.
- The strings in a record are taken to end inside the record; the group name is the id from its third byte on.
- The unused receive overloads of `udp_xdea`, and the stream operators of `SADDR_46`, whose mask count ignores the byte order.
- The counting of denied addresses.
- Terminal, printing, pipes, threads and process entry; a line from the keyboard arrives whole, where the program collects it character by character over several turns.
