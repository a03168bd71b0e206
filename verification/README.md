# NTR in Dafny

NTR is a proxy platform written in Go. This project models the parts of it where correctness is
hardest to see from the code, and proves what those parts promise. Each module stands for one
component:

| file | component |
|---|---|
| `Basics.dfy`, `Words.dfy`, `Ids.dfy` | shared vocabulary, machine words, the ring of 16-bit ids |
| `SuccinctBits.dfy`, `DomainTrie.dfy`, `SingDomainSet.dfy` | compressed domain sets: bit layer, trie, reading and lookup |
| `Rules.dfy`, `RuleEngine.dfy`, `RuleRouting.dfy`, `RuleTheorem.dfy`, `RuleMeaning.dfy` | the routing rule engine, and what a table means value by value |
| `Nonces.dfy`, `RecordHeader.dfy`, `Records.dfy`, `RecordChannel.dfy`, `RecordTaking.dfy`, `XorStream.dfy`, `VlessStack.dfy`, `VlessWire.dfy`, `Tickets.dfy` | VLESS encryption: header XOR, AEAD records, the two stacked, their bytes by position, 0-RTT tickets |
| `Admission.dfy`, `AdmissionLimits.dfy`, `KillSwitch.dfy`, `TokenBucket.dfy`, `Meter.dfy` | admission limits, kill switch, rate limiter, byte accounting |
| `MuxFrame.dfy`, `MuxLayout.dfy`, `MuxStream.dfy`, `MuxArrivals.dfy`, `MuxServer.dfy`, `MuxSessions.dfy`, `MuxClient.dfy` | Mux.cool frames and their bytes by position, sub-streams, server sessions, client ids |
| `FakeIp.dfy` | the fake-IP pool of the DNS server |
| `ShadowQuicIds.dfy`, `ShadowQuicRecv.dfy` | ShadowQUIC send ids and receive slots |
| `Groups.dfy` | construction of policy groups, dialer chains |
| `NaivePadding.dfy` | the padding layer of naive |

`dafny verify dfyconfig.toml` checks all of it.

How things are modelled:

- Code that changes state in place is a method, or a class with `modifies` clauses, and its contract
  ties the new state to a function of the old one. What the component promises is proved about those
  functions and as invariants.
- Code whose goroutines interleave is a state machine: each critical section, atomic operation,
  unprotected load or store, or outcome of an I/O call is one step, `IsRun` says what an arbitrary run is, and the theorems are about
  every state of every run.
- Clocks, randomness, dial results, short reads, link failures and the process finder are parameters
  or nondeterministic choices. Cryptography (AEAD, key derivation, CTR key stream) and library
  predicates (CIDR parsing, lower-casing, IP and domain sets) are arbitrary functions with the laws
  stated where they are used.
- Integers are unbounded; the width of the original is written out where it matters (`wordOnes` is
  int32, byte counters and remainders are uint64, ids are uint16, nonces are twelve bytes).

Where the code and its own comments disagree, the model follows the code:

- Routing is documented as first match over the table. The indexes lower-case protocol names and never
  look up an empty domain suffix, so the table is routed as its indexed reading. A rule for protocol
  `TLS` is hit by a connection sniffed as `tls` through the index, but not as written and not inside an
  and/or rule (`RuleTheorem.UpperProtocolDiffers`). `RuleTheorem.IndexAgreesIffPlain` says for which
  rules the two readings are the same on the connections the program routes, whose sniffed protocol is
  lower case (core/endpoint/endpoint.go:51-66).
- A New frame is documented not to displace a live session. The control path registers without that
  check; `MuxServer.ControlNeedsFreeId` says exactly when table entries stay with their sessions, and
  `MuxServer.FreshWhenUnused` with `MuxClient.FreshIffFirstTurn` when the program's own peer keeps to it.
- Fake addresses are documented to lie in the configured range. With a prefix of a single address they
  do not; `FakeIp.InsideIffRoom` gives the exact condition.
- A flush is documented to come after both relay goroutines have ended. Two callers flush while a
  report may still come (outbound/connectip/inbound.go:163-207, service/udpnat.go:28-30), and a report
  inside the flush is lost or counted twice (`Meter.ReportInFlushIsLost`,
  `Meter.ReportInFlushIsDoubled`). `Meter.ConservedIffApart` gives the exact condition.
- `WriteFrame` accepts a New or UDP Keep frame with a nil IP and `ReadFrame` cannot read it back;
  `MuxFrame.FrameRoundTrip` covers both sides of the condition.

## Model

| member | source | states |
|---|---|---|
| `SuccinctBits.GetBit` | ruleset/succinct.go:29 | reads one position of the bitmap taken as one sequence of bits, lowest bit first |
| `SuccinctBits.NewWordOnes` | ruleset/succinct.go:20-27 | every table entry is the number of ones in the words before it, as an int32 with wrap-around |
| `SuccinctBits.WordOnesExact` | ruleset/succinct.go:22-25 | the int32 table counts correctly if and only if the bitmap has fewer than 2^31 ones |
| `SuccinctBits.Rank` | ruleset/succinct.go:32-39 | number of ones before a position, for every position including the end |
| `SuccinctBits.CountZeros` | ruleset/succinct.go:42 | number of zeros before a position |
| `SuccinctBits.SelectIthOne` | ruleset/succinct.go:45-66 | inverse of rank: the position it returns holds a one with exactly `i` ones before it; the binary search stays in range and the -1 exit is never taken |
| `SingDomainSet.CountOnes` | ruleset/srs.go:248-254 | finds the position of the last one and the number of ones up to it |
| `SingDomainSet.ReadSingSuccinct` | ruleset/srs.go:231-263 | accepts exactly the fields whose bitmap, up to its last one, has one zero per label and one more one than zeros; pads leaves with zeros so that every node has a leaf bit |
| `SingDomainSet.ScanEdges` | ruleset/srs.go:279-296 | for every accepted bitmap the edge scan stays in range and either proves a suffix hit, or reaches the node's closing one having passed all its edges, or finds the edge of the next character |
| `SingDomainSet.Descend` | ruleset/srs.go:297-298 | rank and select lead to the child of the edge and to the first position of that node, before all its edges |
| `SingDomainSet.HasAtEnd` | ruleset/srs.go:300-311 | at the end of the key: true exactly for a leaf or a node with a special edge |
| `SingDomainSet.Has` | ruleset/srs.go:274-312 | for every accepted set and key the walk terminates with every index in range; when the trie is well labelled and the key has no `\n` the answer is membership in the set the trie denotes: the key itself, a `\r` prefix, or a `\n` prefix that is the whole key or followed by a dot |
| `DomainTrie.Trie.MatchesEdge` | ruleset/srs.go:276-299 | the set a node denotes splits along the edge of the first character into the special hits of the node and the set of the child |
| `DomainTrie.Trie.MatchesNoEdge` | ruleset/srs.go:279-295 | without an edge for the first character only the special labels of the node can match |
| `DomainTrie.Trie.MatchesEmpty` | ruleset/srs.go:300-311 | what a node denotes of the empty rest of a key |
| `RuleEngine.CompileEvalCorrect` | rule/engine.go:281-316 | compilation keeps the meaning of every nested and/or/not rule on every connection |
| `RuleEngine.EvalCtx.Proc` | rule/engine.go:144-152 | the lazy process lookup returns what the first finder call says, and at most one call is ever made |
| `RuleEngine.EvalCtx.MatchLeaf` | rule/engine.go:328-383 | the loops over all dimensions, with the lazy process lookup last, decide the declarative reading of a leaf rule |
| `RuleEngine.MatchHost` | rule/engine.go:330-353 | the loops over exact names, suffixes, keywords and domain sets decide whether one of them matches the host |
| `RuleEngine.MatchAddr` | rule/engine.go:354-365 | the loops over prefixes and IP sets decide whether one of them holds the address, a prefix that does not parse holding none |
| `RuleEngine.EvalCtx.Run` | rule/engine.go:289-314 | evaluating a compiled rule with short-circuiting and the cached lookup decides its declarative reading |
| `RuleEngine.PutAll` | rule/engine.go:193-234 | after adding a rule's keys every key still leads to the first rule that has it |
| `RuleEngine.CompileRule` | rule/engine.go:174-234 | the checks and the loop per dimension yield exactly the keys and list entries of an accepted rule, and reject every other rule |
| `RuleEngine.CompileAll` | rule/engine.go:173-236 | the loop over the table rejects exactly when the default is empty or a rule is rejected; otherwise the maps hold least ordinals and the lists all entries |
| `RuleEngine.Compile` | rule/engine.go:156-237 | accepts exactly the tables with a default whose rules are each well formed, and yields the least-ordinal engine of the table |
| `RuleRouting.SuffixKeysAreHits` | rule/engine.go:459-469 | the parent chain of a host looks up exactly the non-empty suffixes on a label boundary |
| `RuleRouting.SuffixBest` | rule/engine.go:459-469 | the chain loop yields the least ordinal over those suffixes |
| `RuleRouting.ScanProbes` | rule/engine.go:470-479 | scanning a list with early pruning by ordinal still yields the least matching ordinal |
| `RuleRouting.AddrBest` | rule/engine.go:482-493 | the same over all addresses of the destination |
| `RuleRouting.DimsBest` | rule/engine.go:442-498 | the least ordinal over all destination dimensions |
| `RuleRouting.ProcessBest` | rule/engine.go:414-423 | the least ordinal after the process indexes |
| `RuleRouting.LogicalBest` | rule/engine.go:424-433 | the least ordinal after the and/or/not rules, skipping those that cannot win |
| `RuleTheorem.LeafRowHit` | rule/engine.go:189-234 | the indexes hit a leaf rule exactly when its indexed reading matches the connection |
| `RuleTheorem.HitsAreMatches` | rule/engine.go:407-438 | the rules hit by indexes, process lookup and evaluators are exactly the rules that match |
| `RuleTheorem.RouteConnIPs` | rule/engine.go:407-438 | every connection is routed to the target of the first matching rule of the table as indexed, or the default, with at most one finder call; of the table as written when its rules are plain; and without IP rules (`HasIPRules`) the same whatever the name resolves to |
| `RuleTheorem.IndexAgreesIffPlain` | rule/engine.go:196-220 | a leaf rule is routed as written on every connection with a lower-case sniffed protocol if and only if it has no empty suffix and lists the lower case of each protocol name it lists |
| `RuleTheorem.EmptySuffixDiffers` | rule/engine.go:459-469 | a connection on which an empty suffix matches as written but not through the index |
| `RuleTheorem.UpperProtocolDiffers` | rule/engine.go:218-220 | a rule that lists `TLS` and not `tls` is hit through the index by a connection sniffed as `tls`, and missed as written and as the only part of an and/or rule |
| `RuleTheorem.NoIPRulesIgnoreResolution` | rule/engine.go:241-251 | when no rule uses an IP dimension, resolved addresses cannot change the first match |
| `RuleTheorem.NoIPRows` | rule/engine.go:241-251 | the engine's flag for IP rules is false only when no rule, nested ones included, uses an IP dimension |
| `RuleMeaning.Route` | rule/engine.go:407-437 | a table compiled and a connection routed end to end: accepted exactly when every rule is well formed; the target is that of the first rule one of whose listed values matches the connection, and/or/not rules by their sub-rules, else the default; the finder is asked at most once, never when no rule lists a process, always when a leaf rule does |
| `RuleMeaning.RouteOne` | rule/engine.go:321-326 | a table of one rule with one value routes to its target exactly for the connections the value matches; for ip-cidr and geoip these are the address destinations whose unmapped address is contained, and the others some resolved address of which is |
| `RuleMeaning.LeafSelects` | rule/engine.go:328-383 | a leaf rule is hit exactly when some value it lists matches, each of the eleven kinds said with strings, addresses and the process alone, both as written and through the index |
| `RuleMeaning.SuffixMeans` | rule/engine.go:337-342 | a domain suffix matches the name itself and any name that ends in a dot and it |
| `RuleMeaning.AcceptedMeans` | rule/engine.go:156-279 | a rule is accepted exactly when it has a target and lists values of one kind that parse, or combines sub-rules of which the same holds without a target, at any depth |
| `RuleMeaning.HasIPMeans` | rule/engine.go:241-251 | the IP flag is set exactly when some rule lists a prefix or an address set, at any depth |
| `RuleMeaning.NeedsProcess` | rule/engine.go:227-234 | the process flag is set exactly when a leaf rule lists a process |
| `XorStream.EncodeSplit` | internal/vlessenc/xor.go:41-67 | the encoding of a concatenation is the concatenation of encodings from the states in between, so output does not depend on how data is cut |
| `XorStream.DecodeSplit` | internal/vlessenc/xor.go:69-93 | the same for decoding, where the state follows the decoded bytes |
| `XorStream.RoundTrip` | internal/vlessenc/xor.go:41-93 | decoding with the same key stream and skip undoes encoding, from any state inside a record |
| `XorStream.Faithful` | internal/vlessenc/xor.go:41-93 | for every cutting of the writes and every cutting of the reads, what is read is a prefix of what was written, and all of it once the wire is read |
| `XorStream.XorWithInvolutive` | internal/vlessenc/xor.go:11-17 | masking with a CTR key stream undoes itself at every position, whatever the key stream |
| `Words.XorBit` | internal/vlessenc/xor.go:53-59 | exclusive or, bit by bit |
| `XorStream.XorConn.Write` | internal/vlessenc/xor.go:41-67 | the in-place loop computes the per-byte automaton on the whole buffer and leaves the automaton's state; a failing link has taken a prefix of the result |
| `XorStream.XorConn.Read` | internal/vlessenc/xor.go:69-93 | the in-place loop computes the inverse automaton on what the link delivered |
| `Nonces.IncreaseNonce` | internal/vlessenc/common.go:187-195 | in place, big-endian plus one with carry, dropping the last carry |
| `Nonces.IncreaseValue` | internal/vlessenc/common.go:187-197 | the value goes up by one and wraps to zero exactly from the all-255 nonce |
| `RecordHeader.HeaderRoundTrip` | internal/vlessenc/common.go:207-224 | every announced length that can occur is read back from the header, by the record layer and by the XOR layer |
| `RecordHeader.HeaderIff` | internal/vlessenc/common.go:207-224 | a header is accepted with a length exactly when the length is 17 to 16640 and the bytes are 23, 3, 3 and the length, high byte first |
| `Records.NextUse` | internal/vlessenc/common.go:173-195 | the nonces used under one key are 1, 2, ... and last 0, one period per key |
| `Records.FirstRecord` | internal/vlessenc/common.go:107-152 | the first record of the wire opens to the first chunk and leaves the wire of the rest under the advanced or renewed key |
| `RecordChannel.StartShared` | internal/vlessenc/server.go:265-267 | the two ends are in step when both hold the same AEAD, as from client to server after the hello |
| `RecordChannel.StartZeroRtt` | internal/vlessenc/server.go:227-230 | the two ends are in step before a 0-RTT answer, the key coming from the sixteen random bytes sent first |
| `RecordChannel.StartOneRtt` | internal/vlessenc/server.go:290-294 | the two ends are in step at the end of a 1-RTT handshake with the sealed padding on the wire |
| `RecordChannel.SendKeepsStep` | internal/vlessenc/common.go:64-78 | a record, also one cut short by a failing link or sealed after it failed, keeps both ends in step through nonce wrap and rekey |
| `RecordChannel.RecordKeepsStep` | internal/vlessenc/common.go:111-152 | taking the next record never fails on a link in step, follows the sender's key and nonce, and splits an oversized plaintext without loss |
| `RecordChannel.ReceiveKeepsStep` | internal/vlessenc/common.go:83-153 | any read, for any buffer and any amount delivered, fails on a link in step only when the link is over, and returns the next bytes written |
| `RecordTaking.ArrivedTakes` | internal/vlessenc/common.go:83-153 | a read takes whole units off the link: the random bytes or sealed padding in front or none of them, and one whole record or none |
| `RecordTaking.ReceiveDelivers` | internal/vlessenc/common.go:83-153 | when everything sent has arrived and something is unread, a read with a non-empty buffer returns at least one byte, also through the server random, the sealed padding and a rekey |
| `RecordTaking.NewsIffUnread` | internal/vlessenc/common.go:50-80 | on a live link there is something for such a read exactly when not all that was written has been read |
| `RecordChannel.SealKeepsLog` | internal/vlessenc/common.go:63-72 | each seal uses the next nonce of the current key, and after the last nonce of a key comes the key derived from the record |
| `RecordChannel.NoNonceReuse` | internal/vlessenc/common.go:173-195 | no nonce is used twice under one key of the connection |
| `RecordChannel.Channel.Write` | internal/vlessenc/common.go:50-80 | writes of any length go out as the pending first bytes and one record per 8192 bytes; the byte count and the history are exact, or an error after a prefix |
| `RecordChannel.Channel.Read` | internal/vlessenc/common.go:83-153 | whatever the calls before, everything read is a prefix of everything written; a read that the end of the link interrupts loses what it had of an unfinished record and nothing else |
| `VlessStack.HeadersCoincide` | internal/vlessenc/xor.go:41-67 | for any run of records the XOR layer, finding headers by itself, masks exactly the record headers and stands before a header again |
| `VlessStack.SendAligned` | internal/vlessenc/common.go:62-78 | a record written through the XOR layer, also one cut short, keeps the two layers aligned |
| `VlessStack.ReceiveAligned` | internal/vlessenc/common.go:83-153 | any read through the XOR layer sees the plain bytes, returns the next of them, and leaves the XOR layer before a header or with exactly the unread lead to skip |
| `VlessStack.BeginAligned` | internal/vlessenc/server.go:227-233 | the layers are aligned from every handshake start: skips of 16 for a 0-RTT answer, the padding length for a 1-RTT client, 0 elsewhere |
| `VlessStack.HelloSkipped` | internal/vlessenc/client.go:121-125 | the XOR layer of a 0-RTT client skips exactly its hello and masks what follows as from the start |
| `VlessStack.NilStreamUnused` | internal/vlessenc/common.go:87-96 | the bytes a 0-RTT client reads before it has a key stream are passed on unmasked whatever the stream, use none of it, and are the server's random bytes |
| `VlessStack.StackFaithful` | internal/vlessenc/common.go:50-153 | in every run of the stacked layers from every start, under any writes, cuts, arrivals and buffer sizes, what has been read is a prefix of what has been written, and reading fails only when the link is over |
| `VlessStack.StackDelivers` | internal/vlessenc/common.go:83-153 | at every moment of every run on a live link with something unread, once all bytes underneath have arrived, a read with a non-empty buffer through both layers returns at least one byte |
| `VlessStack.RunGoesOn` | internal/vlessenc/common.go:50-153 | at every moment of every run any record of 1 to 8192 bytes can be written and any part of what is underneath read |
| `VlessWire.KthRecord` | internal/vlessenc/common.go:55-78 | record `k` of a run stands at the place the lengths before it give, with header 23 3 3 and its length, and its body is the chunk sealed under the key and nonce of that moment with the header as additional data |
| `VlessWire.AeadAt` | internal/vlessenc/common.go:64-72 | at record `k` the key is the first one and the nonce has moved on by `k`, until 2^96 nonces are used; then the key is derived from the bytes of the record that used the last one and the nonces start over |
| `VlessWire.MaskedByPosition` | internal/vlessenc/xor.go:41-67 | of every record exactly the five header bytes are masked, each with the exclusive or of the next byte of the key stream; all other bytes go out as they are |
| `VlessWire.ReadsOrRefuses` | internal/vlessenc/common.go:110-153 | whatever bytes have arrived, a reader with a key fails on any other header and on a body that does not open under its next nonce, waits for an incomplete record, and otherwise returns what it opened and keeps what does not fit |
| `VlessWire.FitsBuffer` | internal/vlessenc/common.go:107-109 | a read never returns more than the buffer holds, and hands out what is left of the last record before it touches the link |
| `Tickets.IssueKeepsInv` | internal/vlessenc/server.go:278-284 | issuing keeps: sessions are exactly the listed tickets, tickets are in issue order, every minute still to come names the last ticket expiring in it |
| `Tickets.SweepPoint` | internal/vlessenc/server.go:91-101 | the ticket named for a minute ends exactly the tickets that expire by that minute |
| `Tickets.SweepKeepsInv` | internal/vlessenc/server.go:84-103 | a sweep keeps the invariant, also after skipped minutes, and drops no ticket before its longest lifetime is over; when its minute is named it drops exactly the tickets expired by that minute |
| `Tickets.SweepClears` | internal/vlessenc/server.go:87-103 | a sweep leaves no expired ticket if and only if its minute is named or no minute since the last sweep is; with non-zero tickets and no skipped minute it never leaves one, and then no session is two minutes over its longest lifetime |
| `Tickets.NamedIffExpires` | internal/vlessenc/server.go:278-284 | a minute still to come is named exactly when some listed ticket expires in it |
| `Tickets.IssueKeepsAlive` | internal/vlessenc/server.go:278-284 | issuing adds no expired ticket |
| `Tickets.Store.IssueTicket` | internal/vlessenc/server.go:269-284 | the handshake's update of the three maps, keeping the invariant |
| `Tickets.Store.SweepOnce` | internal/vlessenc/server.go:87-103 | one round of the sweeper; a dropped session is past issue time, lifetime and a minute |
| `Tickets.Store.DropThrough` | internal/vlessenc/server.go:94-101 | the loop deletes the sessions up to the named ticket and keeps the tickets behind it; with an unlisted ticket it deletes all sessions and keeps the list |
| `Admission.MoveHolds` | meter/limits.go:67-230 | each step of an admission changes what it holds by exactly the one slot whose counter it changes |
| `Admission.TakeHasRoom` | meter/limits.go:114-133 | a compare-and-swap or lock section takes a slot only while the counter is below its maximum |
| `Admission.RefusalHasReason` | service/admit.go:37-74 | an admission turns to rejection exactly when the memory guard refuses it at the start, a limit it needs is used up at that moment or its cell has been disabled; a full limit is never passed |
| `Admission.StepKeepsExact` | meter/limits.go:67-230 | every counter equals the slots held after any step of any admission; an address is known exactly while someone holds it |
| `Admission.StepKeepsCapped` | meter/limits.go:67-230 | no gate, shared limit, cell or address gate exceeds its maximum after any step |
| `Admission.RunKeepsInv` | service/admit.go:37-74 | both hold in every state of every interleaving of any number of admissions, rollbacks and releases |
| `Admission.RejectionLeavesNoTrace` | service/admit.go:37-74 | a rejected or closed admission leaves every counter and every address set as it found them |
| `AdmissionLimits.LimitsBind` | meter/limits.go:114-230 | at every moment of every run, by the configuration alone, no more connections are admitted through a gate, for a user over all its cells, or for a cell, than the limit allows |
| `AdmissionLimits.AddressesBind` | meter/limits.go:67-95 | the distinct source addresses of admitted connections stay within the address limit |
| `AdmissionLimits.OnlyRacesRepeat` | service/admit.go:37-74 | every step brings an admission, a roll-back or a release nearer to its end, except exactly a compare-and-swap whose counter someone else has changed |
| `KillSwitch.StepKeepsInv` | meter/meter.go:71-103 | every step keeps each admitted connection in exactly one place: live, ended, waiting for its kill or killed |
| `KillSwitch.RunKeepsInv` | meter/meter.go:187-288 | the same in every interleaving of opening, ending, disabling, enabling and the kill paths |
| `KillSwitch.KillsAtMostOnce` | meter/meter.go:249-288 | over a whole run a kill function is started at most once, and only for a connection that was admitted and did not end on its own |
| `KillSwitch.KillsExactly` | meter/meter.go:91-103 | Disable, KillConn, KillIP and the idle paths take exactly their targets out of the live map and queue each of them once |
| `KillSwitch.DisableSilences` | meter/meter.go:225-235 | after Disable has returned and until Enable the cell has no live connection and a later Open is not admitted |
| `KillSwitch.AdmittedIffSwitchedOn` | meter/meter.go:69-82 | in every run a connection gets an id nothing knows yet, and at the guard it goes live as what it is if and only if the last switching of its cell so far, if any, was an Enable |
| `KillSwitch.LiveUntilEnded` | meter/meter.go:84-88 | a live connection stays as it is until its own end or a kill path that is after it, and is gone then |
| `KillSwitch.KilledIffStarted` | meter/meter.go:90-103 | a kill function has run exactly if its start has come, and is then off the queue |
| `KillSwitch.NothingWaits` | meter/meter.go:187-233 | a connection can come to the guard until it has, a Disable can be called at any time, and its killing can follow until it has |
| `TokenBucket.Window` | meter/limits.go:37-54 | the bytes of any window of calls are at most burst plus rate times the time from its first call to the return of its last |
| `TokenBucket.DoneInOrder` | meter/limits.go:37-54 | callers may return in the order in which they took the lock |
| `TokenBucket.RateBound` | meter/limits.go:37-54 | by any time, the bytes of the calls that have returned are at most burst plus rate times the time since the start |
| `TokenBucket.SleepIsNeeded` | meter/limits.go:47-53 | the limiter is tight: a call that sleeps sleeps exactly until some window ending with it meets the bound |
| `TokenBucket.RateLimiter.constructor` | meter/limits.go:28-34 | a full bucket of one second's rate, at least 256 KiB |
| `TokenBucket.RateLimiter.Throttle` | meter/limits.go:37-54 | one call under the lock, in plain arithmetic: the bucket is refilled by rate times elapsed time up to the burst, less the bytes; sleep times rate is the debt left when there is one, and 0 otherwise |
| `Meter.ConnMeter.AddUp` | meter/meter.go:499-518 | counter plus remainder grow by exactly the bytes reported, the remainder stays below the threshold, and the counter is not touched below it |
| `Meter.ConnMeter.AddDown` | meter/meter.go:521-540 | the same for the other direction, leaving the first alone |
| `Meter.ConnMeter.Flush` | meter/meter.go:543-553 | both remainders move into the counters and are zero |
| `Meter.StepKeepsLedger` | meter/meter.go:499-553 | every step of any interleaving, with reports during and after a flush and a flush in the middle of a report or drain, keeps: counter plus outstanding remainders plus bytes missed equals bytes reported plus bytes doubled, modulo 2^64 |
| `Meter.RunKeepsLedger` | meter/meter.go:499-553 | in every run the counter is off by exactly the bytes that overlapping calls missed and doubled |
| `Meter.BalancedIffApart` | meter/meter.go:499-553 | a step keeps the balance of every cell and direction if and only if it does not store into a lane being flushed or over a remainder a flush has reset since, and does not add bytes that a flush or a drain has added |
| `Meter.ConservedIffApart` | meter/meter.go:499-553 | counter plus outstanding remainders equals the bytes reported, up to any moment of any run, if and only if every step so far was apart in that sense |
| `Meter.Conservation` | meter/meter.go:499-553 | in every run whose steps were apart: remainders between calls are below 128 KiB, and the counter is exact if and only if nothing is outstanding modulo 2^64, in particular when every lane of the cell is counted, being flushed or empty |
| `Meter.ReportAlone` | meter/meter.go:499-540 | a report nobody gets in between of: below 128 KiB the remainder grows by the bytes, else the counter takes all and the remainder is empty; nothing else changes |
| `Meter.FlushAlone` | meter/meter.go:543-553 | a flush nobody gets in between of moves the remainder into the counter |
| `Meter.SerialIsApart` | meter/meter.go:542 | callers that start no report during a flush of its lane and no flush during a report are apart in every run, reports after the flush included |
| `Meter.ReportInFlushIsLost` | outbound/connectip/inbound.go:163-207 | a run in which one pump still reports between the add and the reset of the flush that follows the end of the other: 15 bytes reported, 10 counted, nothing outstanding |
| `Meter.ReportInFlushIsDoubled` | meter/meter.go:503-517 | a run in which such a report reaches the threshold and counts again what the flush has counted |
| `MuxFrame.EncodeHeader` | muxcool/frame.go:184-206 | the buffer built by appending, with the length filled in at the end, is length, metadata and data length, or the error of an oversized name or header |
| `MuxFrame.WriteFrame` | muxcool/frame.go:245-271 | the bytes on the wire for every frame and data, with the data option set when there is data |
| `MuxFrame.AddrPortRoundTrip` | muxcool/frame.go:112-168 | an address is read back up to 4-in-6 normalisation if it is a name or has 4 or 16 bytes, and is an unexpected end otherwise |
| `MuxFrame.MetaRoundTrip` | muxcool/frame.go:184-237 | metadata is read back, without an address on frames that carry none |
| `MuxFrame.FrameRoundTrip` | muxcool/frame.go:245-342 | a frame that is accepted is read back, leaving the rest of the stream, exactly when it carries no address or a sendable one |
| `MuxLayout.WireLayout` | muxcool/frame.go:184-206 | a written frame byte by byte: metadata length, id, status and option, for status 1, or 2 with network 2, the network, the port and the address with type 1, 2 or 3, then the data length and the data when the lowest option bit is set; numbers high byte first |
| `MuxLayout.ReadsBack` | muxcool/frame.go:210-237 | by the status and network bytes: exactly frames with status 1, and 2 with network 2, are read back with their network, normalised address and port; of any other frame only id, status, option and data |
| `MuxLayout.WriteRefuses` | muxcool/frame.go:245-270 | refused are exactly data over 8192 bytes and, where a name would be written, a name over 255 bytes |
| `MuxLayout.ReadLayout` | muxcool/frame.go:301-342 | whatever bytes come in, a frame is read exactly when its metadata is whole, holds an address of a known type where it announces one, and its data is there; it is the frame these bytes spell, what is behind the address is ignored, and the bytes behind the frame are left |
| `MuxLayout.ReadRefuses` | muxcool/frame.go:301-342 | which error otherwise: a stream that ends too early unless a length is out of bounds or the address type unknown |
| `MuxFrame.FrameAccepted` | muxcool/frame.go:245-271 | only data over 8192 bytes and names over 255 bytes are refused |
| `MuxFrame.ReadNext` | muxcool/frame.go:301-342 | the frames of a stream come back one by one |
| `MuxFrame.WriteData` | muxcool/frame.go:275-288 | a payload becomes Keep frames of at most 8192 bytes that are all readable |
| `MuxFrame.KeepFramesCarry` | muxcool/frame.go:275-288 | cutting a payload into frames with status 2 of that id neither loses nor reorders a byte; all frames but the last hold 8192 bytes |
| `MuxStream.StepKeepsInv` | muxcool/server.go:238-275 | every step of the read loop, a pipe write, a consumer, a close or a removal keeps, for each TCP sub-stream, read plus buffered plus unwritten equal to what its frames carried |
| `MuxStream.SubStreamFaithful` | muxcool/pipe.go:30-88 | in every interleaving the bytes read from a sub-stream are a prefix of those sent on its id since it was opened, its buffer never exceeds 64 KiB, and nothing is missing while it is registered and open |
| `MuxArrivals.NewFrame` | muxcool/server.go:238-276 | in every run: a New for the name `reverse` is registered whatever the table holds; any other is ignored when its id is in the table or the table has 512 entries; network 2 is registered without a pipe; the rest open an empty sub-stream whose first data is the frame's |
| `MuxArrivals.OtherFrame` | muxcool/server.go:339-371 | Keep data goes to the sub-stream registered under its id, End takes the id out of the table, no other status does anything |
| `MuxArrivals.TakeIffIdle` | muxcool/server.go:126-143 | the read loop can take a frame exactly when it is not writing and not all that was sent has been read |
| `MuxArrivals.WaitsIffFull` | muxcool/pipe.go:30-52 | the loop waits exactly while the pipe is open and holds 65536 bytes; otherwise it puts in what fits, keeps the rest, and gives up on a closed pipe |
| `MuxArrivals.ConsumerSteps` | muxcool/pipe.go:55-88 | a consumer gets all it asks for that is there; closing closes; finishing removes the id and no other |
| `MuxServer.StepKeepsInv` | muxcool/server.go:204-371 | every step keeps table entries with their sessions, at most 512 data sessions and the closing account of each dialled connection |
| `MuxServer.RunSafe` | muxcool/server.go:204-371 | in every run whose control sessions use free ids: finishing removes the session's own entry and no other, at most 512 data sessions are registered, and a dialled connection is closed at most once, and exactly once when the session has ended and its landing is past installing or dropping it |
| `MuxServer.ShutdownComplete` | muxcool/server.go:223-234 | once `Run` has returned the table is empty and every session finished; of the sessions whose landing goroutine has returned, every dialled connection has been closed exactly once |
| `MuxSessions.FreeIdGoesOn` | muxcool/server.go:250-253 | in every run a New goes on to the room check exactly when its id was not in the table, whatever the other goroutines do meanwhile |
| `MuxSessions.NewAcceptedIffRoom` | muxcool/server.go:248-258 | a New gets as far as being registered if and only if its id was not in the table when it was checked and the table had fewer than 512 entries when the room was checked; a refused one leaves the loop ready for the next frame |
| `MuxSessions.Registers` | muxcool/server.go:260-276 | registering adds one new session of that id and network, open, dialling, not a control session, and changes no other entry |
| `MuxSessions.ControlRegisters` | muxcool/server.go:239-246 | a control frame is registered whatever the table holds |
| `MuxSessions.InstalledIffNotFinished` | muxcool/server.go:69-91 | a dialled connection is installed if and only if the finish of its session has not begun |
| `MuxSessions.KeepsFirst64` | muxcool/server.go:95-113 | until its connection is installed a UDP session keeps the first 64 datagrams delivered to it |
| `MuxSessions.NeverStuck` | muxcool/server.go:278-337 | a session whose landing goroutine is not over can always take a step towards its end |
| `MuxSessions.NeverBack` | muxcool/server.go:204-221 | no step of anyone takes a session back |
| `MuxSessions.CloserNeverStuck` | muxcool/server.go:223-234 | `closeAll` can always go on with any session it has left |
| `MuxSessions.StoppedForGood` | muxcool/server.go:126-132 | a failed read ends the loop for good: nothing is registered afterwards and `closeAll` may begin |
| `MuxServer.FreshWhenUnused` | muxcool/server.go:238-246 | control sessions use free ids in every run in which no earlier New frame used their id |
| `MuxClient.ClientIds.AllocId` | muxcool/client.go:126-142 | the search takes the first id behind the cursor that is neither 0 nor registered |
| `MuxClient.SearchEndsIffFree` | muxcool/client.go:126-142 | the search ends, wherever the cursor is, if and only if some id other than 0 is not registered |
| `MuxClient.HandsOut` | muxcool/client.go:126-142 | an unregistered id, such as the control sub-stream's, is handed out again exactly when everything between the cursor and it is registered |
| `MuxClient.FreshIffFirstTurn` | muxcool/client.go:126-142 | in every run of allocations, registrations and removals an allocated id was never handed out before if and only if fewer than 65535 allocations came before |
| `MuxClient.NothingWaits` | muxcool/client.go:126-160 | in every run an id can be allocated exactly when one other than 0 is not registered, and an id handed out can be registered from then on |
| `MuxServer.ControlNeedsFreeId` | muxcool/server.go:238-246 | entries stay with their sessions if and only if the control session's id is free |
| `MuxServer.DisplacedFinishRemovesControl` | muxcool/server.go:204-221 | when a displaced session finishes the control session loses its entry |
| `FakeIp.FreshShape` | dns/fakeip.go:69-115 | a fresh allocation takes the next slot of the ring and evicts exactly the name that took that slot one turn ago, if there is one |
| `FakeIp.AllocKeepsInv` | dns/fakeip.go:69-115 | after any query each family knows exactly the names of its last fresh allocations, each at its slot, and the shared map holds exactly those slots |
| `FakeIp.RunKeepsInv` | dns/fakeip.go:69-115 | the same after any run of queries of both families |
| `FakeIp.PoolFaithful` | dns/fakeip.go:33-139 | after any run names and addresses are inverse to each other, and every address lies in its prefix and is not the network address |
| `FakeIp.Stability` | dns/fakeip.go:69-102 | a name keeps its address and repeated queries change nothing while at most a ring of fresh allocations lies between; after a full ring without its own the name is gone |
| `FakeIp.InsideIffRoom` | dns/fakeip.go:45-48 | the first answer lies inside the prefix if and only if the prefix has at least two addresses |
| `FakeIp.FakeIpPool.constructor` | dns/fakeip.go:33-55 | an empty pool with the cursors behind the network addresses |
| `FakeIp.FakeIpPool.EvictLocked` | dns/fakeip.go:105-115 | an address in use is dropped together with the name that holds it, in whichever family |
| `FakeIp.FakeIpPool.Allocate` | dns/fakeip.go:69-102 | A and AAAA queries allocate from their family, other types get nothing and change nothing |
| `FakeIp.LookupInverts` | dns/fakeip.go:118-124 | a name is found under the address it was given if and only if that is not a v6 address standing for a v4 one, or the name also holds that v4 address |
| `FakeIp.FakeIpPool.Lookup` | dns/fakeip.go:118-124 | finds a name exactly when that name still answers with this address, 4-in-6 addresses being unmapped first |
| `ShadowQuicIds.IdTable.AllocId` | outbound/shadowquic/udp.go:189-201 | the bounded loop takes the first unused id at or after the cursor, and fails exactly when all 65536 are in use |
| `ShadowQuicIds.IdTable.FreeIds` | outbound/shadowquic/udp.go:203-209 | frees exactly the given ids |
| `ShadowQuicIds.StepKeepsInv` | outbound/shadowquic/udp.go:305-367 | every step of writers and closers keeps the ids in use exactly the ids held, each by one destination of one association |
| `ShadowQuicIds.NoSharedIds` | outbound/shadowquic/udp.go:305-367 | in every run no two destinations, of one or of different associations that are not closed down, hold the same id |
| `ShadowQuicIds.FreesExactly` | outbound/shadowquic/udp.go:352-367 | closing an association, or failing to announce an id, frees exactly the ids held for it and leaves everyone else's |
| `ShadowQuicIds.NothingLeaks` | outbound/shadowquic/udp.go:352-367 | when every association has been closed down no id is left in use |
| `ShadowQuicIds.TakenStays` | outbound/shadowquic/udp.go:357-363 | the map of send ids that Close took under the lock cannot change any more when it is read outside the lock |
| `ShadowQuicIds.CloseIsHistory` | outbound/shadowquic/udp.go:352-367 | an association is closed, its ids are taken and freed exactly when its Close has come that far |
| `ShadowQuicIds.WriteGetsId` | outbound/shadowquic/udp.go:314-331 | a write to a new destination that finds an id and announces it gives the destination that id, whatever others do in between |
| `ShadowQuicIds.EnterHoldsLock` | outbound/shadowquic/udp.go:314-326 | a writer inside keeps others out and can always ask for an id |
| `ShadowQuicIds.CloseGoesOn` | outbound/shadowquic/udp.go:352-367 | a Close that has signalled can always come nearer to its end |
| `ShadowQuicIds.NothingWaits` | outbound/shadowquic/udp.go:305-367 | what can happen to an association at any moment, by what has happened to it |
| `ShadowQuicRecv.RecvTable.TakeDatagram` | outbound/shadowquic/udp.go:88-101 | a datagram is handed to the owner of its id, or parked while there is room |
| `ShadowQuicRecv.RecvTable.BindId` | outbound/shadowquic/udp.go:163-177 | the id gets its owner, the ready signal is closed at most once, and the parked datagrams go out in order |
| `ShadowQuicRecv.RecvTable.UnbindIds` | outbound/shadowquic/udp.go:179-187 | exactly the given slots that the association owns disappear |
| `ShadowQuicRecv.StepKeepsInv` | outbound/shadowquic/udp.go:88-187 | every step keeps each datagram parked, on its way or handed over, and never in two of these places |
| `ShadowQuicRecv.ParkingSafe` | outbound/shadowquic/udp.go:88-187 | in every run an owned slot has nothing parked and any slot at most 32 datagrams; each datagram is under way at most once and handed over at most once, to an association that announced its id and with the announced address |
| `ShadowQuicRecv.ArriveKeeps` | outbound/shadowquic/udp.go:88-101 | an arriving datagram is dropped exactly when its id has no owner and 32 datagrams are parked |
| `ShadowQuicRecv.NothingLost` | outbound/shadowquic/udp.go:88-187 | once a datagram has found room, no later bind, unbind or delivery of any run loses it before it is handed over |
| `ShadowQuicRecv.DropFrees` | outbound/shadowquic/udp.go:179-187 | a closing association takes away, among the given ids, the slots it owns and no other |
| `Groups.AllBuilt` | config/config.go:639-679 | when nothing is left to build every group was valid, every member defined, and no groups wait for each other |
| `Groups.StuckDeadlocked` | config/config.go:670-676 | after a pass without progress the names not in the table are a set in which every group of such a name waits for such a name |
| `Groups.DeadlockIffCycle` | config/config.go:670-676 | with distinct names, groups that wait for each other are exactly the cycles of the references |
| `Groups.ScanMembers` | config/config.go:643-655 | a group is ready exactly when all members are known; otherwise the scan names one that is not built yet or not defined |
| `Groups.Pass` | config/config.go:640-669 | a pass builds groups soundly and shrinks what remains, or leaves everything as it is with each group waiting for another |
| `Groups.BuildGroups` | config/config.go:629-680 | for any configuration, terminates and succeeds if and only if every group is valid alone, every member is defined and no groups wait for each other; with distinct names the last means acyclic references, every group then holds the final entries of its members, and all other outbounds are unchanged |
| `Groups.EdgeMap` | config/config.go:712-717 | the edges are the non-empty dialers, the last line for a name counting |
| `Groups.WalkFrom` | config/config.go:719-725 | the walk from one outbound terminates, finding a loop or the end of the chain |
| `Groups.RejectsDialers` | config/config.go:711-726 | rejects exactly the configurations whose dialers form a cycle |
| `NaivePadding.OneFrame` | outbound/naive/padding.go:87-99 | a reader between two frames gets exactly the data out of a frame, whatever its padding, and is between two frames again |
| `NaivePadding.SendBehind` | outbound/naive/padding.go:87-102 | a frame or raw data sent behind whole frames adds exactly its data to what any reader will get, wherever the reader is |
| `NaivePadding.PaddingConn.Read` | outbound/naive/padding.go:41-84 | for every buffer size and every short read the reader returns the next part of what the wire means to it, also across the switch to the raw stream and when the end of the stream comes together with bytes; it consumes something unless a read underneath came back empty |
| `NaivePadding.PaddingConn.WriteOne` | outbound/naive/padding.go:87-102 | for every padding size one chunk adds exactly its data to what any reader in step will get; if the writer underneath fails, at least the count returned and at most the chunk |
| `NaivePadding.PaddingConn.Write` | outbound/naive/padding.go:105-120 | the same for data of any length, in pieces of 65535 bytes; the first eight pieces ever written are spelled as length, padding size, data and zeros, all later ones as the data alone |
| `NaivePadding.PayloadPrefix` | outbound/naive/padding.go:41-84 | a cut-off stream means a prefix of what the whole one means, wherever the cut is |
| `NaivePadding.ReadsPrefix` | outbound/naive/padding.go:41-120 | in every interleaving of writes and reads, with failing writes and an end of stream anywhere, the bytes read are a prefix of the bytes written, and all of them once the wire is empty and no write has failed |
| `NaivePadding.CallWrite` | outbound/naive/padding.go:105-120 | every call of `Write` on the sending end is a write step of the runs above |
| `NaivePadding.CallRead` | outbound/naive/padding.go:41-84 | every call of `Read` on the receiving end is a read step of the runs above |
| `NaivePadding.Drive` | outbound/naive/padding.go:41-120 | any sequence of calls on two connected ends is such a run: what is read is a prefix of what is written, and all of it once the wire is empty and no write has failed |

## Left out

- SingDomainSet.Has: requires fewer than 2^31 labels, because above that the int32 table of one-counts is wrong (`SuccinctBits.WordOnesExact`).
- RuleMeaning.Route: requires at most 2^32 - 1 rules, for the same reason as `RuleEngine.Compile`.
- RuleEngine.Compile: says which tables are accepted for any length, but nothing about the indexes of tables with more than 2^32 - 1 rules, because ordinals are uint32 and the last value means no match.
- RecordChannel.NoNonceReuse: counts keys by their place in the connection; that two derivations never give the same key is a property of the hash.
- TokenBucket.RateLimiter.Throttle: uses real numbers, so float64 rounding and the truncation of the sleep to nanoseconds are not captured.
- ShadowQuicIds.StepKeepsInv: covers send ids only; which receive ids an association removes when it closes is not fixed by the code, so `ShadowQuicRecv` lets that set be arbitrary.
- The engine's maps and lists are one map and one list with tagged keys; that they are separate Go values does not matter to routing.
- The mihomo wildcard matcher over the same bit layer (ruleset/succinct.go:108-164): its scan does not stop at node boundaries, so it has no set meaning to state.
- Changing limits while connections are open: releases then use other limiter objects than the admission did.
- Meters without a cell (rate limiting only) keep no counters and are not part of `Meter`.
- The order in which UDP datagrams reach a target around activation and binding, which the code does not fix.
- The list of groups that need health probes, and everything about building a single group.
- The rest of `wireDialers` behind the cycle check, and cycles through a mix of groups and dialers.
- MuxClient.ClientIds.AllocId: is stated for a table with a free id; with all 65535 ids registered the search does not end (`MuxClient.SearchEndsIffFree`).
- The rest of the Mux.cool client side, and the bytes of responses sent back by the server.
- A link that goes on after a write or a read on it has failed: a failed link is taken to stay failed.
- ShadowQUIC stream mode and the delivery queue behind an association, whose overflow drops datagrams.
- Handshakes, key exchange and padding generation of VLESS encryption.
- Regular expressions, protobuf and YAML parsing, DNS messages, mmdb, TLS, QUIC and HTTP libraries, sockets and TUN devices.
- Buffer pooling and slice aliasing, except where a caller's buffer is transformed in place.
- Wrap-around of the 64-bit connection sequence number.
- Address and header codecs of the other protocols, which are round trips of the same kind as Mux.cool's.
