# dns-wrapper: a Dafny model

dns-wrapper is a DNS forwarder steered by rules. This project models the parts of it whose
correctness is not evident from reading one function, and proves what they keep over every
input and every run. The model follows the code as written; where the code and its evident
intent differ, the difference is exhibited and the exact condition under which the code does
what is intended is proved.

The modules follow the program:

- `Bytes`: octets, big-endian fields, and where octets lie in a buffer.
- `RuleCodec`, `RuleStore`, `RuleMatch`, `RuleRuns`, `RuleEngine`: the packed rule store. The
  class `RuleEngine.Engine` runs the loops of the source over a byte array; `RuleStore` gives
  the bytes after each operation; `RuleRuns` compares whole runs with a plain list of rules.
- `Names`, `PacketBuffer`, `Packets`, `PacketRoundTrip`, `PacketLayout`, `PacketIO`: the wire
  codec, with the expansion of compressed names of section 4.1.4 of RFC 1035 as an independent
  definition. `PacketLayout` says it in octets and numbers.
- `Sha256Constants`, `Sha256Spec`, `Sha256`, `PacketHash`: the digest of the questions;
  `Sha256Spec` is FIPS 180-4 on whole messages, `Sha256.Context` the buffered implementation.
  `Sha256Laws` and `Sha256Known` tie the definition to the standard: what its functions do to
  bits, where its constants come from, and a published digest.
- `PeerTable`, `PeerRequests`, `SourceLists`, `ServerStep`, `DnsServer`, `ServerRuns`,
  `ServerDelivery`, `ServerReplies`: the table of requests in flight and the two handlers as
  steps of a state machine. `SourceLists` has the linked nodes. `ServerRuns` and
  `ServerDelivery` are about every run, `ServerReplies` about what each step sends and counts.
- `EthMappings`, `Latency`: the table of hardware addresses and the moving average.

## Reading the model

- Byte sequences such as names, packed fields and addresses are sequences of numbers below
  256; the words of SHA-256 are bit vectors.
- The lists of `PeerRequests` are kept tail first, so that putting a node in front of a list
  leaves all other positions unchanged. The field `token` of a source or a refusal and the
  fields `token`, `digest` and `step` of an answer are history: they record the step of the
  client's query and the response an answer came from. Nothing that is sent depends on them.
- Clock readings, random draws, the result of validating a packet and the latency sample are
  inputs. The random generator is a sequence of draws; a query is enabled when one of them is
  unused, and `NeverStuck` shows that 151 different draws always do.
- `ServerStep.Event` leaves the timeout test of a repeated query open, so that the theorems
  hold for either answer; `DnsServer.HasTimedOut` is the test as written.
- `Undefined` is the outcome of reads that leave the buffer or the name array.
- The rule store has one byte more than the array of the source, because the insertion loop
  can write the byte after the array.
- Fields that the source copies as they lie in memory have the least significant octet first:
  the two 32-bit enumerations of a rule header, and the type and class of a hashed question.

## Where the code departs from its intent

Each departure has the exact condition under which the code still does what is intended, and a
concrete input on which it does not.

- Insertion before the end shifts one byte too few: `InsertRefines`, `RunIff` and
  `InsertThenDelete` give the condition, `InsertionLosesARule` a concrete loss.
- The same loop stores a byte behind the 8192 of the array when the insertion fills them
  exactly: `ByteBehind` and `WithinArrayIff` give the condition, `InsertionSpills` a store.
- After two or more pointers `ReadLabel` leaves the cursor behind the last one:
  `CursorRightIff`, `TwoJumpsMisplaceTheCursor`.
- `WriteLabel` does not write its terminator: `WrittenNameIff`, `UnterminatedName`. The empty
  name takes two octets when written and one when read, and labels over 63 octets are not
  refused: `NameRoundTripIff` for names, `PacketBackIff` for whole packets.
- OPT octets are not written: `RecordBackIff`, `OptOctetIsLost`. `VREAD_U32` checks two octets
  and takes four: `U32DependsOnMessageOnlyIff`, `U32ReadsBehind`.
- The timeout test compares an absolute time with ten seconds: `RepeatRegistersIff`,
  `RepeatRegistersAsWritten`, `SecondClientIsLost`. The branch it guards drops every client
  but the first: `QueryKeepsIff`; with the test as written it never has another client to
  drop: `NeverDropsAsWritten`.
- The fields that are hashed are not separated: `SameInputIff`, `InputDeterminesIff`,
  `QuestionsCollide`.
- The hardware address table drops its newest entry: `DropsOldestIff`, `NewestIsDropped`.

## Model

| member | source | states |
|---|---|---|
| `RuleCodec.DecodeIff` | src/rule/shm.cpp:169-201 | Walking the bytes with `nextRule` yields a list of rules exactly when the bytes are the packing of that list, and the cursor then stops right behind it. |
| `RuleCodec.NextRuleOfEncode` | src/rule/shm.cpp:169-201 | A packed rule, wherever it lies, is what `nextRule` returns. |
| `RuleCodec.EncodeOfNextRule` | src/rule/shm.cpp:169-201 | Whatever `nextRule` returns is packed at the cursor, byte for byte. |
| `RuleCodec.PackedLayout` | include/rule/shm.hpp:26-46 | Where the fields of a packed rule lie, in octets: 8 of header, then 20, 6 and 20 as the types call for them. |
| `RuleStore.InsertRefines` | src/rule/shm.cpp:203-286 | Insertion refines list insertion exactly when nothing lies behind the insertion point or the byte that is not moved already has the right value; with the intended shift always; a rejected insertion changes nothing. |
| `RuleStore.ByteBehind` | src/rule/shm.cpp:248-257 | The byte behind the array after an insertion: that behind the live bytes when the loop as written inserts before the end and fills the array exactly, and the old one in every other case. |
| `RuleStore.WithinArrayIff` | src/rule/shm.cpp:248-257 | For all bytes the one behind the array keeps its value exactly when the insertion is not of that kind, or inserts nothing. |
| `RuleStore.DeleteRefines` | src/rule/shm.cpp:288-325 | Deletion refines list deletion, and an index past the end changes nothing. |
| `RuleRuns.StepImplements` | src/rule/shm.cpp:124-167 | Each public operation keeps the store in step with list and policy exactly when its insertion, if any, is safe; used bytes stay within 8192. |
| `RuleRuns.OperationsMean` | src/rule/shm.cpp:124-167 | What each operation does to list and policy, and that a rule beyond 8192 octets or an index past the end changes nothing. |
| `RuleRuns.RunIff` | src/rule/shm.cpp:124-330 | Over a whole run every prefix decodes to what the list operations give exactly when every insertion meets the seam condition at its turn. |
| `RuleRuns.IntendedRunsImplement` | src/rule/shm.cpp:203-330 | With the intended shift every run refines the list. |
| `RuleRuns.AppendRunsImplement` | src/rule/shm.cpp:124-136 | As written, every run of appends, deletions, clears and policy changes refines the list. |
| `RuleRuns.RunsFromEmpty` | src/rule/shm.cpp:124-330 | From an empty store with any bytes: every run refines the list with the intended shift; as written it does exactly when every insertion is safe, and always without insertions. |
| `RuleRuns.InsertThenDelete` | src/rule/shm.cpp:203-325 | After an insertion at an index the store holds some list whose deletion at that index restores count and live bytes exactly when the seam was right. |
| `RuleRuns.InsertionLosesARule` | src/rule/shm.cpp:255-257 | A concrete store on which inserting in front of a rule changes that rule. |
| `RuleRuns.InsertionSpills` | src/rule/shm.cpp:255-257 | A store of 577 rules in which one more changes the byte behind the array. |
| `RuleMatch.FirstMatchDecides` | src/rule/shm.cpp:64-122 | A rule decides when it matches and none before it does: action 0 resolves, action 1 redirects to its 16 octets. With no match the policy decides: action 0 resolves, any other redirects to the target of the query's family. |
| `RuleMatch.DecisionSource` | src/rule/shm.cpp:90-119 | Exactly one rule or the policy is responsible and is followed in that sense, and a redirect by a rule has a target of the query's family. |
| `RuleMatch.RuleForClient` | src/rule/shm.cpp:70-94 | A rule made for a client matches exactly the queries with its address, its hardware address, or both, as the type says; a redirecting one only queries of its target's family, which it answers with that target. |
| `RuleMatch.AppendOnlyExtends` | src/rule/shm.cpp:124-136 | Appending a rule changes the decision only for inputs no existing rule matches. |
| `RuleEngine.Engine.Next` | src/rule/shm.cpp:169-201 | `nextRule` at the cursor of rule `i` returns rule `i` and the cursor of the next. |
| `RuleEngine.Engine.InsertRules` | src/rule/shm.cpp:203-286 | The loops of `insertRules` produce exactly the bytes, size and count of the specification. |
| `RuleEngine.Engine.ShiftUp` | src/rule/shm.cpp:255-257 | The bytes after the shifting loop as written, position by position. |
| `RuleEngine.Engine.AppendRule` | src/rule/shm.cpp:124-136 | The rules held are the old ones and the new one; it succeeds exactly when the rule fits; otherwise nothing changes. |
| `RuleEngine.Engine.InsertRule` | src/rule/shm.cpp:138-147 | Success exactly when the rule fits, and then the list is refined exactly under the seam condition. |
| `RuleEngine.Engine.DeleteRule` | src/rule/shm.cpp:149-152 | Deleting refines the list; it succeeds exactly for an existing index. |
| `RuleEngine.Engine.ShiftDown` | src/rule/shm.cpp:319-321 | The bytes after the loop of `deleteRule`. |
| `RuleEngine.Engine.ClearRules` | src/rule/shm.cpp:327-330 | The empty list; policy and bytes stay. |
| `RuleEngine.Engine.SetPolicy` | src/rule/shm.cpp:159-167 | The new policy; the rules stay. |
| `RuleEngine.Engine.Evaluate` | src/rule/shm.cpp:64-122 | The walk over the packed bytes decides as first match over the list. |
| `RuleEngine.Tests` | src/rule/shm.cpp:70-94 | The tests on one rule pass exactly when the rule matches. |
| `RuleEngine.PackedSize` | src/rule/shm.cpp:212-231 | The size loop computes the length of the packing. |
| `Names.ReadNameIffExpands` | src/dns/dnsquestion.cpp:29-85 | `ReadLabel` yields a nonempty name exactly when section 4.1.4 of RFC 1035 expands to it with at most four pointers and it fits the name array. |
| `Names.ReadNameErrIff` | src/dns/dnsquestion.cpp:29-85 | It reports an error exactly when nothing expands there with at most four pointers, pointer cycles included, and no labels read on the way overflow the name array. |
| `Names.ReadNameOfExpansion` | src/dns/dnsquestion.cpp:29-85 | The exact outcome, name and cursor, for everything that expands. |
| `Names.ExpansionUnique` | src/dns/dnsquestion.cpp:45-72 | The octets determine labels and number of pointers. |
| `Names.CursorRightIff` | src/dns/dnsquestion.cpp:46-55 | The cursor ends where section 4.1.4 puts it exactly when at most one pointer was followed. |
| `Names.PointerHoldsOffset` | src/dns/dnsquestion.cpp:46-48 | The two octets of a pointer hold every offset of 14 bits. |
| `Names.NameBehindPointer` | src/dns/dnsquestion.cpp:45-72 | A pointer from anywhere to a written name at any such offset reads as that name and takes two octets. |
| `Names.NameBeyond255` | src/dns/dnsquestion.cpp:46-48 | A message whose name lies at offset 256. |
| `Names.TwoJumpsMisplaceTheCursor` | src/dns/dnsquestion.cpp:53-54 | A concrete message with two pointers whose cursor ends behind the second. |
| `Names.NameRoundTripIff` | src/dns/dnsquestion.cpp:114-140 | A written name is read back, with the cursor behind it, exactly when every label has 1 to 63 octets and the name fits the array. |
| `Names.TwoLabelsInOctets` | src/dns/dnsquestion.cpp:114-140 | The octets of a name of two labels, written and read. |
| `Names.LengthOctetOfLabel` | src/dns/dnsquestion.cpp:129 | The length octet is the length of the label modulo 256. |
| `Names.ErrorNumbers` | src/dns/dnsquestion.cpp:37-64 | The error numbers for short messages, labels and pointers that lead past the end, and reserved length octets. |
| `Names.CStringIs` | src/dns/dnsquestion.cpp:125-128 | A C string is the part before the first NUL. |
| `Names.DotFreeLabelsAreGood` | src/dns/dnsquestion.cpp:29-85 | The text of expanded labels without dots has 1 to 63 octets between dots. |
| `Names.ReadAsWrittenIsGood` | src/dns/dnsquestion.cpp:29-140 | A written name that reads as the C string it was has good labels, wherever the cursor ends and whatever pointers its octets happen to form. |
| `Names.WireTextDot` | src/dns/dnsquestion.cpp:129-130 | A dot closes the last label and opens an empty one. |
| `Names.WireTextChar` | src/dns/dnsquestion.cpp:131-134 | Any other octet lengthens the last label, whose length octet is the only one that changes. |
| `PacketBuffer.WrittenNameIff` | src/dns/dnsquestion.cpp:137-138 | `WriteLabel` leaves a terminated name exactly when the terminator slot was zero before; on a zero tail it writes exactly the wire form. |
| `PacketBuffer.UnterminatedName` | src/dns/dnsquestion.cpp:137-138 | In a buffer of ones a written name is not terminated. |
| `PacketBuffer.ScanLabels` | src/dns/dnsquestion.cpp:29-85 | The loop ends for every message and computes the specified outcome and the cursor after success and after an error. |
| `PacketBuffer.ErrorCursorMoves` | src/dns/dnsquestion.cpp:37-73 | After an error in a name that starts within the message the cursor is within the message, behind at least one octet. |
| `PacketBuffer.Buffer.ReadLabel` | src/dns/dnsquestion.cpp:29-85 | On the buffer it computes the specified outcome, overflow of the name array included, and leaves the specified cursor, after an error behind the last octet read. |
| `PacketBuffer.Buffer.WriteLabel` | src/dns/dnsquestion.cpp:124-140 | The back-patching loop produces exactly the specified buffer and cursor. |
| `PacketRoundTrip.HeaderBack` | src/dns/dnsheader.cpp:15-86 | A written header is read back. |
| `PacketLayout.HeaderOctets` | src/dns/dnsheader.cpp:15-86 | The twelve octets of a header. |
| `PacketLayout.QuestionOctets` | src/dns/dnsquestion.cpp:142-152 | The octets of a question. |
| `PacketLayout.RecordOctets` | src/dns/dnsrecord.cpp:104-110 | The octets of a record before its data. |
| `PacketLayout.DataOctets` | src/dns/dnsrecord.cpp:111-132 | The octets of names and preferences, and that OPT has none. |
| `PacketLayout.AddressOctets` | src/dns/dnsrecord.cpp:112-131 | The octets of both kinds of address. |
| `PacketLayout.TypeNumbers` | src/dns/dnsrecord.cpp:37-77 | Which number calls for which data, and the errors for other numbers, for OPT outside the additional section and for OPT with too few octets. |
| `PacketLayout.ShortReads` | include/net/netcommon.h:50-64 | Reads that find too few octets report error 1. |
| `PacketLayout.KnownMessage` | src/dns/dnspacket.cpp:33-50 | A message in octets with all four sections and the packet it is read as. |
| `PacketRoundTrip.QuestionBack` | src/dns/dnsquestion.cpp:87-152 | A written question with a good name is read back. |
| `PacketRoundTrip.DecompressionPreserves` | src/dns/dnsquestion.cpp:29-140 | A name that was read, compressed or not, root and labels with NUL included, is read back after being written anywhere exactly when it has 1 to 63 octets between dots. |
| `PacketRoundTrip.RecordBack` | src/dns/dnsrecord.cpp:28-135 | A written A, NS, CNAME, MX or AAAA record with good names is read back. |
| `PacketRoundTrip.RecordBackIff` | src/dns/dnsrecord.cpp:57-132 | For every name without NUL, the root included, a record comes back exactly when its names are good and it is not OPT, or is an additional OPT without octets and with length zero. |
| `PacketRoundTrip.OptOctetIsLost` | src/dns/dnsrecord.cpp:57-132 | An additional OPT record with one octet that does not come back. |
| `PacketRoundTrip.PacketBack` | src/dns/dnspacket.cpp:33-109 | Reading a written packet gives all its parts back, and the cursor ends at the written length. |
| `PacketRoundTrip.PacketBackIff` | src/dns/dnspacket.cpp:33-109 | For every packet without OPT: written then read it comes back, with the cursor at the written length, exactly when every name is nonempty with labels of 1 to 63 octets. |
| `PacketRoundTrip.RecordOnlyIf` | src/dns/dnsrecord.cpp:28-135 | A record read as it was written is good, or its last name is empty and the cursor is short. |
| `PacketRoundTrip.ShortSections` | src/dns/dnspacket.cpp:28-43 | From a short cursor the record sections are never read up to their end. |
| `PacketRoundTrip.U32DependsOnMessageOnlyIff` | include/net/netcommon.h:64 | A 32-bit read stays within the buffer and depends only on the message exactly when the message does not end after its second or third octet. |
| `PacketRoundTrip.U32ReadsBehind` | include/net/netcommon.h:64 | A 32-bit read of a two-octet message takes the two octets behind it, or leaves a buffer that the message fills. |
| `PacketIO.GetPacket` | src/dns/dnspacket.cpp:33-50 | The reading loops compute the specified outcome and cursor. |
| `PacketIO.GetRecord` | src/dns/dnsrecord.cpp:28-77 | `DnsRecord::Read` computes the specified outcome and cursor. |
| `PacketIO.GetQuestion` | src/dns/dnsquestion.cpp:87-97 | `DnsQuestion::Read` computes the specified outcome and cursor. |
| `PacketIO.GetHeader` | src/dns/dnsheader.cpp:15-31 | `DnsHeader::Read` computes the specified outcome and cursor. |
| `PacketIO.PutPacket` | src/dns/dnspacket.cpp:98-109 | On a zero tail the writing loops store exactly the encoding, and the tail behind the cursor is still zero. |
| `PacketIO.PutRecord` | src/dns/dnsrecord.cpp:104-135 | The same for one record. |
| `PacketIO.PutQuestion` | src/dns/dnsquestion.cpp:142-152 | The same for one question. |
| `PacketIO.WroteMore` | src/dns/dnspacket.cpp:91-109 | Writes in a row are one write, and keep the tail zero. |
| `PacketIO.WriteThenRead` | src/dns/server.cpp:390-393 | Any packet with good names, written into a fresh buffer and read from it, comes back. |
| `Sha256.Context.Transform` | src/tp/sha256.cpp:46-85 | The loops compute the compression function of section 6.2.2 of FIPS 180-4. |
| `Sha256.Schedule` | src/tp/sha256.cpp:49-53 | The message schedule. |
| `Sha256.Context.Update` | src/tp/sha256.cpp:100-112 | The octets are appended to the message absorbed so far. |
| `Sha256.Context.Final` | src/tp/sha256.cpp:114-157 | The result is the digest of the whole message, through either padding branch. |
| `Sha256.Context.PadBuffer` | src/tp/sha256.cpp:117-130 | After either branch all blocks but the last are absorbed and the last lacks only its length. |
| `Sha256.PadTail` | src/tp/sha256.cpp:119-130 | The last one or two blocks of the message padded per section 5.1.1. |
| `Sha256.AbsorbPrefix` | src/tp/sha256.cpp:100-112 | Absorbed blocks do not depend on what follows. |
| `Sha256.HashChunks` | src/tp/sha256.cpp:87-157 | Any split of a message into updates gives the digest of the concatenation. |
| `Sha256Known.AbcDigest` | src/tp/sha256.cpp:87-157 | The digest of "abc" is the published one. |
| `Sha256Laws.ChChooses` | src/tp/sha256.cpp:24 | `CH` takes its bits from the second word where the first has ones and from the third where it has zeros. |
| `Sha256Laws.MajDecides` | src/tp/sha256.cpp:25 | Where two of three words agree `MAJ` is what they agree on. |
| `Sha256Laws.Rotr2` | src/tp/sha256.cpp:22 | Rotation divides by a power of two and puts the remainder on top; the lemmas behind it say so for the other nine distances. |
| `Sha256Laws.LengthOctets` | src/tp/sha256.cpp:134-142 | The last octet of the length field is the length modulo 256, and those before it are the field of the rest. |
| `Sha256Laws.PaddedShape` | src/tp/sha256.cpp:117-142 | The padded message: the message, a one bit, the least number of zeros, and the length in bits in the last eight octets. |
| `Sha256Laws.FeedForward` | src/tp/sha256.cpp:60-84 | The rounds start with the hash value and are added to it. |
| `Sha256Laws.BlockByBlock` | src/tp/sha256.cpp:100-112 | The message is absorbed block by block from the initial value. |
| `Sha256Laws.InitialFromPrimes` | src/tp/sha256.cpp:87-98 | The initial words are the first 32 bits behind the point of the square roots of the first eight primes. |
| `Sha256Laws.Constants0` | src/tp/sha256.cpp:32-43 | The first sixteen round constants are those bits of the cube roots of the first primes. |
| `Sha256Laws.Constants16` | src/tp/sha256.cpp:32-43 | The next sixteen. |
| `Sha256Laws.Constants32` | src/tp/sha256.cpp:32-43 | The next sixteen. |
| `Sha256Laws.Constants48` | src/tp/sha256.cpp:32-43 | The last sixteen. |
| `PacketHash.Hash` | src/dns/dnspacket.cpp:111-124 | The digest of a packet is the SHA-256 digest of its questions' octets. |
| `PacketHash.DigestOfQuestions` | src/dns/dnspacket.cpp:111-124 | The digest is SHA-256 of all questions' octets and depends on nothing else in the packet. |
| `PacketHash.UpdateDigest` | src/dns/dnsquestion.cpp:156-163 | Name, type and class are appended to the hashed message. |
| `PacketHash.CompressionIrrelevant` | src/dns/dnsquestion.cpp:29-163 | Questions whose names expand to the same labels contribute the same octets, however compressed. |
| `PacketHash.SameInputIff` | src/dns/dnsquestion.cpp:156-163 | For questions whose classes but the last are below 256 the hashed octets are equal exactly when the questions are, in number and order. |
| `PacketHash.InputDeterminesIff` | src/dns/dnsquestion.cpp:156-163 | For every set of classes with that of the Internet: the hashed octets determine questions whose classes but the last are in the set exactly when the whole set is below 256. |
| `PacketHash.ClassCollides` | src/dns/dnsquestion.cpp:156-163 | Every class of 256 and more has a colliding pair, whether its low octet is zero or not. |
| `PacketHash.OneQuestionIff` | src/dns/dnsquestion.cpp:156-163 | A single question is determined by its hashed octets, whatever its class. |
| `PacketHash.QuestionsCollide` | src/dns/dnsquestion.cpp:156-163 | One question and a pair of questions of greater class that are hashed alike. |
| `PeerTable.RefusedIff` | src/bookkeeping/peer.cpp:61-84 | A new query is refused exactly when all 150 records are in flight and younger than 10 s, and then nothing changes. |
| `PeerTable.GrantedMeaning` | src/bookkeeping/peer.cpp:61-107 | Otherwise a free record is handed out; records of 40 s and more are freed; at most one other, the oldest and 10 s old, is evicted; younger ones are untouched; the table grows only when all are younger and stays within 150, with no assumption on the clock. |
| `PeerTable.EvictedIff` | src/bookkeeping/peer.cpp:61-107 | A request is taken off its record, which notes it, exactly when it is 40 s old, or 10 s old and the oldest in a table without a free or a 40 s old record. |
| `PeerTable.ReplaceKeeps` | src/bookkeeping/peer.cpp:39-54 | When replacing a record keeps IDs, digests and clients distinct and all source nodes accounted for. |
| `PeerTable.FreeKeeps` | src/bookkeeping/peer.cpp:39-54 | Freeing a record keeps the table invariant; its nodes go to the free list. |
| `PeerTable.NoSourceIff` | src/bookkeeping/peer.cpp:153-171 | No node is to be had exactly when all 150 are attached to requests. |
| `PeerTable.FreshIdExists` | src/bookkeeping/peer.cpp:173-192 | By counting, an unused ID exists whatever 150 records hold. |
| `PeerTable.FairDrawsSucceed` | src/bookkeeping/peer.cpp:173-192 | The draws find an unused ID once they hold more different values than there are records. |
| `PeerTable.FirstFreshIsFirst` | src/bookkeeping/peer.cpp:173-192 | The ID is the first of the draws that is not in use. |
| `PeerTable.PlainFlagsIff` | src/dns/server.cpp:458-460 | The lookup by digest asks for the three flags 1, 2 and 4 to be clear. |
| `PeerTable.LookupsUnique` | src/bookkeeping/peer.cpp:120-151 | Both lookups can only find the one record with that digest. |
| `PeerRequests.Requests.GetNewRecord` | src/bookkeeping/peer.cpp:56-108 | The method computes the specified table and record. |
| `PeerRequests.Requests.Collect` | src/bookkeeping/peer.cpp:63-79 | The loop frees what is stale and finds the last free record, the oldest and the number of young ones. |
| `PeerRequests.Requests.Visit` | src/bookkeeping/peer.cpp:64-74 | One round of that loop on the table and two of its variables. |
| `PeerRequests.Requests.FreePeerRequestRecord` | src/bookkeeping/peer.cpp:39-54 | The chain is moved in front of the free list, the record is free. |
| `SourceLists.Splice` | src/bookkeeping/peer.cpp:44-51 | On the links: walking to the last node and linking the free list behind it gives one list of all nodes, each once, which holds the sequence that freeing the record gives. |
| `SourceLists.Take` | src/bookkeeping/peer.cpp:156-168 | On the links: a node is created or comes off the front, and the rest is the list without it. |
| `SourceLists.Attach` | src/dns/server.cpp:488-491 | On the links: the node becomes the front of the chain. |
| `PeerRequests.Requests.Lookup` | src/bookkeeping/peer.cpp:120-135 | The search by ID and digest. |
| `PeerRequests.Requests.LookupByQuery` | src/bookkeeping/peer.cpp:137-151 | The search by digest and flags. |
| `PeerRequests.Requests.GetNewPeerSource` | src/bookkeeping/peer.cpp:153-171 | A node is created or taken from the free list. |
| `PeerRequests.Requests.GetNewId` | src/bookkeeping/peer.cpp:173-192 | The first draw that no request in flight uses. |
| `DnsServer.Forwarder.Resolve` | src/dns/server.cpp:443-521 | The method is one query step of the state machine, with the timeout test as written. |
| `DnsServer.Forwarder.JoinRequest` | src/dns/server.cpp:462-495 | A query for a question already asked is refused, ignored or added to the record's sources. |
| `DnsServer.Forwarder.OpenRequest` | src/dns/server.cpp:499-512 | A query for a new question takes a record, an ID and the digest. |
| `DnsServer.Forwarder.ForwardToAll` | src/dns/server.cpp:514-520 | The packet goes to every server and the record counts as sent. |
| `DnsServer.Forwarder.ProcessUpstreamResponse` | src/dns/server.cpp:281-353 | The method is one response step of the state machine. |
| `DnsServer.Forwarder.PassOn` | src/dns/server.cpp:322-350 | Statistics, answers and freeing, after the lookups. |
| `DnsServer.Forwarder.AnswerAll` | src/dns/server.cpp:341-348 | Every source of the record gets the packet under its own ID, in list order. |
| `ServerRuns.StepKeeps` | src/dns/server.cpp:281-521 | Every step keeps the table invariant and the history. |
| `ServerRuns.RunKeeps` | src/dns/server.cpp:281-521 | In every state of every run: at most 150 records; IDs in 1..65535 and digests pairwise distinct; nodes conserved and at most 150; free records without chains; no client twice on a record; every waiting client registered with a query of the record's digest that has had no reply. |
| `ServerRuns.EveryReplyRightAndOnce` | src/dns/server.cpp:311-512 | Over every run each answer goes to the client of one query, has the ID of that query, and is otherwise, but for the highest bit of the second flag octet, a response with the query's digest; each refusal is the packet of one query with the bits of code 5 set; no query gets two replies of either kind. |
| `ServerRuns.PacketFields` | src/dns/dnspacket.cpp:156-173 | What setting ID, flag and response code does to a packet, field by field. |
| `ServerRuns.NewAnswers` | src/dns/server.cpp:341-348 | The answers of one response are right, new and for distinct clients. |
| `ServerRuns.NeverStuck` | src/bookkeeping/peer.cpp:173-192 | In every reachable state the ID loop ends for draws with more than 150 different nonzero values. |
| `ServerDelivery.StepCarries` | src/dns/server.cpp:281-521 | A step keeps a waiting client, with the ID, digest and time of its record, exactly when none of three conditions on the state before holds: a new question evicts its record, a repeated query takes the timeout branch on it with the client in the chain, or a valid response from a known server has its ID and digest. Otherwise the client is gone, answered exactly in the third case. |
| `ServerDelivery.QueryKeepsIff` | src/dns/server.cpp:462-498 | Below an age of 10 s a query keeps a waiting client exactly when it does not take the timeout branch on its record with the client in the chain; in that case the client is gone. |
| `ServerDelivery.CarriedUntilEnded` | src/dns/server.cpp:281-521 | Through any run a client waits on exactly as long as none of the three conditions has held, and after that it is gone for good. |
| `ServerDelivery.OpeningRegisters` | src/dns/server.cpp:499-520 | A query for a new question puts its client on a record and goes to every server, unchanged but for the ID, which is the record's. |
| `ServerDelivery.ResponseDelivers` | src/dns/server.cpp:311-350 | A valid response with a record's ID and digest is found and goes to every client of the record under its own ID; the record is freed. |
| `ServerDelivery.EndToEnd` | src/dns/server.cpp:311-520 | A client that opened or joined a request is answered, at its endpoint and under its own ID, by a valid response that echoes the forwarded ID and the questions exactly when none of the three conditions held at a step in between. |
| `ServerReplies.QueryOutputs` | src/dns/server.cpp:443-521 | What every query step sends, by conditions on the state before: one refusal, or the query once to every server under the new or its own ID, or nothing. |
| `ServerReplies.RefusedExactly` | src/dns/server.cpp:471-505 | Over every run a query has been refused exactly when the table was full of requests younger than 10 s, its client repeated it within 2 s, or all 150 source nodes were attached. |
| `ServerReplies.QueryCounts` | src/dns/server.cpp:514-520 | A forwarded query counts once at every server, any other changes nothing. |
| `ServerReplies.ResponseCounts` | src/dns/server.cpp:288-339 | Which counter of which server a response changes, and the average. |
| `ServerReplies.StrangerIgnored` | src/dns/server.cpp:296-300 | A response from elsewhere changes nothing. |
| `ServerDelivery.RepeatRegistersIff` | src/dns/server.cpp:462-498 | A client that asks what is being asked is registered exactly when the request does not count as timed out. |
| `DnsServer.RepeatRegistersAsWritten` | src/bookkeeping/peer.cpp:18-20 | With the test as written such a client is registered exactly when the request's absolute time is at most 10. |
| `DnsServer.SecondClientIsLost` | src/bookkeeping/peer.cpp:18-20 | A run in which a client asks at second 11 and another at second 12, and the second is neither registered nor refused. |
| `DnsServer.NeverDropsAsWritten` | src/dns/server.cpp:462-498 | Over every run with the test as written the timeout branch never drops a waiting client. |
| `EthMappings.AddFailsIff` | src/bookkeeping/ethmappings.cpp:36-56 | Adding fails exactly when the table is full of other addresses and some entry is not older than 5 s; then nothing changes. |
| `EthMappings.AddRefines` | src/bookkeeping/ethmappings.cpp:18-57 | Adding sets and stamps one key of a map and drops at most one other, when all entries are older than 5 s; keys stay distinct and at most 100, and all other entries stay in place. |
| `EthMappings.DropsOldestIff` | src/bookkeeping/ethmappings.cpp:31-33 | The entry chosen is an oldest one only if all entries have the same time. |
| `EthMappings.NewestIsDropped` | src/bookkeeping/ethmappings.cpp:31-33 | A full table seen at successive seconds whose newest entry is given up. |
| `EthMappings.Mappings.Add` | src/bookkeeping/ethmappings.cpp:18-57 | The method computes the specified table. |
| `EthMappings.Mappings.Scan` | src/bookkeeping/ethmappings.cpp:24-34 | The loop finds the entry of the address, or the entry to give up. |
| `EthMappings.Mappings.LookUp` | src/bookkeeping/ethmappings.cpp:59-71 | It finds the first live entry with the address, and finds one exactly when there is one. |
| `Latency.RunBetween` | src/dns/server.cpp:332-339 | For every sequence of samples the average lies between their bounds, and the accumulator within 128 times those bounds and a remainder. |
| `Latency.NonNegativeRun` | src/dns/server.cpp:332-339 | Without negative samples the accumulator stays in [128 min, 128 max + 127]. |
| `Latency.NextLaw` | src/dns/server.cpp:332-339 | The first sample is the average; a later one adds its distance from the average to the accumulator, whose truncated 128th is the average. |
| `Latency.OneSampleMoves` | src/dns/server.cpp:332-339 | A sample moves the average toward it by at most a 128th of the distance, rounded up. |

## Left out

- Sockets, callbacks, raw-socket capture, the daemon and Windows code: input and output only.
- Rule files and the command line: parsing and printing rest on library code.
- Locks: each public operation of the rule store runs under one mutex and is one step here.
- `Validate` and the header flag accessors: validation is an input of a step; the two flag
  octets are carried, and only the bits the forwarder sets are modelled.
- Frame parsing of Ethernet, IP and UDP, and the address octets of redirect answers.
- PacketBuffer.Buffer.WriteLabel: requires room in the buffer, because the source does not check
  it and writes past the end; what lies behind the buffer is not part of the model.
- PacketIO.PutPacket: requires room in the buffer, for the same reason.
- PacketIO.PutRecord: requires room in the buffer, for the same reason.
- PacketIO.PutQuestion: requires room in the buffer, for the same reason.
- PeerRequests.Requests.GetNewPeerSource: hands the node over to the caller, because in the source
  the move-assignment destroys it first, and what a destroyed node holds is not defined.
- SourceLists.Take: hands the node over in the same way.
- PeerRequests.Requests.FreePeerRequestRecord: appends sequences; the walk and the links are in
  `SourceLists.Splice`, with the same contents, but the table is not built from linked nodes.
- Pointers passed to `AppendRule` and `InsertRule` for fields that the rule's type does not
  call for: the source ignores them, the model leaves them empty.
- OPT records in whole-packet round trips: the writer drops their octets (`RecordBackIff`).
- Updates of 2^32 octets and more: the 32-bit counter of the source never reaches their end.
- Messages of 2^64 bits and more: their length is taken modulo 2^64, as the source does.
