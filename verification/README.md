# Proofs about the native part of the VPN

This project models the parts of the native code that carry the most logic, and proves what they are for:

- the intrusive red-black tree and the two indexes built on it: the table of SOCKS5 users and the mapped DNS, a
  bounded table between names and synthetic IPv4 addresses held by a tree, a list and an array at once;
- libyaml: the reader, the token queue of the scanner, the event parser, the loader, the dumper, the scanner of quoted
  scalars and the double-quoted writer; a configuration file is followed from its layout to the document;
- the TCP relay that hands out a ring buffer without copying;
- the SOCKS5 handshakes of client and server, and the framing of UDP messages.

`dafny verify dfyconfig.toml` checks everything.

## How it is organised

| files | source | what they hold |
|---|---|---|
| `RBShape`, `RBLinks`, `RBInsert`, `RBErase`, `RBUnlink`, `RBTree` | `hev-rbtree.c` | tree shapes with a hole, the pointer writes on snapshots of the heap, and the tree object with its loops |
| `Bytes`, `Sorted`, `Sets`, `Options`, `Authenticator` | `hev-socks5-authenticator.c`, `hev-socks5-user.c` | the two orders, and the user table as a finite map |
| `List`, `LruSpec`, `MappedDns`, `Words` | `hev-list.c`, `hev-mapped-dns.c` | the list object, the abstract least-recently-used table, the index that refines it, address arithmetic |
| `DnsMessage`, `DnsHandle`, `MappedAddress`, `DnsWire`, `Socks5Proto` | `hev-mapped-dns.c`, `hev-utils.c`, `hev-socks5-misc.c` | DNS messages, the request handler, the way back from an address to a name, and both messages octet by octet |
| `YamlChars`, `QuotedWriter`, `QuotedScanner`, `QuotedRoundTrip`, `QuotedOutput`, `Emitter`, `FlowScalar` | `emitter.c`, `scanner.c` | the double-quoted writer, the scanner of quoted scalars, and their round trip |
| `QuotedText`, `QuotedLaws` | `scanner.c` | what quoted scalars say, apart from the scanner, and that it reads exactly that |
| `YamlGraph`, `DumpSpec`, `LoadSpec`, `DumpLoad`, `GraphRoundTrip`, `DumpTwice`, `Dumper`, `Loader` | `dumper.c`, `loader.c` | documents as graphs, both walks of the dumper, the loader, and their round trip |
| `LoadLaw`, `LoadExactly` | `loader.c` | what loading means for any events, apart from the loader, and when it succeeds |
| `Nesting`, `EventMachine`, `YamlParser`, `Compose`, `ParseLoad` | `parser.c`, `loader.c` | well-nested event streams, the parser as a machine on values and as an object, and loading what it produces |
| `Spelling`, `SpellingParses`, `TokenWriter`, `Conveying` | `parser.c` | the grammar as a way of writing events, that the parser reads whatever is written, and what events carry |
| `TokenLayout`, `LayoutRun`, `YamlScanner` | `scanner.c` | where tokens go by simple keys and indentation, whole texts, and the token queue |
| `BlockText`, `BlockReading` | `scanner.c`, `parser.c`, `loader.c` | block texts as a configuration file writes them, and all three programs on them |
| `Encoding`, `Reader` | `reader.c` | UTF-8 and UTF-16 with their inverses, and the input buffers |
| `RingBuffer`, `Relay` | `hev-ring-buffer.c`, `hev-socks5-session-tcp.c` | the ring as a queue in two parts, and the relay |
| `Duplex`, `Handshake`, `HandshakeRun` | `hev-socks5-client.c`, `hev-socks5-server.c` | processes over byte channels, the two handshakes, and all their interleavings |
| `UdpFraming` | `hev-socks5-udp.c` | messages in a stream and in datagrams |

Objects whose fields the source updates are classes; each method is proved against a function or a relation that says
what it does, and the theorems are about those. Heap structures are reasoned about through snapshots: a snapshot is a
map from nodes to their link fields, every pointer write is an update of that map, and the shape of the structure is
proved of the map.

Some properties one might expect hold of the code only under a condition. For each there is an input at which it fails
and a theorem with the exact condition:

- The compression pointer of a DNS answer is right if and only if the name's offset is below 256, since only its low
  octet is stored (`DnsMessage.PointerExact`, `MappedAddress.PointerFails`).
- All addresses of a DNS response map back to their names if and only if the request asks for at most as many names as
  the table holds (`MappedAddress.AllMapBack`, `MappedAddress.OneSlotFails`).
- An index put below the network prefix comes back if and only if the configured network has no host bits and the
  complement of the mask has every bit the indices use; for a contiguous mask only the first matters
  (`Words.HostBackExact`, `Words.ContiguousRecovers`, `Words.HostBitsFail`, `Words.HoleyMaskFails`).
- A mapped name becomes the domain of a SOCKS5 request if and only if it has at most 255 octets
  (`MappedAddress.NameKept`).
- A UDP message framed for TCP is recovered if and only if its name has at most 248 octets, since the header length is
  one octet, and the receiver's buffer holds address and payload (`UdpFraming.ReceiveFrame`,
  `UdpFraming.LongNameFails`).
- The assertions of yaml_parser_load hold if and only if no error has been reported before (`ParseLoad.Stream.Load`,
  `ParseLoad.LoadAfterError`).
- The block tokens of a stream are balanced if and only if no flow collection is open where it ends, or no block
  collection is (`YamlScanner.Scanner.FetchReset`, `LayoutRun.UnbalancedStream`).
- A stream that the grammar spells is parsed to exactly its events (`SpellingParses.SpelledParses`) unless a single
  pair in a flow sequence has an empty key; such a pair is read right exactly if its value indicator is there and its
  value is empty, or if it has none and is followed by a comma and the end of the sequence
  (`SpellingParses.EmptyKeyExactly`, `SpellingParses.EmptyKeyFails`).
- What lwIP gets is a prefix of what the socket sent, whatever that is, if and only if tcp_write never takes a stretch
  after refusing the one before (`Relay.Run`, `Relay.GapExact`, `Relay.GapFails`).


## Model

| member | source | states |
|---|---|---|
| `RBTree.RBTree.InsertColor` | app/src/main/jni/src/core/src/hev-rbtree.c:194-333 | From any tree with a red leaf just linked, the fix-up loop ends in a valid red-black tree (black root, no red-red edge, equal black heights, consistent parent links) whose in-order sequence has exactly that node at the place where it was linked |
| `RBInsert.LinkRep` | app/src/main/jni/src/core/src/hev-rbtree.h:45-53 | Linking a new node at a free place of a heap tree fills exactly that place: the context around it is represented as before with the node as a childless red leaf in it, and the node is new to it |
| `RBTree.RBTree.Insert` | app/src/main/jni/src/core/src/hev-rbtree.h:45-53 | Linking at a place found by a descent and rebalancing gives a valid tree with one node more, in the place found |
| `RBLinks.ChangeChildRep` | app/src/main/jni/src/core/src/hev-rbtree.c:78-90 | Replacing a child keeps every other node and link of the tree in place: the context of the old node represents the same shape with the new node in its hole, whether that is the root, a left or a right child |
| `RBLinks.RotateSetParentsRep` | app/src/main/jni/src/core/src/hev-rbtree.c:97-105 | The new top stands in the old one's place of the surrounding tree, which is otherwise unchanged, with the old parent and colour, and is the old top's parent |
| `RBTree.RBTree.EraseColor` | app/src/main/jni/src/core/src/hev-rbtree.c:450-626 | The four-case loop, entered one black node short below any node, ends in a valid tree with the same order; it climbs towards the root, which is why it ends |
| `RBTree.RBTree.Unlink` | app/src/main/jni/src/core/src/hev-rbtree.c:351-444 | The three-case unlink keeps all other nodes in order and links, and says truly whether and where a black node is missing |
| `RBTree.RBTree.Erase` | app/src/main/jni/src/core/src/hev-rbtree.c:628-635 | Erasing any node of any valid tree leaves a valid tree whose in-order sequence is the old one without that node |
| `RBTree.RBTree.First` | app/src/main/jni/src/core/src/hev-rbtree.c:168-179 | The leftmost node, or none for an empty tree |
| `RBShape.HeightBound` | app/src/main/jni/src/core/src/hev-rbtree.c:194-333 | A tree of n nodes has height at most 2k with 2^k <= n + 1, so any search visits at most 2*log2(n+1) nodes |
| `RBTree.RBTree.Descend` | app/src/main/jni/src/core/src/hev-socks5-authenticator.c:42-64 | The descent both indexes share: left when the node is smaller. It finds the node that compares equal, or the place where the key belongs with all greater nodes before and all smaller ones after it, visiting no more nodes than the height |
| `Authenticator.Authenticator.Add` | app/src/main/jni/src/core/src/hev-socks5-authenticator.c:39-70 | A finite map from name to user: adding a present name changes nothing and reports -1, adding a new one maps it |
| `Authenticator.Authenticator.Get` | app/src/main/jni/src/core/src/hev-socks5-authenticator.c:104-131 | Agrees with the map, and visits at most 2*log2(n+1) nodes |
| `Authenticator.Authenticator.Del` | app/src/main/jni/src/core/src/hev-socks5-authenticator.c:72-102 | Removes exactly the given name from the map, or reports -1 |
| `Authenticator.Authenticator.Clear` | app/src/main/jni/src/core/src/hev-socks5-authenticator.c:133-145 | Terminates with the empty map and the empty tree |
| `Authenticator.CheckIsEquality` | app/src/main/jni/src/core/src/hev-socks5-user.c:48-61 | The checker accepts exactly the user's password |
| `Authenticator.TableSpec` | app/src/main/jni/src/core/src/hev-socks5-authenticator.c:39-145 | In a tree ordered by length, then bytes, names are unique and the map has exactly the nodes' entries |
| `Bytes.LengthThenBytesOrder` | app/src/main/jni/src/core/src/hev-socks5-authenticator.c:50-55 | Length, then memcmp, is a strict total order on byte strings |
| `Bytes.StrcmpOrder` | app/src/main/jni/src/hev-mapped-dns.c:109 | strcmp is a strict total order on C strings, given as the octets before their NUL; with it names in the tree are distinct |
| `List.List.AddTail` | app/src/main/jni/src/misc/hev-list.c:14-25 | Appends the node; forward and backward links, head and tail spell the same sequence |
| `List.List.Del` | app/src/main/jni/src/misc/hev-list.c:27-39 | Removes the node, wherever it is; links, head and tail spell the rest in order |
| `MappedDns.MappedDns.Find` | app/src/main/jni/src/hev-mapped-dns.c:98-150 | Tree, list and record array hold the same entries before and after, also across insertion before eviction, and the index refines the bounded table LruSpec.Find: a known name is touched, a new one takes a free index or that of the least recently touched name |
| `MappedDns.MappedDns.Lookup` | app/src/main/jni/src/hev-mapped-dns.c:253-271 | Refines LruSpec.Lookup on the host part of the address: the name with that index, which is touched, or none |
| `MappedDns.New` | app/src/main/jni/src/hev-mapped-dns.c:44-63 | Refused exactly when the host part, as a signed number, is below max; otherwise an empty table, which has no room if max is 0 |
| `MappedDns.Init` | app/src/main/jni/src/hev-socks5-tunnel.c:575-597 | A configured size of 0 switches the mapped DNS off, so every table in use has room for a name; a size that does not fit the mask is an error |
| `MappedDns.MappedDns.FindWithoutRoom` | app/src/main/jni/src/hev-mapped-dns.c:98-147 | In a table without room the entry that a find evicts is the one it has just added |
| `MappedDns.AgreeOk` | app/src/main/jni/src/hev-mapped-dns.c:98-150 | When the three structures agree, names are distinct, indices are exactly 0..use-1 and use <= max |
| `MappedDns.AgreeReplace` | app/src/main/jni/src/hev-mapped-dns.c:131-150 | Replacing the oldest entry by a new one in the same slot keeps tree, list and records in agreement |
| `LruSpec.FindOk` | app/src/main/jni/src/hev-mapped-dns.c:98-150 | A find keeps names and indices distinct and in range, and leaves the found name most recently touched, with the returned index |
| `LruSpec.FindThenLookup` | app/src/main/jni/src/hev-mapped-dns.c:98-150 | Looking up the index a find has just given returns the name |
| `LruSpec.Retention` | app/src/main/jni/src/hev-mapped-dns.c:98-150 | Over any run of finds and lookups that does not touch a name, looking up its index still gives the name if and only if fewer than max distinct names were touched since its last touch |
| `LruSpec.HeldRun` | app/src/main/jni/src/hev-mapped-dns.c:98-150 | While at most max names are in use, each of them keeps its index over any run |
| `Words.HostBackExact` | app/src/main/jni/src/hev-mapped-dns.c:259 | For any mask: masking an address made of network and index gives the index back, for every index below max, if and only if the network has no host bits and the host part has every bit that the indices use |
| `Words.ContiguousRecovers` | app/src/main/jni/src/hev-mapped-dns.c:286 | With a contiguous mask and room for max hosts only the host bits of the network matter |
| `Words.HostBitsFail` | app/src/main/jni/src/hev-mapped-dns.c:224 | A network with a host bit for which index 0 does not come back |
| `Words.HoleyMaskFails` | app/src/main/jni/src/hev-mapped-dns.c:259 | A mask that is not contiguous, with which index 2 comes back as 0 |
| `DnsHandle.Handle` | app/src/main/jni/src/hev-mapped-dns.c:174-251 | For every request: an answer is given exactly if the request fits, has at most 32 complete questions and leaves room for 16 octets per answer; then it is header, unchanged questions and answers, although the request buffer is overwritten; and the table is that after finding the wanted names in order |
| `DnsHandle.WalkName` | app/src/main/jni/src/hev-mapped-dns.c:205-213 | The label walk succeeds exactly on names that end inside the request, and leaves the dotted labels in the buffer |
| `DnsHandle.ReadName` | app/src/main/jni/src/hev-mapped-dns.c:219-227 | The C string read from the overwritten buffer is the dotted name of the question, cut at a NUL |
| `DnsMessage.CStringNulFree` | app/src/main/jni/src/hev-mapped-dns.c:219-227 | Nothing is cut exactly when the labels have no NUL |
| `DnsMessage.ResponseFields` | app/src/main/jni/src/hev-mapped-dns.c:191-250 | Identification and question count are kept, ANCOUNT is the number of answers, the other counts are zero, and the question section is byte-identical |
| `DnsMessage.FlagBits` | app/src/main/jni/src/hev-mapped-dns.c:247 | QR is set, RA is set if it or RD was, no other flag changes |
| `DnsMessage.PointerExact` | app/src/main/jni/src/hev-mapped-dns.c:236-237 | The compression pointer names its question if and only if the offset is below 256 |
| `DnsMessage.AnsweredLookup` | app/src/main/jni/src/hev-mapped-dns.c:201-271 | If a request has at most max distinct wanted names, every answered address looks up to the name of its own question, now and as long as only these names are used |
| `MappedAddress.Layout` | app/src/main/jni/src/hev-mapped-dns.c:232-245 | Answer k stands in its own 16 octets with type A, class IN, a lifetime of one second, length 4 and its address |
| `DnsWire.AnswersOnWire` | app/src/main/jni/src/hev-mapped-dns.c:174-251 | Octet by octet, for every answered request: it has as many questions as its header says, one behind the other; the records stand, in order, for exactly those whose four octets behind the name are 0 1 0 1; each has a pointer with the low octet of its name's offset, the type and class of its question, a lifetime of 1, the length 4 and the network prefix with the index that the table gives for the name; and the table is that after asking for these names in order, and for no other |
| `DnsWire.NothingAsked` | app/src/main/jni/src/hev-mapped-dns.c:219-227 | A request without a question of type A and class IN, such as one of type AAAA, gets no record and leaves the table as it was |
| `DnsWire.StandRead` | app/src/main/jni/src/hev-mapped-dns.c:201-230 | Questions that stand in a request, each a name spelled by labels with type and class behind it, are read, all of them and with these labels |
| `DnsWire.QuestionsStand` | app/src/main/jni/src/hev-mapped-dns.c:201-230 | Conversely, whatever is read as a question stands in the request that way |
| `DnsWire.DottedText` | app/src/main/jni/src/hev-mapped-dns.c:205-213 | The name of a question is its labels with periods between them |
| `MappedAddress.AnswersMapBack` | app/src/main/jni/src/hev-mapped-dns.c:174-271 | End to end: reading the address of answer k out of the response and looking it up gives the dotted name of question k, which up to 255 octets becomes a SOCKS5 domain address |
| `MappedAddress.AllMapBack` | app/src/main/jni/src/hev-mapped-dns.c:174-271 | All addresses of an answered request map back to the names of their own questions if and only if it asks for at most max different names |
| `MappedAddress.LongRequest` | app/src/main/jni/src/hev-mapped-dns.c:201-227 | Builds a request with two complete questions for addresses, the second of which starts at offset 256 |
| `MappedAddress.OneSlotFails` | app/src/main/jni/src/hev-mapped-dns.c:136-147 | A request for two names (LongRequest builds one), answered from a table with one slot: not both answers map back |
| `MappedAddress.PointerFails` | app/src/main/jni/src/hev-mapped-dns.c:236-237 | In every answer to a request whose second question stands at offset 256 (LongRequest builds one) the pointer of that question names offset 0 |
| `MappedAddress.FromLwip` | app/src/main/jni/src/misc/hev-utils.c:84-105 | A mapped IPv4 address becomes the domain address made of its name, any other address itself, and the lookup touches the table |
| `MappedAddress.NameKept` | app/src/main/jni/src/core/src/hev-socks5-misc.c:132-141 | A name becomes the domain it names if and only if it has at most 255 octets; of a longer one as many octets remain as the memory behind it holds before the next NUL, modulo 256 |
| `Socks5Proto.ParseEncode` | app/src/main/jni/src/core/src/hev-socks5-misc.c:117-141 | An encoded address is read back whatever follows it, and its length is addr_len |
| `Emitter.Emitter.WriteDoubleQuotedScalar` | app/src/main/jni/third-part/yaml/src/emitter.c:2050-2204 | Writes the opening quote, the character-by-character text of QuotedWriter.Written, and the closing quote |
| `Emitter.Emitter.IncreaseIndent` | app/src/main/jni/third-part/yaml/src/emitter.c:402-417 | The old level is pushed and the new one is deeper exactly if there was none or the new one does not share its margin; a scalar's level is at least 1 |
| `FlowScalar.Parser.ScanFlowScalar` | app/src/main/jni/third-part/yaml/src/scanner.c:3024-3391 | The nested loops compute the outcome of the machine QuotedScanner.Scan, for single and double quotes, and stop behind the closing quote; what that outcome is, QuotedText.QuotedRead and QuotedLaws.QuotedUnderstood say |
| `QuotedText.QuotedRead` | app/src/main/jni/third-part/yaml/src/scanner.c:3024-3391 | A text in either quote style made of pieces - characters, doubled apostrophes, escapes by letter or code, blanks, folded lines, lines joined by an escaped break - is scanned as the meanings of its pieces, up to the closing quote and in the right column |
| `QuotedLaws.QuotedUnderstood` | app/src/main/jni/third-part/yaml/src/scanner.c:3024-3391 | Conversely, whatever is scanned successfully is made of such pieces, and their meaning is the value: nothing else is accepted |
| `QuotedText.LetterValue` | app/src/main/jni/third-part/yaml/src/scanner.c:3123-3217 | The one-letter escapes are those of the YAML table, x, u and U have two, four and eight digits, and no other letter is an escape |
| `QuotedText.Read16` | app/src/main/jni/third-part/yaml/src/scanner.c:3222-3246 | A code is the number its digits of either case make in base 16 |
| `QuotedLaws.SingleQuotedBack` | app/src/main/jni/third-part/yaml/src/scanner.c:3086-3094 | A value without line breaks, with its apostrophes doubled and an apostrophe behind it, is read back whatever follows but a further apostrophe |
| `FlowScalar.ScanSingleQuoted` | app/src/main/jni/third-part/yaml/src/scanner.c:3086-3094 | The same for the program |
| `QuotedLaws.FoldBetween` | app/src/main/jni/third-part/yaml/src/scanner.c:3296-3366 | In both quote styles, two words with n + 1 line breaks between them, and any blanks around these, read as the words with n line feeds between them, or with one space if n is 0 |
| `QuotedRoundTrip.ScanWritten` | app/src/main/jni/third-part/yaml/src/scanner.c:3024-3391 | For every value, column, width, line break style, unicode flag and margin of at least 1, scanning what the writer wrote gives the value back, folded lines and escaped spaces included, and stops at the closing quote, whatever follows |
| `FlowScalar.WriteThenScan` | app/src/main/jni/third-part/yaml/src/emitter.c:2050-2204 | The same for the two programs, from any emitter state |
| `QuotedRoundTrip.FoldBreaks` | app/src/main/jni/third-part/yaml/src/emitter.c:2173-2189 | Every fold breaks the line: once folded, the column never falls back to the margin |
| `QuotedRoundTrip.EscapeBack` | app/src/main/jni/third-part/yaml/src/scanner.c:3117-3276 | Every escape the writer uses decodes to its character |
| `QuotedOutput.WrittenFine` | app/src/main/jni/third-part/yaml/src/emitter.c:2050-2204 | What the writer writes holds only characters that the reader lets through, only ASCII unless Unicode is allowed, and line breaks only if these are allowed |
| `QuotedRoundTrip.NoMarginFails` | app/src/main/jni/third-part/yaml/src/emitter.c:1787-1805 | Without a margin the round trip fails: a concrete value whose folded line starts with a document indicator |
| `Encoding.TestsAgree` | app/src/main/jni/third-part/yaml/src/yaml_private.h:252-341 | The octet tests for printable characters, breaks and the BOM agree with those on characters |
| `Dumper.Dumper.AnchorNode` | app/src/main/jni/third-part/yaml/src/dumper.c:206-238 | The counting walk terminates on cyclic graphs and computes DumpSpec.Count |
| `Dumper.Dumper.DumpNode` | app/src/main/jni/third-part/yaml/src/dumper.c:263-294 | The writing walk terminates on cyclic graphs; with flags per node it writes what DumpSpec.Visit gives for the list of nodes visited: a node at its first visit, an alias at every later one |
| `Dumper.Dumper.DumpRoot` | app/src/main/jni/third-part/yaml/src/dumper.c:145-146 | Both walks from the root: every alias among the events comes after the node that was given its anchor, and the events are those of DumpSpec.Dump |
| `DumpSpec.CountVisits` | app/src/main/jni/third-part/yaml/src/dumper.c:206-294 | Both walks meet the same nodes: exactly those met twice get an anchor, each its own, and every alias goes to an anchored node |
| `GraphRoundTrip.AliasAfterAnchor` | app/src/main/jni/third-part/yaml/src/dumper.c:263-309 | Every alias comes after a node that was given its anchor |
| `YamlGraph.AnchorInjective` | app/src/main/jni/third-part/yaml/src/dumper.c:244-257 | Different anchor ids give different anchors |
| `DumpLoad.LoadVisit` | app/src/main/jni/third-part/yaml/src/loader.c:216-368 | Loading the events of a node adds one child to the open collection and loads every newly visited node completely, with children renumbered by the order of first visits |
| `GraphRoundTrip.DumpThenLoad` | app/src/main/jni/third-part/yaml/src/loader.c:216-368 | Dumping any document with complete pairs and loading the events gives a copy of exactly the part its root reaches, edge by edge, sharing and cycles kept; only the tag "!" comes back as the default |
| `DumpTwice.NumberedComesBack` | app/src/main/jni/third-part/yaml/src/dumper.c:263-393 | A document whose nodes are numbered in the order of first visits comes back node for node, but for the tag "!" |
| `DumpTwice.SecondTrip` | app/src/main/jni/third-part/yaml/src/loader.c:216-368 | For every document: what has been dumped and loaded once is dumped and loaded again without any change |
| `Loader.DumpAndLoad` | app/src/main/jni/third-part/yaml/src/loader.c:216-368 | The same for the two programs |
| `Loader.Loader.LoadNodes` | app/src/main/jni/third-part/yaml/src/loader.c:216-257 | The event loop with its stack of open collections comes to the outcome LoadSpec.LoadAll; from an empty document, a load that succeeds gives the document that the events say (LoadLaw.Loads), and one that fails has met a repeated anchor or an alias without one |
| `LoadLaw.Loads` | app/src/main/jni/third-part/yaml/src/loader.c:264-544 | For all events, not only dumped ones: after a successful load, node k is that of the k-th scalar or collection start, with its value, style and kind and with the event's tag or else the default of its kind; its children are, in order, the nodes of its direct child events, an alias standing for the node that bears its anchor |
| `LoadExactly.LoadsExactly` | app/src/main/jni/third-part/yaml/src/loader.c:264-368 | On the events of a document, a load succeeds if and only if no anchor is repeated and every alias comes after its anchor; no assertion fails |
| `LoadSpec.AliasesDeclared` | app/src/main/jni/third-part/yaml/src/loader.c:350-368 | When a load succeeds, every alias was preceded by a node with that anchor |
| `YamlParser.Parser.Next` | app/src/main/jni/third-part/yaml/src/parser.c:225-304 | For every token sequence and state: the next event, if any, fits the nesting produced so far; neither the state stack nor the mark stack underflows; a measure falls, so parsing ends; event and new state are those of the machine EventMachine.Move |
| `YamlParser.Parser.ParseNode` | app/src/main/jni/third-part/yaml/src/parser.c:528-717 | A node event counts once in the collection that waits for it, and a collection start opens its frame; anchor, tag and content are those the machine reads, which Conveying.MoveConveys relates to the tokens |
| `YamlParser.Parser.ParseBlockMappingKey` | app/src/main/jni/third-part/yaml/src/parser.c:833-884 | Keys and the end of a block mapping come only when no value is pending |
| `YamlParser.Parser.ParseFlowSequenceEntry` | app/src/main/jni/third-part/yaml/src/parser.c:948-1001 | Entries, single-pair mappings and the end of a flow sequence fit the nesting |
| `YamlParser.Parser.ParseFlowMappingKey` | app/src/main/jni/third-part/yaml/src/parser.c:1099-1161 | Keys and the end of a flow mapping come only when no value is pending |
| `YamlParser.Parser.ParseDocumentStart` | app/src/main/jni/third-part/yaml/src/parser.c:341-431 | Documents open and the stream ends only between documents |
| `ParseLoad.ParseAll` | app/src/main/jni/third-part/yaml/src/parser.c:169-189 | The events of any token sequence are a prefix of a well-nested stream in which mappings hold key/value pairs, and the whole of one exactly when the parser reaches the end; parsing terminates; and every event carries what its own tokens say, cut by cut |
| `Conveying.MoveConveys` | app/src/main/jni/third-part/yaml/src/parser.c:528-717 | The alias, anchor, tag and scalar contents of an event are those of the tokens read for it, tags by the handles declared, and an empty scalar comes only where no node token stands; tokens that carry something are never skipped |
| `SpellingParses.SpelledParses` | app/src/main/jni/third-part/yaml/src/parser.c:2-40 | Completeness: whatever is spelled by the grammar, in block or flow style, with any choice of forms, property orders, omitted indicators and directives, is parsed to the end and gives exactly the events spelled |
| `SpellingParses.EmptyKeyFails` | app/src/main/jni/third-part/yaml/src/parser.c:1009-1037 | A single pair with an empty key and a value, as in [? : x], which the grammar has, is not parsed |
| `SpellingParses.EmptyKeyExactly` | app/src/main/jni/third-part/yaml/src/parser.c:1009-1037 | For every text: an empty key of a single pair is read together with the token behind its indicator, the value is then empty too and the sequence goes on behind that token; so it is read right exactly if that token is the value indicator of an empty value or a comma right before the end, and the parser stops if it is the value indicator of any other value or a comma before another entry |
| `TokenWriter.TokensSpell` | app/src/main/jni/third-part/yaml/src/parser.c:2-40 | Every complete well-nested stream of events whose block collections stand in no flow collection has tokens that spell it |
| `ParseLoad.WriteThenParse` | app/src/main/jni/third-part/yaml/src/parser.c:169-1203 | Writing any such stream as tokens and parsing them gives exactly the stream back |
| `ParseLoad.ParseSpelled` | app/src/main/jni/third-part/yaml/src/parser.c:169-1203 | The program parses any spelled stream to its end, with exactly its events |
| `Nesting.Completable` | app/src/main/jni/third-part/yaml/src/parser.c:225-304 | Whatever has been accepted can be completed |
| `Compose.ComposeStep` | app/src/main/jni/third-part/yaml/src/loader.c:216-344 | Along a well-nested stream no assertion of the loader fails, and at the end of a document every pair has a key and a value in range |
| `ParseLoad.LoadDocument` | app/src/main/jni/third-part/yaml/src/loader.c:184-257 | Loading a document from any tokens: no assertion fails, and a loaded document is well formed and is what the parser's events say |
| `ParseLoad.Stream.Load` | app/src/main/jni/third-part/yaml/src/loader.c:86-132 | The assertions on STREAM-START and DOCUMENT-START hold if and only if no error has been reported before; a loaded document is well formed |
| `ParseLoad.Stream.Parse` | app/src/main/jni/third-part/yaml/src/parser.c:169-189 | An event fits the nesting; after an error or the end of the stream the call succeeds without an event |
| `ParseLoad.LoadAfterError` | app/src/main/jni/third-part/yaml/src/loader.c:98-102 | A stream that breaks off before its first token, on which a second load fails its assertion |
| `YamlScanner.Scanner.FetchValue` | app/src/main/jni/third-part/yaml/src/scanner.c:1683-1759 | A simple key gets its KEY, and perhaps its BLOCK-MAPPING-START, right before its own first token, which has not been delivered; a value without a simple key is refused exactly where no key could start |
| `YamlScanner.Scanner.FetchNextToken` | app/src/main/jni/third-part/yaml/src/scanner.c:860-1049 | Every fetch keeps: simple-key depth is flow level + 1, indents rise strictly from -1, possible keys point at queued tokens, inner ones at later tokens, and block starts minus ends is the indent depth. Without the tokens that the layout adds, exactly one is added, the one the item's character says; where tokens, levels and keys go, and when the fetch fails, is the step LayoutRun.Step |
| `YamlScanner.Scanner.FetchMoreTokens` | app/src/main/jni/third-part/yaml/src/scanner.c:800-854 | When it returns, no token can be inserted before the head of the queue; it fails only where the layout of the text does |
| `YamlScanner.Scanner.Scan` | app/src/main/jni/third-part/yaml/src/scanner.c:742-776 | Over any run: the delivered and queued tokens, without the BLOCK-SEQUENCE-START, BLOCK-MAPPING-START, BLOCK-END and KEY that the layout adds, are STREAM-START and one token per item fetched, in order, of the kind its character says, and all of them stand where the layout of the text puts them; delivered tokens never change; after STREAM-END or an error the call succeeds without a token and changes nothing |
| `YamlScanner.ScanAll` | app/src/main/jni/third-part/yaml/src/scanner.c:742-1049 | A whole text scanned by repeated calls gives exactly the tokens of its layout, a function of the text alone: neither when tokens are asked for nor when stale keys are given up matters; and it fails if and only if the text has no layout or ends with a required key |
| `LayoutRun.StepTidy` | app/src/main/jni/third-part/yaml/src/scanner.c:1056-1089 | Giving up stale simple keys early changes no later step |
| `YamlScanner.Scanner.StaleSimpleKeys` | app/src/main/jni/third-part/yaml/src/scanner.c:1056-1089 | Exactly the possible keys of an earlier line or of more than 1024 characters ago are given up; it fails if and only if one of them is required |
| `BlockText.BlockScans` | app/src/main/jni/third-part/yaml/src/scanner.c:860-1759 | A text of block mappings and sequences of any depth, laid out by indentation with simple keys as a configuration file is, has exactly the tokens that spell its tree: every collection starts once, ends once and where it should, and every key gets its KEY |
| `BlockText.MissingValue` | app/src/main/jni/third-part/yaml/src/scanner.c:1056-1128 | In the column of an open block collection, a scalar that starts a line without a value indicator on the same line and within 1024 characters is an error, whatever comes next |
| `BlockReading.StreamSpelled` | app/src/main/jni/third-part/yaml/src/parser.c:2-40 | These tokens spell the events of the tree by the grammar |
| `BlockReading.ReadEvents` | app/src/main/jni/third-part/yaml/src/parser.c:169-1203 | Scanner and parser together read such a text as exactly the events of its tree |
| `BlockReading.ReadDocument` | app/src/main/jni/third-part/yaml/src/loader.c:86-257 | Scanner, parser and loader together load exactly the document of its tree |
| `LayoutRun.UnbalancedStream` | app/src/main/jni/third-part/yaml/src/scanner.c:1329-1361 | The text '- [': its tokens to the end of the stream, whose block sequence is never ended |
| `YamlScanner.Scanner.UnrollIndent` | app/src/main/jni/third-part/yaml/src/scanner.c:1258-1285 | Exactly the levels beyond the column are popped, unless a flow collection is open, and exactly as many BLOCK-END tokens are appended; the stack never underflows |
| `YamlScanner.Scanner.RollIndent` | app/src/main/jni/third-part/yaml/src/scanner.c:1205-1249 | A deeper column pushes a level and one start token, at the given place in the queue |
| `YamlScanner.Scanner.FetchReset` | app/src/main/jni/third-part/yaml/src/scanner.c:1329-1361 | At the end of the stream, directives and document indicators, block tokens balance if and only if no flow collection is open or there was nothing to end |
| `YamlScanner.Scanner.SaveSimpleKey` | app/src/main/jni/third-part/yaml/src/scanner.c:1097-1128 | If simple keys are allowed, the innermost key becomes that of the token appended next, at the mark, and required exactly if the block indent is there; possible keys still point at queued tokens in order |
| `Reader.Reader.UpdateBuffer` | app/src/main/jni/third-part/yaml/src/reader.c:141-469 | Afterwards there are enough characters or all of them and one NUL. It fails only on an input with an error, after decoding all before it, when the read handler has failed, or beyond the maximal length, and then nothing is lost; the buffer never overflows for any lookahead up to 6144 |
| `Reader.Reader.DetermineEncoding` | app/src/main/jni/third-part/yaml/src/reader.c:50-87 | Unless the caller has set it, the encoding is that of the first octets, however they arrive |
| `Reader.ChunksDoNotMatter` | app/src/main/jni/third-part/yaml/src/reader.c:141-469 | The characters passed and buffered are a prefix of the meaning of the input, which does not depend on the chunks, and at the end all of it and a single NUL; the buffer is the UTF-8 encoding of exactly unread characters |
| `Encoding.Decode8Encode` | app/src/main/jni/third-part/yaml/src/reader.c:206-297 | Every character is read back from its UTF-8 encoding |
| `Encoding.Encode8Decode` | app/src/main/jni/third-part/yaml/src/reader.c:206-297 | Only UTF-8 encodings of characters are accepted |
| `Encoding.Decode16Encode` | app/src/main/jni/third-part/yaml/src/reader.c:299-390 | Every character is read back from its UTF-16 encoding, in either byte order |
| `Encoding.Encode16Decode` | app/src/main/jni/third-part/yaml/src/reader.c:299-390 | Only UTF-16 encodings of characters are accepted |
| `Encoding.StreamBack` | app/src/main/jni/third-part/yaml/src/reader.c:404-424 | A stream in any of the three encodings is read back up to its first character that is refused: a control character other than TAB, LF, CR and NEL, U+FFFE or U+FFFF |
| `Encoding.MarkBack` | app/src/main/jni/third-part/yaml/src/reader.c:50-87 | The byte order mark of an encoding is U+FEFF in that encoding, and a stream without one is UTF-8 |
| `RingBuffer.RingBuffer.Writing` | app/src/main/jni/src/misc/hev-ring-buffer.c:64-85 | The writable stretches are the free cells in order; none holds an octet that has not been released |
| `RingBuffer.RingBuffer.Reading` | app/src/main/jni/src/misc/hev-ring-buffer.c:25-45 | The readable stretches hold exactly the octets not yet handed out, in order |
| `RingBuffer.RingBuffer.ReadFinish` | app/src/main/jni/src/misc/hev-ring-buffer.c:47-52 | The octets read move from readable to handed out |
| `RingBuffer.RingBuffer.ReadRelease` | app/src/main/jni/src/misc/hev-ring-buffer.c:54-62 | The oldest handed-out octets are forgotten, and the reset to offset 0 is not observable |
| `RingBuffer.RingBuffer.Receive` | app/src/main/jni/src/misc/hev-ring-buffer.c:87-93 | The octets read in are appended and nothing in use changes: a bounded queue |
| `Relay.Session.SpliceForward` | app/src/main/jni/src/hev-socks5-session-tcp.c:44-81 | What came from lwIP is what went to the socket and what is queued behind the octets just written; exactly what writev takes goes out; the half-close is passed on when all before it went, and at once when the queue is empty |
| `Relay.Session.Received` | app/src/main/jni/src/hev-socks5-session-tcp.c:133-152 | Data is queued behind what came before, and refused if and only if the queue is not empty and longer than the window |
| `Relay.Drain` | app/src/main/jni/src/hev-socks5-session-tcp.c:44-81 | A socket that takes some octets at every call gets everything that came and then the half-close, and all of it is credited |
| `Relay.Session.ReleaseQueue` | app/src/main/jni/src/hev-socks5-session-tcp.c:71-76 | What was written leaves the queue, though more may have come in meanwhile, and credit equals what was written while the pcb lives |
| `Relay.Session.SpliceBackward` | app/src/main/jni/src/hev-socks5-session-tcp.c:85-105 | What comes from the socket is appended to the ring while there is room, and the memory lwIP refers to is unchanged |
| `Relay.Session.HandOut` | app/src/main/jni/src/hev-socks5-session-tcp.c:107-131 | What came from the socket is what lwIP has taken and what the ring holds, unless a call to lwIP fails, after which nothing more is given; what lwIP has taken is a prefix of what came unless it takes a stretch after refusing the one before; tcp_write always has room; the half-close comes last |
| `Relay.GapExact` | app/src/main/jni/src/hev-socks5-session-tcp.c:113-118 | What tcp_write takes of the readable stretches is a prefix of them, whatever they hold, if and only if it does not take the second without the first |
| `Relay.GapFails` | app/src/main/jni/src/hev-socks5-session-tcp.c:113-118 | If tcp_write refuses the first of two stretches and takes the second, lwIP's stream is not a prefix of the socket's |
| `Relay.Session.Acknowledged` | app/src/main/jni/src/hev-socks5-session-tcp.c:154-163 | Acknowledged octets may be overwritten, all others still stand in the ring |
| `Relay.NewSession` | app/src/main/jni/src/hev-config.c:432-433 | A session starts with an empty ring of the configured size, cut to lwIP's send buffer, and in the invariant |
| `Relay.Run` | app/src/main/jni/src/hev-socks5-session-tcp.c:44-262 | Any interleaving of the halves of both splices, callbacks and losses: forward, what went is a prefix of what came and everything is credited; backward, the same if lwIP never takes a stretch after refusing one, and without failures the outstanding octets never exceed the send buffer |
| `HandshakeRun.AnyInterleaving` | app/src/main/jni/src/core/src/hev-socks5-client.c:25-394 | This client against this server under any schedule: never a deadlock, and one outcome for both sides, given by the configuration |
| `HandshakeRun.Terminates` | app/src/main/jni/src/core/src/hev-socks5-server.c:474-528 | The number of moves is bounded for all schedules at once |
| `HandshakeRun.ClientSuccess` | app/src/main/jni/src/core/src/hev-socks5-server.c:57-347 | As soon as the client has succeeded, the server has the client's address and its command - 1 for TCP, 3 for UDP, 5 for UDP in TCP -, has accepted its credentials if it authenticates, and no octet of the handshake is unread |
| `Handshake.ClientOctets` | app/src/main/jni/src/core/src/hev-socks5-client.c:25-153 | The client's messages octet by octet, as RFC 1928 and RFC 1929 have them |
| `Handshake.WhenSucceeds` | app/src/main/jni/src/core/src/hev-socks5-server.c:57-347 | A handshake succeeds if and only if both sides or none authenticate, the credentials are known, the address resolves, the command can be carried out and the client takes the server's address |
| `HandshakeRun.SameOutcome` | app/src/main/jni/src/core/src/hev-socks5-client.c:318-394 | The standard and the pipelined client come to the same outcome for every configuration |
| `HandshakeRun.ServerCreds` | app/src/main/jni/src/core/src/hev-socks5-server.c:124-239 | The server accepts exactly known, non-empty credentials (cut to eight-bit lengths), and answers after taking no more than was sent |
| `HandshakeRun.ServerRequest` | app/src/main/jni/src/core/src/hev-socks5-server.c:241-347 | The server takes exactly the request and decodes the client's command and address |
| `Duplex.AnySchedule` | app/src/main/jni/src/core/src/hev-socks5-client.c:318-394 | If the courses of two processes fit, every interleaving over reliable byte channels follows them |
| `Duplex.Progress` | app/src/main/jni/src/core/src/hev-socks5-client.c:318-394 | If moreover every wait is served by what has been sent, one of the two can always move |
| `UdpFraming.ReceiveFrame` | app/src/main/jni/src/core/src/hev-socks5-udp.c:160-232 | A framed message is received exactly as sent, whatever follows, if and only if its name has at most 248 octets and the buffer holds address and payload |
| `UdpFraming.LongNameFails` | app/src/main/jni/src/core/src/hev-socks5-udp.c:81-82 | A name of 249 octets is refused; of one with 254 octets a wrong message of five octets is received |
| `UdpFraming.SendBatch` | app/src/main/jni/src/core/src/hev-socks5-udp.c:56-100 | A batch is the concatenation of its frames |
| `UdpFraming.Receiver.ReceiveBatch` | app/src/main/jni/src/core/src/hev-socks5-udp.c:160-232 | Any batching of receives, whatever is ready when, recovers the next messages in order and complete, and leaves the stream between two messages |
| `UdpFraming.DatagramBack` | app/src/main/jni/src/core/src/hev-socks5-udp.c:102-144 | A datagram starts with three zero octets, then address and payload, and is read back as sent |

## Left out

- Allocation failure, ownership, freeing and reference counts, in all parts.
- Logging, object and class boilerplate, sockets, TUN devices, JNI, daemon code, the task system and the Kotlin application.
- hev_rbtree_node_prev, hev_rbtree_node_next, hev_rbtree_last and hev_rbtree_replace: no index uses them.
- Colour and parent are two fields of a tree node; that they share one word is not modelled.
- RBTree.RBTree.Descend: stands for the four descent loops of the two indexes, which are the same loop with another comparison; the link pointer is the parent and a side.
- MappedDns.MappedDns.Find: needs room for at least one name, which `MappedDns.Init` guarantees; a negative size, for which even the allocation is not defined, is not modelled.
- DnsHandle.Handle: the request buffer is readable one octet beyond the request and the response buffer holds a header, as the source takes for granted; for a request shorter than a header only the length and the table are described.
- MappedAddress.FromLwip: the memory behind a name is a parameter; what happens if it holds no NUL at all is not described.
- Octets are compared as unsigned numbers by strcmp and memcmp.
- LruSpec.Retention: is about runs of finds and lookups; the table is never otherwise changed.
- QuotedRoundTrip.ScanWritten: works on characters; `Encoding.TestsAgree` and the UTF-8 lemmas connect them with octets. The single-quoted writer is not modelled; `QuotedLaws.SingleQuotedBack` is about the text it would write.
- libyaml's plain, single-quoted and block scalar writers, tag and anchor text, style selection, the event checks of the emitter, and writer.c, whose UTF-16 output is not an inverse of the reader for characters above U+FFFF.
- Marks in events and tokens; the parser's marks are kept as token positions to show that their stack does not underflow.
- The limits on the number of nodes, items and nesting levels (INT_MAX) in loader and scanner.
- YamlScanner.Scanner.FetchNextToken: what the characters say (which token comes next, where it starts and ends, whether its text is well formed) is a parameter; scan_to_next_token and the scanning of directives, anchors, tags, block and plain scalars are not modelled.
- YamlScanner.ScanAll: the items of a text stand one behind the other, as reading it leaves them; items that overlap are not described.
- BlockText.BlockScans: flow collections, anchors, tags, explicit keys and sequences that are not indented below their key are left to the general theorems on scanner and parser.
- Relay.Session.HandOut: after a failed call to lwIP it is not said which octets the ring still holds for it.
- The splice loop of the relay: its choice between yielding and waiting is not modelled; any order of its steps is.
- HandshakeRun.AnyInterleaving: resolving names, connecting and binding are given outcomes; timeouts and connections broken by the network are not modelled.
- Handshakes with other clients or servers.
- UdpFraming.ReceiveFrame: what happens to memory when the buffer is smaller than the address, which the source's unsigned comparison lets through, is not described; `ReceiveOne` reports it as `Overrun`.
- The rest of hev-config.c, session counting and shutdown: repeated matching and easy facts only.
