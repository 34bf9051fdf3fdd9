# Verified model of the agent's core protocols and engine

This Dafny project models the parts of the repository where state, parsing and
arithmetic meet, and proves what they promise for every input, every run and
every way the environment may cut its bytes. `dafny verify dfyconfig.toml`
checks all of it. Nothing here executes the C++ program.

| file | what it models |
|---|---|
| `Strings.dfy`, `Decimal.dfy`, `Wrappers.dfy` | `find`, `split`, `join`, `replace_all`; `to_string` and `stoi`; shared slicing facts |
| `Glob.dfy`, `GlobTheory.dfy`, `Permissions.dfy` | the recursive glob matcher, its language, and the permission manager over it |
| `Framing.dfy`, `HeaderBlock.dfy`, `Receiving.dfy`, `Pipe.dfy`, `LspClient.dfy`, `McpTransport.dfy` | Content-Length frames, with any other header fields (base protocol of the Language Server Protocol 3.17), over a pipe |
| `Base64.dfy` | both base64 codecs (section 4 of RFC 4648) |
| `WebSocket.dfy` | WebSocket frames (sections 5.2 and 5.3 of RFC 6455) |
| `FileEdit.dfy`, `Diff.dfy` | unique-match edits, the fold over several edits, the one-hunk diff |
| `Messages.dfy`, `Accumulators.dfy`, `Sse.dfy` | messages and stream events, the two machines that build a message, server-sent events (sections 9.2.5 and 9.2.6 of the WHATWG HTML Living Standard) |
| `CostTracker.dfy`, `History.dfy`, `QueryEngine.dfy` | token accounting, conversation histories, the query engine |
| `McpTools.dfy` | the MCP tool index over the tool registry |

Code that changes fields or buffers is a class or a method with loops, proved
against a function or predicate on values; the theorems are lemmas about those.
Reads and writes of any size, the clock, the abort flag raised by another
thread, API responses, tool outputs and server listings are nondeterministic
choices, so the theorems hold for all of them. Ghost counters record what the
environment did (a passed deadline, a read that brought too little, a raised
flag), so a method may give up only when it really happened. A `char` stands for one byte of
a `std::string`.

## Where the code is not what one expects

Each of these is a lemma of the project, with the exact condition where there is one.

- **Glob.** A star reads nothing only while there is text left: at the end of the text only a run of `/**` may remain. So the matcher decides the language of a pattern exactly when the last token is no star (or the pattern is `**`). `**/` does not match the empty text although it does not end in `*` (`DecidesLanguageIff`, `SlashBehindStarsCounterexample`).
- **Default rules.** `node_modules` comes before the system rules, so `/etc/node_modules/x` only asks; `**` reads any string, so `/x.git` is denied; a trailing slash alone (`a.git/`) is not denied. Nothing is ever allowed (`DefaultDecisions`). A bypass mode leaves its default level behind: the detour changes a decision exactly for unmatched targets of a manager whose default was not Allow, and allows them (`BypassOutlivesItsMode`).
- **Framing.** A message of more than 2^31 - 1 bytes is written, but reading it throws out of `stoi`; every shorter one is read back by the LSP client (`FrameRoundTripIff`), and by the MCP connection as long as the bytes behind the header, cast to int, count as enough (`McpFrameRoundTripIff`, `McpTakesWhatLspTakesIff`). The first mention of `Content-Length: ` decides, also inside another field's name or value (`ScanBlock`), and a header without one makes the client wait for ever (`WaitsForeverIff`). A negative length takes all there is. So what the LSP client takes is independent of all later bytes exactly when the length is not negative (`LspDeliverStableIff`). For the MCP connection every later byte counts: it takes the same from the longer buffer exactly when, besides, the bytes behind the header, cast to int, are still enough (`McpDeliverStableIff`).
- **split and join.** `split` undoes `join` for all delimiter-free pieces exactly when the delimiter has no border (`SplitUndoesJoinIff`). In the same way, "matched once" means "occurs once" exactly when `old_string` has no border (`CountOneMeansUniqueIff`).
- **Edits.** The tool's prompt (src/tools/file_edit_tool.cpp:36) says every edit is matched against the original file; the code matches it against what the edits before it left, and the model follows the code. For two edits at disjoint places, the first of them unique, the promise is kept exactly when the second edit changes nothing or is matched once in what the first one left, at its own place or at one from which the replacement slides there (`PromiseKeptIff`, `PromiseKeptBackwardsIff`); any list of edits keeps it step by step exactly when each hits its place in the text with the earlier ones made (`AllPromisesKeptIff`); for an old string without a border: when it is still unique there (`PromiseKeptIfStillUnique`). An edit the original has no place for can succeed only at an occurrence that touches the first edit's new text (`LateEditNeedsNewText`; `EditsSeeEarlierEdits` is the smallest example).
- **Diff.** Where lines are only added or only removed, a range of no lines names the line behind the place; the unified format names the line in front. Read with the code's own convention the report reproduces both texts, on every path without a line feed (`ReportReadsBackIff`, `HunkExplains`).
- **Base64.** One decoder stops at the first foreign character, the other skips it and goes on to the first `=`. They read the same groups exactly when no character of the alphabet follows a foreign one before the first `=` (`SextetsAgreeIff`). They return the same bytes in one more case: when a single such character follows behind a multiple of four, because its six bits make no byte (`DecodersAgreeIff`).
- **WebSocket.** The connection loop ends at an empty payload as at a close, and by an exception at an announced length no string can have; all messages arrive exactly when there are none of these and none behind a close frame (`AllMessagesArriveIff`). A ping is skipped by its 7-bit length alone, so a masked one leaves four bytes in front of the next frame (`MaskedPingLeavesFourBytes`), and its answer carries the key and masked bytes instead of its data (`MaskedPingAnswer`).
- **Server-sent events.** The field parser drops the character behind the colon unseen, so it agrees with the standard exactly when that is one space and no more (`FieldValueIff`).
- **Accumulators.** A reported error adds a text block on one side only (`ErrorIsATextBlock`); without one the two always agree (`AccumulatorsAgreeIff`). Only output tokens are ever counted (`OnlyOutputIsCounted`).
- **Engine.** The abort flag is never taken back: afterwards `execute` only appends the user's message (`AbortIsForever`). A response that has tool uses but stopped for another reason, such as its token limit, stays unanswered in the history that the next request sends; without an abort a run leaves every tool use answered exactly when there is no such response (`UnabortedRunAnswersIff`).
- **MCP tools.** The registry never forgets a name, so syncing a server again drops every tool it had (`ResyncDropsEveryTool`). The prefix does not keep names of all servers apart (`NamesCollideIff`).

## Model

| member | source | states |
|---|---|---|
| Strings.FindFirst | src/util/string_utils.h:51 | the search reports an occurrence and there is none before it; if it reports none, there is none at all |
| Strings.SplitString | src/util/string_utils.h:47-57 | the loop cuts at the successive leftmost occurrences of the delimiter |
| Strings.JoinStrings | src/util/string_utils.h:60-67 | the loop glues the parts with the delimiter between them |
| Strings.JoinConcat | src/util/string_utils.h:60-67 | the parts stand in order, with the delimiter between any two neighbours |
| Strings.JoinSplit | src/util/string_utils.h:47-67 | join undoes split for every non-empty delimiter, and no piece contains the delimiter |
| Strings.SplitJoin | src/util/string_utils.h:47-67 | split undoes join for delimiter-free pieces when no proper prefix of the delimiter is also its suffix |
| Strings.SplitUndoesJoinIff | src/util/string_utils.h:47-67 | split undoes join for every list of delimiter-free pieces exactly when the delimiter has no border |
| Strings.ReplaceAll | src/util/string_utils.h:97-105 | the in-place loop ends and leaves each leftmost non-overlapping occurrence replaced, also when the new text contains the old one; an empty pattern changes nothing |
| Strings.ReplaceIsSplitJoin | src/util/string_utils.h:97-105 | replacing is splitting at the old text and joining with the new one |
| Glob.MatchImpl | src/permissions/permission_manager.cpp:73-106 | the nested loops and recursive calls end and compute the declarative match of the two suffixes |
| Glob.MatchAnyPath | src/permissions/permission_manager.cpp:75-84 | the double-star branch: slashes behind it are skipped and every position is tried |
| Glob.MatchSegment | src/permissions/permission_manager.cpp:85-93 | the star branch: every position up to the next slash is tried, and no other could match |
| Glob.MatchPattern | src/permissions/permission_manager.cpp:68-109 | the public entry: a bare star or double star matches everything, otherwise the match |
| GlobTheory.StarsTakeSlashes | src/permissions/permission_manager.cpp:75-78 | a double star takes all the slashes behind it, however many |
| GlobTheory.OtherTokens | src/permissions/permission_manager.cpp:85-99 | every other character of a pattern is a token of its own |
| GlobTheory.RunIsRepetition | src/permissions/permission_manager.cpp:102-105 | what the last loop skips is `/**` any number of times |
| GlobTheory.EntryDiffersIff | src/permissions/permission_manager.cpp:68-109 | the entry says something else than the matcher exactly for a bare star on an empty text or one with a slash, and for a bare double star on the empty text |
| GlobTheory.MatchIff | src/permissions/permission_manager.cpp:73-106 | a text matches exactly when the tokens read it piece by piece, the last piece non-empty, leaving at most a run of `/**`: for every pattern and text |
| GlobTheory.PlainPatternsAgree | src/permissions/permission_manager.cpp:73-106 | for patterns whose last token is no star the matcher is sound and complete for the language |
| GlobTheory.StarPatternsDiffer | src/permissions/permission_manager.cpp:101-105 | for every pattern whose last token is a star some text tells the matcher from the language |
| GlobTheory.DecidesLanguageIff | src/permissions/permission_manager.cpp:68-109 | the entry decides the language of exactly the patterns whose last token is no star, and of `**` |
| GlobTheory.SlashBehindStarsCounterexample | src/permissions/permission_manager.cpp:76-84 | `**/` denotes the empty text but does not match it |
| Permissions.PermissionManager.AddRule | src/permissions/permission_manager.cpp:14-17 | the rule comes last, nothing else changes |
| Permissions.PermissionManager.RemoveRule | src/permissions/permission_manager.cpp:19-25 | every rule with the pattern goes, the others keep their order |
| Permissions.PermissionManager.SetMode | src/permissions/permission_manager.cpp:51-56 | the mode is set; a bypass mode also makes Allow the default |
| Permissions.PermissionManager.LoadDefaults | src/permissions/permission_manager.cpp:58-66 | the six default rules are appended in order |
| Permissions.PermissionManager.Check | src/permissions/permission_manager.cpp:27-49 | the first matching rule decides, the default level if none does, Allow in a bypass mode |
| Permissions.DecisionIsUnique | src/permissions/permission_manager.cpp:27-49 | every policy decides every target in one way |
| Permissions.RemoveRuleKeepsOtherDecisions | src/permissions/permission_manager.cpp:19-49 | removing a rule changes no decision that a removed rule did not make |
| Permissions.BypassOutlivesItsMode | src/permissions/permission_manager.cpp:51-56 | the detour through a bypass mode leaves a decision as it was exactly when the default is Allow already or a rule matches; otherwise the target becomes allowed |
| Permissions.MatchUnder | src/permissions/permission_manager.cpp:60-65 | a plain path with `/**` matches the path itself and everything strictly below it, nothing else |
| Permissions.MatchAnywhere | src/permissions/permission_manager.cpp:60-61 | `**/w/**` matches exactly the texts with w at the end, or w, a slash and more, anywhere |
| Permissions.DefaultDecisions | src/permissions/permission_manager.cpp:27-66 | the default rules in default mode, exactly: when they deny, and that they ask otherwise and never allow |
| Permissions.DefaultsDeny | src/permissions/permission_manager.cpp:58-66 | every path ending in `.git`, and everything strictly below one, is denied |
| Decimal.StoiOfToString | src/protocol/lsp/lsp_client.cpp:172-193 | parsing a printed size gives it back exactly when it fits in an int, and out_of_range otherwise |
| Decimal.StoiOfParts | src/protocol/lsp/lsp_client.cpp:193 | what `stoi` reads: blanks in front, one sign, the digits, and anything behind them; without digits it throws |
| Decimal.ValueConcat | src/protocol/lsp/lsp_client.cpp:193 | the digits are read in decimal notation, of any length |
| Decimal.ValueOfDigit | src/protocol/lsp/lsp_client.cpp:172 | every digit character stands for its digit |
| Framing.FindHeader | src/protocol/lsp/lsp_client.cpp:188-194 | the searches and the parse compute the scan that `HeaderBlocks.ScanBlock` characterises for every header block |
| Framing.LspTake | src/protocol/lsp/lsp_client.cpp:187-201 | one attempt of the LSP client: wait, throw, or one message and the rest |
| Framing.McpTake | src/protocol/mcp/mcp_transport.cpp:404-418 | one attempt of the MCP connection, with its int comparison and the throw of a cut before the buffer |
| Framing.CastIsInt | src/protocol/mcp/mcp_transport.cpp:411 | the cast of a size to int stays in the range of int and is the same modulo 2^32 |
| Framing.ScanStable | src/protocol/lsp/lsp_client.cpp:188-194 | once a header is complete, later bytes do not change what it says |
| Framing.LspDeliverStableIff | src/protocol/lsp/lsp_client.cpp:193-198 | what the LSP client takes, and what is left of the whole stream, is independent of all later bytes exactly when the length in the header is not negative |
| Framing.McpDeliverStableIff | src/protocol/mcp/mcp_transport.cpp:411-415 | what the MCP connection takes from a buffer it takes from a longer one exactly when the length is not negative and the longer one, cast to int, still holds enough; for every buffer and every continuation |
| HeaderBlocks.ScanBlock | src/protocol/lsp/lsp_client.cpp:188-194 | in any header block of field lines, in any order and with anything behind it, the search finds the number behind the first mention of Content-Length and the content behind the empty line, and nothing if there is no mention |
| HeaderBlocks.BlockTaken | src/protocol/mcp/mcp_transport.cpp:404-418 | what either client does behind any header block with any bytes behind it: wait, throw, or take exactly the announced bytes |
| HeaderBlocks.LspDeliversIff | src/protocol/lsp/lsp_client.cpp:188-200 | behind any header block the LSP client takes exactly the message, and leaves exactly the rest, iff the block's first length is the message's |
| HeaderBlocks.McpDeliversIff | src/protocol/mcp/mcp_transport.cpp:404-418 | the MCP connection iff, besides, the bytes behind the header, cast to int, are not fewer |
| HeaderBlocks.WaitsForeverIff | src/protocol/lsp/lsp_client.cpp:188-201 | the LSP client waits whatever follows a block exactly when no line has the name, or its number reaches back before the block |
| HeaderBlocks.PacketRoundTripIff | src/protocol/lsp/lsp_client.cpp:188-200 | a packet with other header fields around an honest length is taken out exactly, iff its message fits in an int; otherwise the read throws |
| HeaderBlocks.McpPacketRoundTripIff | src/protocol/mcp/mcp_transport.cpp:404-418 | the same for the MCP connection, with the condition of its cast |
| HeaderBlocks.FrameIsPacket | src/protocol/lsp/lsp_client.cpp:172 | what the clients write is such a packet, with the length as its only field |
| HeaderBlocks.FrameRoundTripIff | src/protocol/lsp/lsp_client.cpp:170-200 | a written frame is taken out exactly, whatever the body contains and whatever follows, iff its length fits in an int; otherwise the read throws |
| Framing.McpTakesWhatLspTakesIff | src/protocol/mcp/mcp_transport.cpp:404-418 | the two transports do the same on a buffer, of any size and with any length in the header, exactly when the cast to int hides no complete message and lets no negative length reach before the buffer |
| HeaderBlocks.McpFrameRoundTripIff | src/protocol/mcp/mcp_transport.cpp:342-418 | the MCP connection takes a written frame out exactly, iff its length fits in an int and the bytes behind the header, cast to int, are not fewer |
| Receiving.RunDelivers | src/protocol/lsp/lsp_client.cpp:177-222 | over any sequence of receive calls and any reads, on packets with any header fields and messages of any size: the delivered messages are the first in order and the packets of the others are still in buffer and pipe, after time-outs and exceptions too |
| Receiving.NothingWaits | src/protocol/lsp/lsp_client.cpp:186-201 | a stream of packets of any size the client waits on holds no message |
| Receiving.ReceiveOne | src/protocol/lsp/lsp_client.cpp:187-201 | a receive call on a stream of packets takes the first message or nothing, and the stream goes on behind it |
| Receiving.NeverThrows | src/protocol/lsp/lsp_client.cpp:193 | on a stream of packets neither transport throws until a message that does not fit in an int is the first one, wherever the buffer ends |
| Receiving.UninterruptedCallReceives | src/protocol/lsp/lsp_client.cpp:177-222 | a call that is not interrupted returns a message exactly when one is waiting and fits in an int |
| Receiving.CompleteRunDelivers | src/protocol/lsp/lsp_client.cpp:177-222 | k calls without interruption deliver exactly the first k messages, or all of them, or all before the first that does not fit in an int |
| Receiving.SendsMakePackets | src/protocol/lsp/lsp_client.cpp:170-175 | what successful sends leave in the pipe are the packets of the messages, in order |
| Receiving.SentIsReceived | src/protocol/lsp/lsp_client.cpp:170-222 | from one end to the other: k uninterrupted calls read the first k of the messages that were sent, all of them if they fit in an int and k is enough |
| LspClients.LspClient.SendMessage | src/protocol/lsp/lsp_client.cpp:170-175 | one write of the whole frame, true exactly when all of it was taken |
| McpTransports.McpConnection.Send | src/protocol/mcp/mcp_transport.cpp:347-352 | the same frame, written the same way |
| LspClients.LspClient.ReceiveMessage | src/protocol/lsp/lsp_client.cpp:177-222 | every ending is a step of the run above: a received message is cut out of the grown buffer, any other ending loses no byte; without an interruption it is one of the complete calls above: a message, an exception, or an empty pipe and no complete frame |
| McpTransports.McpConnection.Receive | src/protocol/mcp/mcp_transport.cpp:355-422 | the same for the stdio connection, which delivers only in a call that also read something |
| Base64.Alphabet | src/util/crypto_utils.cpp:26-27 | the table both codecs index, letter by letter |
| Base64.TripleGroups | src/util/crypto_utils.cpp:42-47 | cutting a 24-bit word gives the same groups as masking byte by byte |
| Base64.CryptoEncode | src/util/crypto_utils.cpp:29-50 | the loop over triples produces the standard encoding: `=` at character i exactly when i is at least (4n + 2) / 3, letters of the table elsewhere |
| Base64.BridgeEncode | src/bridge/bridge_server.cpp:562-591 | the byte-by-byte encoder produces the same encoding, padding included |
| Base64.EncodingIsPadded | src/util/crypto_utils.cpp:46-47 | both results are padded with `=` exactly behind the last begun group, and every other character is one of the table's |
| Base64.QuadNumber | src/util/crypto_utils.cpp:36-47 | the groups of a quad are the number its bytes make, with zero bits where bytes are missing |
| Base64.EncodedLength | src/util/crypto_utils.cpp:31 | the output has four characters for every three bytes begun |
| Base64.Emitted | src/util/crypto_utils.cpp:68-71 | whatever else the wrapping 32-bit accumulator holds, each emitted byte is the last two groups meeting |
| Base64.CryptoDecode | src/util/crypto_utils.cpp:52-76 | the loop with the wrapping accumulator regroups the sextets up to the first `=`, skipping foreign characters |
| Base64.BridgeDecode | src/bridge/bridge_server.cpp:542-560 | the same up to the first foreign character |
| Base64.SextetsOfSpell | src/util/crypto_utils.cpp:65-67 | both decoders read back every spelled list of sextets, padded or not |
| Base64.BytesOfGroups | src/util/crypto_utils.cpp:36-73 | regrouping the 6-bit groups of any bytes gives the bytes back |
| Base64.RoundTrip | src/util/crypto_utils.cpp:29-76 | either decoder after either encoder gives back every byte string |
| Base64.WideAgrees | src/util/crypto_utils.cpp:64-73 | an accumulator that never loses a bit emits the same bytes from every input |
| Base64.SextetsAgreeIff | src/bridge/bridge_server.cpp:550-551 | the two decoders read the same groups exactly when foreign characters come only at the end |
| Base64.DecodersAgreeIff | src/util/crypto_utils.cpp:65-74 | they return the same bytes exactly when as many alphabet characters stand before the first `=` as before the first foreign character, or one more behind a multiple of four |
| Base64.CryptoReadsLetters | src/util/crypto_utils.cpp:65-67 | skipping foreign characters is reading the text up to the first `=` without them |
| Base64.BridgeSextetAt | src/bridge/bridge_server.cpp:549-552 | in front of the first foreign character the i-th group is the value of the i-th character |
| WebSocket.BuildFrame | src/bridge/bridge_server.cpp:441-463 | the pushed bytes, one by one: first byte, the length in the first of three forms that fits, in network byte order, and the payload |
| WebSocket.BigEndianAt | src/bridge/bridge_server.cpp:455-460 | the i-th byte of a length is the length shifted right by eight bits for every byte behind it |
| WebSocket.SendFrame | src/bridge/bridge_server.cpp:465-466 | one send of the whole frame, true exactly when all of it was taken |
| WebSocket.ReadLength | src/bridge/bridge_server.cpp:503-515 | the length is the 7 bits, or the 2 or 8 big-endian bytes, which are consumed; it fails only if they were not there or the read brought too few |
| WebSocket.ReadPayload | src/bridge/bridge_server.cpp:525-539 | despite short reads exactly n bytes are consumed and returned, the i-th combined with the key's byte i % 4; it fails only if they were not there or a read brought nothing |
| WebSocket.ReadBody | src/bridge/bridge_server.cpp:517-539 | the mask key is read first, then a length no string can have throws, then the payload is read |
| WebSocket.AnswerPing | src/bridge/bridge_server.cpp:487-501 | a ping consumes its 7-bit length and is answered with its own bytes, padded with zeros at the end of the stream |
| WebSocket.RecvFrame | src/bridge/bridge_server.cpp:469-540 | received, closed, lost or thrown: exactly what the bytes parse to, consuming exactly those bytes and sending exactly the replies to pings and close, however the payload was cut, unless a read of a fixed field brought too little; in any case bytes are taken from the front only, and what ends the call otherwise starts at some place of the stream |
| WebSocket.HandleConnection | src/bridge/bridge_server.cpp:381-418 | the connection loop handles the messages the bytes parse to, in order, up to the first empty one, an exception or the stop of the server |
| WebSocket.LengthBack | src/bridge/bridge_server.cpp:448-460 | a written length is read back in each of its three forms, masked or not |
| WebSocket.FrameRoundTrip | src/bridge/bridge_server.cpp:441-540 | receiving a sent frame yields its payload and consumes exactly its bytes, or throws in front of the payload exactly when no string can be that long |
| WebSocket.MaskedRoundTrip | src/bridge/bridge_server.cpp:517-537 | the same for a frame masked with any key |
| WebSocket.ConnectionHandles | src/bridge/bridge_server.cpp:381-384 | whatever a peer sends, masked with any keys or not, text or binary, with unmasked pings in between: its messages are handled in order, up to the first empty or too long one or a close |
| WebSocket.AllMessagesArriveIff | src/bridge/bridge_server.cpp:381-384 | every message of such a peer arrives exactly when none is empty, none is longer than a string can be and none comes behind a close frame |
| WebSocket.UnmaskedPingSkipped | src/bridge/bridge_server.cpp:487-501 | an unmasked ping is skipped as a whole |
| WebSocket.MaskedPingLeavesFourBytes | src/bridge/bridge_server.cpp:487-501 | behind a masked ping the reader goes on four bytes before the next frame |
| WebSocket.AnswersAreFrames | src/bridge/bridge_server.cpp:481-501 | an unmasked ping is answered by a pong frame with its own data, a close frame by an empty close frame, a data frame by nothing |
| WebSocket.MaskedPingAnswer | src/bridge/bridge_server.cpp:487-501 | a masked ping is answered by a pong frame with its key and the front of its masked data |
| FileEdit.GreedyIsOptimal | src/tools/file_edit_tool.cpp:61-67 | no choice of non-overlapping occurrences has more members than the greedy count |
| FileEdit.CountIsMaximum | src/tools/file_edit_tool.cpp:61-67 | the greedy count is the largest number of pairwise non-overlapping occurrences |
| FileEdit.CountMatches | src/tools/file_edit_tool.cpp:61-67 | the counting loop returns the greedy count |
| FileEdit.ApplyReplacement | src/tools/file_edit_tool.cpp:53-81 | a result exactly when the old string is not empty and matches once, or more often with nothing to change, and then the content as it was; the count; an empty old string leaves it alone |
| FileEdit.AppliesIff | src/tools/file_edit_tool.cpp:53-81 | an edit is made exactly when its old string occurs and, unless it changes nothing, no two occurrences are apart |
| FileEdit.ApplySingle | src/tools/file_edit_tool.cpp:78-80 | a single match: the text in front of it is the shortest, and the text around it stays |
| FileEdit.OthersOverlap | src/tools/file_edit_tool.cpp:61-76 | with count 1 every other occurrence overlaps the one replaced |
| FileEdit.CountOneMeansUniqueIff | src/tools/file_edit_tool.cpp:40-76 | count 1 means "occurs exactly once" in every text exactly when the old string has no border |
| FileEdit.MultiEdit | src/tools/file_edit_tool.cpp:226-253 | success is the left-to-right composition of all edits; otherwise there is no content, and the error says of the first edit that fails why its old string cannot be replaced in what the earlier ones left: it is empty, it does not occur, or it is changed and occurs apart, with the largest number of disjoint occurrences |
| FileEdit.ComposedLength | src/tools/file_edit_tool.cpp:226-253 | the final length is the original plus the growth of each edit |
| FileEdit.DisjointEditsCommute | src/tools/file_edit_tool.cpp:230-253 | two edits at disjoint places, each unique before and after the other, give the same text in either order |
| FileEdit.ApplyAtIff | src/tools/file_edit_tool.cpp:61-80 | a replacement has the effect of exchanging one given occurrence exactly when it changes nothing, or there is one match that is this occurrence or slides onto it |
| FileEdit.PromiseKeptIff | src/tools/file_edit_tool.cpp:34-40 | an edit and a later one behind it give what both give on the original exactly when the second one hits its place in what the first one left |
| FileEdit.PromiseKeptBackwardsIff | src/tools/file_edit_tool.cpp:34-40 | the same for a later edit in front of the first one |
| FileEdit.PromiseKeptIfStillUnique | src/tools/file_edit_tool.cpp:34-40 | for an old string without a border: exactly when it changes nothing or is still unique in what the first edit left |
| FileEdit.AllPromisesKeptIff | src/tools/file_edit_tool.cpp:34-40 | any list of edits, with places in any order: each has the effect it would have on the original exactly when each hits its place in the text with the earlier ones made |
| FileEdit.PromisedTextIsReturned | src/tools/file_edit_tool.cpp:226-253 | the fold then returns the original with every edit made at its place |
| FileEdit.LateEditNeedsNewText | src/tools/file_edit_tool.cpp:230-253 | an edit without a place in the original succeeds only at an occurrence touching the first edit's new text |
| FileEdit.EditsSeeEarlierEdits | src/tools/file_edit_tool.cpp:34-37 | the smallest example: an edit that fails on the original text succeeds on what the edit before it left |
| Diff.CommonPrefix | src/tools/file_edit_tool.cpp:89-92 | the longest common front of the two line lists |
| Diff.CommonSuffix | src/tools/file_edit_tool.cpp:94-97 | the longest common back that does not overlap the front |
| Diff.GenerateDiff | src/tools/file_edit_tool.cpp:83-122 | the report prints the hunk left between the longest common front and back; read from its text alone, on any one-line path, it names the path and turns the old lines into the new ones, and backwards |
| Diff.TrimmedIsUnique | src/tools/file_edit_tool.cpp:89-97 | there is only one such front and back, so the report is determined |
| Diff.HunkTurns | src/tools/file_edit_tool.cpp:89-97 | the hunk turns the old lines into the new ones |
| Diff.HunkIsMinimal | src/tools/file_edit_tool.cpp:89-97 | no other single hunk removes or adds fewer lines |
| Diff.DiffReproducesNewContent | src/tools/file_edit_tool.cpp:83-122 | applying the hunk to the old text's lines and joining them gives the new text |
| Diff.ReportSplitsBack | src/tools/file_edit_tool.cpp:99-121 | splitting the report at line feeds gives back its header, removed and added lines |
| Diff.ReportReadsBackIff | src/tools/file_edit_tool.cpp:99-121 | a reader of the text (two names, the two ranges of the header, as many lines with a minus and then with a plus) gets back path, line numbers, removed and added lines exactly when the path has no line feed |
| Diff.HunkExplains | src/tools/file_edit_tool.cpp:104-121 | what is read, followed forwards from the old line number and backwards from the new one, leads from either text's lines to the other's |
| Diff.SplitLinesAreOneLiners | src/tools/file_edit_tool.cpp:86-87 | the lines of every text are free of line feeds, so every report splits back |
| Messages.TextContent | src/engine/message.h:98-106 | the texts of the text blocks, one behind the other |
| Messages.UserMessageSays | src/engine/message.cpp:68-74 | the user's message is the user's, its text is what was said, and it has no tool calls |
| Messages.CollectToolCalls | src/engine/message.h:108-116 | the tool calls of the tool-use blocks, in order |
| Messages.ToolCallPlaces | src/engine/message.h:108-116 | the tool calls are those of all tool-use blocks, one each, in order |
| Accumulators.StreamParser.FeedEvent | src/engine/stream_parser.cpp:16-85 | each event changes message, open block, tool buffer and flags as the event function says |
| Accumulators.StreamParser.Reset | src/engine/stream_parser.cpp:6-14 | the state is that of a new parser |
| Accumulators.StreamParser.HasToolCalls | src/engine/stream_parser.cpp:87-92 | true exactly when there is a tool call to get |
| Accumulators.StreamParser.GetToolCalls | src/engine/stream_parser.cpp:94-96 | the tool calls of the message so far, in order |
| Accumulators.SimulationHolds | src/engine/stream_parser.cpp:16-85 | the two machines stay in step, open block and tool buffer included, over every event list that reports no error |
| Accumulators.LengthsDiffer | src/api/anthropic_client.cpp:91-97 | the client's response gets one block more for every reported error |
| Accumulators.AccumulatorsAgreeIff | src/api/anthropic_client.cpp:46-101 | they end with the same id, model, blocks, stop reason and output tokens exactly when no event reports an error |
| Accumulators.ParserKeepsLast | src/engine/stream_parser.cpp:16-85 | after any events the stop reason is the last one told, `error` for a reported error; output tokens are the sum of all deltas; complete means a message stop or a reported error came |
| Accumulators.ParserKeepsStart | src/engine/stream_parser.cpp:18-24 | id and model are those of the last message start |
| Accumulators.ResponseKeepsLast | src/api/anthropic_client.cpp:46-101 | the same stop reason and output tokens for the client's response |
| Accumulators.ResponseKeepsStart | src/api/anthropic_client.cpp:49-56 | the same id and model, and the usage that message came with |
| Accumulators.EmptyEventsChangeNothing | src/engine/stream_parser.cpp:16-85 | an event without what it should carry, or with no open block to take it, changes neither machine |
| Accumulators.ErrorIsATextBlock | src/api/anthropic_client.cpp:91-97 | between two blocks a reported error is to the response what a whole text block with its message and the stop reason `error` is |
| Accumulators.ErrorStandsBehind | src/api/anthropic_client.cpp:91-97 | inside a block its text block stands behind that block, which stays open |
| Accumulators.OnlyOutputIsCounted | src/engine/stream_parser.cpp:26-38 | no other token is ever counted, and the end of the message overwrites its usage |
| Accumulators.BlockRebuilt | src/engine/stream_parser.cpp:40-71 | one block streamed in any pieces is appended exactly, and nothing leaks out of it or into it |
| Accumulators.MessageRebuilt | src/engine/stream_parser.cpp:16-85 | any message streamed in any pieces is rebuilt by both machines |
| Sse.LinesOfConcat | src/api/anthropic_client.cpp:115-133 | cutting lines does not depend on where the text is cut: the tail is carried over |
| Sse.FieldValueIff | src/api/sse_parser.cpp:22-45 | the parser reads a field as the standard does exactly when one space and no second one follows the colon, or nothing |
| Sse.LineEffect | src/api/sse_parser.cpp:10-48 | an event line sets the type if it has one, a data line that is not empty dispatches it once, and no other line does anything |
| Sse.StreamingContext.AbsorbEvent | src/api/anthropic_client.cpp:49-98 | the switch updates response, open block and tool buffer in place as the event function says |
| Sse.StreamingContext.ProcessLine | src/api/anthropic_client.cpp:34-100 | one line: what is dispatched, and the response is always that of the events dispatched so far |
| Sse.StreamingContext.WriteCallback | src/api/anthropic_client.cpp:106-136 | one chunk: every line it completes is processed in order, the tail is kept; nothing happens after an abort |
| Sse.ChunkingDoesNotMatter | src/api/anthropic_client.cpp:106-136 | buffer and dispatched events depend on the concatenation of the chunks alone, and no line feed waits in the buffer |
| Sse.RenderedDispatch | src/api/anthropic_client.cpp:34-45 | rendered events with plain one-line fields are dispatched once each, in order, with their types |
| Sse.ArrivesIff | src/api/sse_parser.cpp:10-48 | a single event arrives as written exactly when type and data are plain one-line fields and the data is not empty |
| Sse.ReceivedUnchangedIff | src/api/sse_parser.cpp:22-37 | a one-line value comes out unchanged exactly when it starts with no space and, before a bare line feed, ends in no carriage return |
| Sse.EventsArrive | src/api/anthropic_client.cpp:106-136 | end to end: rendered, cut anywhere and read, every event arrives |
| Sse.StreamedMessageArrives | src/api/anthropic_client.cpp:34-136 | from a message to the response: streamed in any pieces, rendered, cut anywhere, read, parsed and absorbed, it is the same message |
| CostTracking.SumOfUpdate | src/engine/cost_tracker.cpp:17-25 | recording a usage under any model adds it to the sum over the models |
| CostTracking.CostTracker.RecordUsage | src/engine/cost_tracker.cpp:9-15 | each of the four totals grows by its part of the usage |
| CostTracking.CostTracker.RecordModelUsage | src/engine/cost_tracker.cpp:17-25 | one model's entry, and the sum over the models, grow by the usage |
| CostTracking.CostTracker.RecordApiCall | src/engine/cost_tracker.cpp:27-31 | one call more |
| CostTracking.CostTracker.IncrementToolCalls | src/engine/cost_tracker.h:52 | one tool call more |
| CostTracking.CostTracker.Reset | src/engine/cost_tracker.cpp:57-68 | everything is zero and the totals still balance |
| History.CreateToolResultMessage | src/engine/query_pipeline.cpp:197-209 | a user message with one result block per result, from which the results are read back in order |
| History.RunKeepsInv | src/engine/query_engine.cpp:113-184 | what one run appends keeps every result right behind the tool uses it answers, in order and complete unless an abort came |
| History.RunLength | src/engine/query_engine.cpp:113-177 | a run goes on exactly behind a response that stopped for tools and has tool calls, up to the limit or an abort |
| History.RunIsBounded | src/engine/query_engine.cpp:94-184 | one run appends at most one message and two per allowed iteration |
| History.CompactionIsMaximal | src/engine/query_engine.cpp:32-62 | compaction keeps the longest suffix within the limit that starts at a plain user message, if there is one |
| History.CompactionKeepsInv | src/engine/query_engine.cpp:32-62 | compaction never leaves a result without its tool use |
| History.StepKeepsInv | src/engine/query_engine.cpp:22-184 | execute, execute_with_options, compact, clear_history, abort and the limit all keep the pairing, and the abort flag only rises |
| History.EveryHistoryIsPaired | src/engine/query_engine.cpp:22-184 | so does every interleaving of them from a new engine |
| History.ResultFollowsItsUse | src/engine/query_engine.cpp:156-173 | in such a history every result message follows an assistant message and answers a prefix of its tool uses; all of them unless an abort came, and then only user messages follow |
| History.RunAnswersIff | src/engine/query_engine.cpp:146-177 | what a run leaves behind has every tool use answered right behind it exactly when every turn has all its results |
| History.UnabortedRunAnswersIff | src/engine/query_engine.cpp:150-177 | without an abort: exactly when every response with tool uses stopped for them |
| History.StepKeepsAnswers | src/engine/query_engine.cpp:22-184 | every operation whose turns have all their results keeps all tool uses answered, compaction included |
| History.EveryUseIsAnswered | src/engine/query_engine.cpp:22-184 | so in every history reached by such operations |
| History.AbortIsForever | src/engine/query_engine.cpp:22-25 | once aborted, execute only appends the user's message |
| QueryEngines.QueryEngine.AbortQuery | src/engine/query_engine.cpp:22-25 | the flag is raised |
| QueryEngines.QueryEngine.ClearHistory | src/engine/query_engine.cpp:27-30 | the history is empty, flag and limit stay |
| QueryEngines.QueryEngine.SetMaxIterations | src/engine/query_engine.h:58 | the limit is set, history and flag stay |
| QueryEngines.QueryEngine.Compact | src/engine/query_engine.cpp:32-62 | the loop removes up to the first plain user message behind the cut, or nothing; removed and remaining add up |
| QueryEngines.QueryEngine.ExecuteToolCall | src/engine/query_engine.cpp:186-232 | every call gets a result under its own id: a known tool runs once and its content or error message is the result, an unknown tool gives an error |
| QueryEngines.QueryEngine.ExecuteToolCalls | src/engine/query_engine.cpp:160-167 | the known tools of a prefix of the calls run, in order and once each; the i-th result tells the output of the i-th call, or that its tool is unknown; all calls unless an abort came, and each is counted |
| QueryEngines.QueryEngine.RecordCosts | src/engine/query_engine.cpp:141-144 | the response's tokens go into the totals and under its model's name, and one call is counted |
| QueryEngines.QueryEngine.RunTurn | src/engine/query_engine.cpp:130-173 | one request: usage recorded in the totals and under the response's model, the response appended, its tools run, and the results that tell their outputs appended |
| QueryEngines.QueryEngine.RunToolCallLoop | src/engine/query_engine.cpp:113-184 | the history grows by the run's turns; every request after the first is the whole history, and the turns are made of the API's answers; the tools that ran are exactly those the turns call, in order, and every result tells its output; every model is charged for its answers; the turns end for one of the three reasons; the final response is the last one, marked after an abort, which only another thread raises |
| QueryEngines.QueryEngine.Execute | src/engine/query_engine.cpp:64-97 | the same behind the user's message, every request is exactly the history, and the engine's invariant is kept |
| QueryEngines.QueryEngine.ExecuteWithOptions | src/engine/query_engine.cpp:109-111 | the same for a caller's own first request |
| QueryEngines.CountedCallsAreResults | src/engine/query_engine.cpp:160-173 | the counted tool calls of a run are exactly the tool results it put into the history |
| McpTools.ToolRegistry.RegisterTool | src/tools/tool_registry.cpp:8-12 | one name is added or replaced |
| McpTools.McpToolManager.RemoveServerTools | src/tools/mcp_tool.cpp:120-132 | the server and its tools leave both maps, which still agree, and the registry keeps them |
| McpTools.McpToolManager.SyncServerTools | src/tools/mcp_tool.cpp:151-181 | the old tools go, the listed ones whose names are free are registered with their first definitions and assigned, in listing order and once each; the maps still agree |
| McpTools.McpToolManager.RegisterListing | src/tools/mcp_tool.cpp:161-177 | the loop over the listing: names in order, each new one registered with the server and the definition it was first listed with |
| McpTools.OfferedAdds | src/tools/mcp_tool.cpp:163-176 | after any listing the registry keeps every tool it had, and a new name has the first definition listed under it |
| McpTools.FreshNames | src/tools/mcp_tool.cpp:163-176 | a sync takes exactly the listed names that were not registered, without repetition |
| McpTools.RemoveAgrees | src/tools/mcp_tool.cpp:183-191 | a removal keeps the two maps in agreement, every other server's list and the registry |
| McpTools.SyncAgrees | src/tools/mcp_tool.cpp:151-181 | so does a sync, whatever the server lists |
| McpTools.IndexAlwaysAgrees | src/tools/mcp_tool.cpp:107-191 | after any syncs, removals and other registrations a tool belongs to a server in one map iff the server lists it, once, in the other; all are registered, and the registry only grows |
| McpTools.NewManagerAlwaysAgrees | src/tools/mcp_tool.cpp:104-191 | so in the whole life of a new manager over any registry |
| McpTools.ListsAreDisjoint | src/tools/mcp_tool.cpp:107-191 | different servers never list the same tool |
| McpTools.McpToolManager.ToolCount | src/tools/mcp_tool.cpp:134-137 | the size of one map is the sum of the lengths of the lists in the other |
| McpTools.McpToolManager.ToolServer | src/tools/mcp_tool.cpp:139-149 | a server is returned exactly when its list in the other map has the tool |
| McpTools.ToolCountIsTotal | src/tools/mcp_tool.cpp:134-137 | the tool count is the sum of the lengths of the servers' lists |
| McpTools.SyncTracks | src/tools/mcp_tool.cpp:151-181 | after a sync the server's tools, and what is new in the registry, are exactly the listed names that were not registered before; none without a client |
| McpTools.ResyncDropsEveryTool | src/tools/mcp_tool.cpp:151-181 | no tool of a server survives its next sync, still listed or not |
| McpTools.NamesCollideIff | src/tools/mcp_tool.cpp:18-21 | two servers can produce the same tool name exactly when one prefix starts the other |

## Left out

- Sockets, pipes, processes, poll, curl, threads, locks, clocks and logging: replaced by arbitrary bytes, cuts and interruptions. A receive call is one step; two threads inside one call at once are not modelled.
- JSON: `parse_event` is an arbitrary function from type and data to an event; request bodies, JSON-RPC and tool schemas are not modelled.
- Timestamps, durations and prices of the cost tracker; overflow of the 64-bit token counters.
- QueryEngines.QueryEngine.CreateMessageStream: the response's role is assumed to be Assistant, as line 146 of src/engine/query_engine.cpp intends; the streaming path itself never assigns it.
- QueryEngines.QueryEngine.ExecuteToolCall: the permission check is left out, it allows everything in every mode.
- `execute_stream` and the display callbacks: they run the same loop.
- Strings.SplitString: an empty delimiter, for which the source's loop never ends, is excluded.
- Accumulators.StreamParser.FeedEvent: the open block is an index; a pointer left dangling by a reported error that grows the vector while a block is open is not modelled.
- WebSocket.RecvFrame: after a read that brought fewer bytes of a ping than were there, the place from which the code goes on is not named: it depends on how many came.
- WebSocket.ReadBody: the longest string that can be made is a parameter; whether a shorter one fails for lack of memory is not modelled.
- WebSocket.ConnectionHandles: masked pings among the frames are covered by `MaskedPingLeavesFourBytes` alone: what follows depends on the four bytes they leave.
- WebSocket.HandleConnection: what the loop does with a message (JSON, handler, acknowledgement) is left out.
- McpTransports.McpConnection.Receive: the SSE branch (a queue) is left out; a message that is already buffered is not promised without a further read, because the code reads first. `McpClient::read_response` is not part of this model.
- FileEdit.MultiEdit: file reading, writing and the modification-time check are left out, as is the 80-character preview in the error text.
- HeaderBlocks.ScanBlock: header lines that are empty or contain a lone carriage return are not field lines; what the search makes of such bytes is only said by `Framing.FindHeader`.
- Framing: a pipe that reports an error before it is read empty looks like one with nothing ready.
- `sync_tools` is a sequence of single syncs. A tool definition is its name and description; its input schema is left out.
- `starts_with`, `ends_with`, `trim`, `estimate_tokens`, `trim_messages` and other one-line helpers would only add easy members.
- Sessions, teams, commands, configuration, memory, plugins, rendering, hashing, UUIDs and the file-write tool's copy of the diff.
