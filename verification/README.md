# NativeCord: a verified model of its JSON engine, wire layer and session protocol

NativeCord is a Minecraft proxy. Players connect to it, it connects to a game server for each of
them, and it passes packets between the two while it keeps track of who is where. This project
models the deterministic logic of the proxy in Dafny and proves what that logic is for.

* **JSON** (`text`, `json`, `order`, `pointer`, `flatten`, `unflatten`, `put_law`, `patch`,
  `patch_law`, `diff_law`, `diff_places`, `escaping`, `lexer`, `string_literals`, `parser`, `grammar`,
  `dump`, `dump_law`, `parse_dump`): JSON Pointers, `flatten` and `unflatten`, `diff` and `patch`,
  `dump` and `parse`, equality and order. A `std::string` is a Dafny string whose characters stand for
  bytes; a `std::map` is a map together with the ascending list of its keys, which is the order its
  iterators visit them in.
* **Chat** (`chat`, `chat_law`, `chat_fields`): chat messages to and from their JSON text.
* **Wire** (`wire`, `data_buffer`, `fields`, `framing`, `link_law`, `connection`, `packets`,
  `entity_rewrite`, `relay`, `server_hash`, `base64`): the growable buffer, VarInts and typed fields, packet frames with and
  without compression, sockets that split the stream as they like, entity ids rewritten in place,
  the signed hexadecimal server hash, Base64.
* **Session** (`session`, `session_sent`, `session_dials`, `session_laws`, `player`, `scoreboard`): the
  states of a player and of the server connections made for it, what the client is sent, the fallback
  queue, server switches, scoreboard objectives.

Where the source works step by step, the model has a method with the source's loop, or a class with
its fields, proved against a function; the laws are then proved about that function. Exceptions are
`Result` values. zlib, `strtod`, the printing of floats, the allocator's leftovers and what the
network delivers are parameters.

The code does not keep every promise made for it. In each such case the model follows the code, and
a lemma says exactly for which inputs the promise holds:

| promise | holds exactly when | lemma |
|---|---|---|
| `unflatten(flatten(j)) == j`, under `operator==` (json.hpp:10003-10006) | no container is empty, no object's first flattened entry lies below the key "0", indices fit an `int` | `Unflatten.UnflattenFlatten` |
| `operator<` orders values | no unsigned number is 2^63 or more (floats apart) | `Order.ComparableExactly` |
| a number of digits is read exactly, as an integer or else as a float | it is below 2^64, or the guard stops one of its digits | `ParseDump.WrongIntegerExactly` |
| a scoreboard objective is kept under its name | the name has no zero byte | `Scoreboard.CreatedIsShown` |
| a text is parsed if and only if it is JSON | it is, where byte order marks count as blanks, the text ends at its first NUL and every high surrogate has its low one | `Grammar.ParsesExactly` |
| a chat message survives its text | no yellow, and hover values that start with a brace are canonical dumps | `ChatLaw.MessageRoundTrip` |
| `writeVarInt` terminates | the value is not negative | `Wire.WriteVarIntStops` |
| a string field is read back | at most 35000 bytes, none of them zero | `Wire.StringRoundTrip` |
| a frame is read back | the threshold is at least -1, or the packet is not empty | `Framing.FrameRoundTrip` |
| a client's packet reaches its server as it was | no entity id in it is rewritten (or fails to be read for that), and it came uncompressed | `Relay.ClientToServer` |
| a server's packet reaches the client as it was | no entity id in it is rewritten (or fails to be read for that), and its packet id takes one byte | `Relay.ServerToClient` |
| a packet about the player's own entity is given the id the other side knows | both sides know the same id (the rewriting goes the wrong way), and a client's packet came uncompressed | `Relay.OwnEntityIsTranslated` |
| a reader task that ends closes its connection | its first error is not thrown as a pointer (an over-long VarInt or string) or by a failed allocation | `Connections.Connection.ReaderTask` |
| a Respawn has the dimension of its Join Game | the dimension is not negative | `Packets.RespawnDimension` |
| rewriting an entity id yields the same packet with the other id | both take equally many bytes, or the new one is longer and ends the packet | `EntityRewrite.RewrittenExactly` |
| the hash of n bytes is printed without leading zeros | its absolute value is at least 16 * 256^(n-2) | `ServerHash.PrintedCanonical` |
| a client's scoreboard is empty after a reset | it was empty, or its version is 46 or above 47 | `Scoreboard.ResetEmptiesClient` |
| a server switch leaves the fallback queue alone | the old connection is closed already | `Session.SwitchDialsFallback` |
| a client plays on one server only, all through a run | no connection other than its open target ends meanwhile | `SessionLaws.RunSoleServer` |

## Model

| member | source | states |
|---|---|---|
| Text.StoiOfDecimal | include/json/json.hpp:9411-9416 | An array index written in decimal is read back by std::stoi exactly if it fits an `int` |
| Json.EqReflexive | include/json/json.hpp:5454-5527 | Every value equals itself under `operator==` |
| Json.EqSymmetric | include/json/json.hpp:5454-5527 | `operator==` is symmetric |
| Json.EqTransitive | include/json/json.hpp:5454-5527 | Without floats `operator==` is transitive |
| Json.EqNotTransitive | include/json/json.hpp:5511-5522 | With floats it is not |
| Order.DocumentedOrder | include/json/json.hpp:5396-5428 | null is less than booleans, these than numbers, these than objects, these than arrays, these than strings |
| Order.StrictWeakOrder | include/json/json.hpp:5638-5714 | On values without floats and with numbers that fit int64, `operator<` is irreflexive, asymmetric, transitive, has transitive ties, and its ties are exactly `operator==`, through nested arrays and objects |
| Order.ComparableExactly | include/json/json.hpp:5407-5428 | Among float-free values, exactly those without unsigned numbers from 2^63 on are in no cycle of `operator<` |
| Order.LargeUnsignedCycles | include/json/json.hpp:5702-5709 | Any unsigned number from 2^63 on lies above 1 and below 0: the cast to a signed number closes a cycle |
| Order.Trichotomy | include/json/json.hpp:5454-5527 | Of two comparable values exactly one is less, or they are equal |
| Order.Transitivity | include/json/json.hpp:5638-5714 | "Not greater" is transitive, and strict if one of its steps is |
| Order.NumbersBySize | include/json/json.hpp:5665-5709 | Numbers of any two types, floats included, are ordered by size as long as unsigned ones stay below 2^63 |
| Order.StringsByFirstDifference | include/json/json.hpp:5656-5668 | Strings are compared byte by byte, a proper prefix being less; false is less than true |
| Order.ArraysByFirstDifference | include/json/json.hpp:5645-5650 | An array is less than another if and only if, after elements that tie, it ends first or its next element is less |
| Order.ObjectsByFirstDifference | include/json/json.hpp:5651-5654 | The same for the members of objects in key order, keys deciding before values |
| Pointer.ReplaceSubstring | include/json/json.hpp:9709-9722 | The in-place find-and-replace loop replaces every occurrence from left to right and never looks into what it has put in |
| Pointer.EscapeIsWellFormed | include/json/json.hpp:9724-9730 | An escaped token has no "/" and every "~" is followed by 0 or 1 |
| Pointer.UnescapeEscape | include/json/json.hpp:9724-9739 | The two passes of `unescape` undo the two passes of `escape` on every string |
| Pointer.EscapeUnescape | include/json/json.hpp:9724-9739 | `escape` undoes `unescape` on every well-formed token |
| Pointer.EscapeTable | include/json/json.hpp:9724-9739 | A tilde is written "~0", a slash "~1" and everything else as it is, and each of these is read back |
| Pointer.CheckEscapes | include/json/json.hpp:9668-9683 | The check in `split` accepts exactly the tokens whose every "~" starts an escape |
| Pointer.SplitString | include/json/json.hpp:9634-9692 | The scanning loop of `split` yields the tokens between the slashes, unescaped, or the error of the first bad one |
| Pointer.SplitToString | include/json/json.hpp:9315-9335 | Splitting the text of any token list yields the list, whatever characters the tokens hold |
| Pointer.ToStringSplit | include/json/json.hpp:9315-9335 | A text that `split` accepts is the text of the pointer it yields |
| Pointer.SplitAccepts | include/json/json.hpp:9634-9692 | `split` accepts exactly the texts of pointers |
| Pointer.ToStringInjective | include/json/json.hpp:9327-9335 | Different pointers have different texts |
| Flatten.FlattenTo | include/json/json.hpp:9748-9799 | The recursive loops add to the result exactly the entries below the reference string |
| Flatten.FlattenExact | include/json/json.hpp:9748-9799 | The flattened object maps the pointer of each leaf (an empty container counting as null) to it, and has no other key |
| Unflatten.UnflattenLoop | include/json/json.hpp:9806-9832 | Replaying the members in key order through `get_and_create` gives the unflattened value or the first error |
| PutLaw.PutReaches | include/json/json.hpp:9380-9434 | What `get_and_create` puts into any value is found where it was put |
| PutLaw.PutKeeps | include/json/json.hpp:9380-9434 | What could be found at a place that parts from it still is |
| PutLaw.PutFailsExactly | include/json/json.hpp:9380-9434 | It throws if and only if the way leads below a scalar or through a token that is no index of an array |
| PutLaw.UnflattenRefuses | include/json/json.hpp:9806-9829 | Only an object whose members are scalars under pointers for keys is unflattened |
| Unflatten.UnflattenFlatten | include/json/json.hpp:9380-9434 | A restorable value comes back from its flattened form as it was; any other gives an error or a value that `operator==` tells apart |
| Unflatten.ZeroKeyIsLost | include/json/json.hpp:9390-9403 | An object whose only key is "0" comes back as something that `operator==` tells apart |
| Unflatten.ReplayRestores | include/json/json.hpp:9806-9832 | Replaying all entries of a value, in the order of their pointer texts, rebuilds it exactly if it is restorable |
| Patch.PatchLoop | include/json/json.hpp:10067-10326 | The loop applies the operations one after the other and stops at the first that throws |
| PatchLaw.IllFormedThrows | include/json/json.hpp:10075-10244 | An operation without a name, a path or the members it needs, or with another name, throws invalid_argument, unless its path is found to be no pointer before |
| PatchLaw.AddPuts | include/json/json.hpp:10106-10167 | "add" sets a member or inserts an element before the index, after the last one for "-", and changes nothing else; a bad index throws |
| PatchLaw.AddAtRoot | include/json/json.hpp:10109-10112 | At the root it replaces the document |
| PatchLaw.AddBelowMissing | include/json/json.hpp:10115-10124 | Below a missing member it creates the object, although the parent does not exist, unless that member is at the top |
| PatchLaw.RemoveTakesOut | include/json/json.hpp:10170-10196 | "remove" takes out a member or an element, the later ones moving down, and throws if there is none; below a scalar it does nothing |
| PatchLaw.ReplaceChanges | include/json/json.hpp:10259-10264 | "replace" changes exactly a value that is there |
| PatchLaw.MoveIsRemoveThenAdd | include/json/json.hpp:10266-10281 | "move" is the patch of a "remove" and an "add" of the value removed |
| PatchLaw.CopyAssigns | include/json/json.hpp:10283-10291 | "copy" assigns: it replaces a value that is there, an element of an array included, and sets a member that an object lacks |
| PatchLaw.CopyToArray | include/json/json.hpp:10283-10291 | To an array position it assigns after filling the array up with nulls |
| PatchLaw.TestCompares | include/json/json.hpp:10293-10313 | "test" leaves the document alone if the value there equals the given one and throws in every other case |
| PatchLaw.AtFinds | include/json/json.hpp:9493-9535 | Checked access finds a member by its key, an element by an index without leading zeros, and throws otherwise |
| PatchLaw.StoiReads | include/json/json.hpp:9526-9527 | An index may have blanks and a sign in front and anything behind its digits, as std::stoi allows |
| Patch.DiffLoop | include/json/json.hpp:10360-10490 | The recursive comparison yields the list of operations specified |
| Patch.DiffArrays | include/json/json.hpp:10387-10428 | Common elements are compared, surplus ones removed from the back, missing ones appended |
| Patch.DiffObjects | include/json/json.hpp:10431-10473 | Keys of the source are removed or compared, then those of the target that it lacks are added |
| DiffLaw.DiffBecomes | include/json/json.hpp:10360-10490 | Inside any document, the operations of `diff` at a path run without error and change exactly the value at that path |
| DiffLaw.MergedIsTarget | include/json/json.hpp:10360-10490 | What they change it to equals the target |
| DiffLaw.PatchDiff | include/json/json.hpp:10334-10338 | `source.patch(diff(source, target)) == target`, with no error on the way, for all values whose indices fit an `int` |
| DiffPlaces.DiffEmpty | include/json/json.hpp:10366-10371 | A diff is empty if and only if the two values are equal |
| DiffPlaces.DiffIsMinimal | include/json/json.hpp:10360-10490 | Every operation of a diff is called for: it removes what only the source has, adds what only the target has, or replaces a value by an unequal one that is not a container of the same kind; no two operations touch the same place or one within the other |
| Escaping.ExtraSpaceExact | include/json/json.hpp:6188-6221 | `extra_space` is exactly what the escaped text is longer by; zero extra means nothing to escape |
| Escaping.EscapeString | include/json/json.hpp:6236-6341 | The preallocated buffer of backslashes is filled to its last character with the escaped text |
| Escaping.WriteEscaped | include/json/json.hpp:6256-6336 | One character's escape is written at the position, which advances by its length; the rest stays backslashes |
| Escaping.EscapedIsClean | include/json/json.hpp:6236-6341 | Escaped text has no control character and no quote without a backslash before it |
| Escaping.EscapesOnlyWhatItMust | include/json/json.hpp:6256-6336 | Only quotes, backslashes and control characters are escaped, each in one way |
| Escaping.ToUnicodeIsUtf8 | include/json/json.hpp:7649-7711 | The bytes are the shortest UTF-8 sequence of the code point or surrogate pair; the error cases are exactly a high surrogate without a low one and a point above 0x10FFFF |
| Lexer.Scanner.Next | include/json/json.hpp:7775-8555 | The scanner object skips blanks and moves to the end of the token that the scan function finds, or reports an error |
| Lexer.Scanner.GetString | include/json/json.hpp:8694-8797 | The loop unescapes the characters between the quotes, surrogate pairs included |
| StringLiterals.HexDenotes | include/json/json.hpp:8756-8759 | Four hexadecimal digits of either case are the number they spell in base 16 |
| StringLiterals.LiteralExactly | include/json/json.hpp:8694-8797 | The scanner accepts exactly the string literals of the grammar; `\uXXXX` is read as the UTF-8 sequence of its number, a surrogate pair as that of its code point, a short escape as its character, and a high surrogate alone is the only error |
| Lexer.Scanner.GetNumber | include/json/json.hpp:8880-8963 | A token is an integer of either sign if its digits accumulate without the overflow guard firing, a float otherwise |
| Parser.JsonParser.ParseInternal | include/json/json.hpp:9032-9223 | The parser object gives the parsed value and stops at the token after it, or gives the error |
| Parser.JsonParser.ParsePairs | include/json/json.hpp:9061-9114 | The loop over pairs reads the members of an object, the last of equal keys winning |
| Parser.JsonParser.ParseItems | include/json/json.hpp:9143-9170 | The loop over elements reads the elements of an array in order |
| Parser.JsonParser.Run | include/json/json.hpp:9015-9028 | A text parses only if it is one value with blanks around it, up to its end or its first NUL character |
| Grammar.TreeParsed | include/json/json.hpp:9032-9223 | Wherever the text of a JSON value stands, with any blanks between its tokens, the parser reads what it denotes and stops right behind it |
| Grammar.ParsesExactly | include/json/json.hpp:9015-9223 | A text parses if and only if it is one JSON value by the grammar of RFC 8259, up to its end or first NUL, byte order marks counting as blanks and every surrogate being one of a pair; the value is the one it denotes |
| Dump.DumpTo | include/json/json.hpp:6360-6498 | The recursive printer appends the value's text in the chosen style |
| DumpLaw.CompactArray | include/json/json.hpp:6410-6447 | A compact array is its elements between commas and brackets, with no blank added |
| DumpLaw.CompactObject | include/json/json.hpp:6370-6408 | A compact object is its members in key order between commas and braces, with no blank added |
| DumpLaw.PrettyArray | include/json/json.hpp:6410-6447 | A pretty-printed array has each element on its own line, one step further in |
| DumpLaw.PrettyObject | include/json/json.hpp:6370-6408 | A pretty-printed object has each member on its own line, with a blank after the colon |
| ParseDump.NumberRoundTrip | include/json/json.hpp:8880-8963 | Every integer from -2^63 to 2^64 - 1 comes back exactly through `get_number`, the least one if its negation wraps |
| ParseDump.WrapIsMissed | include/json/json.hpp:8930-8937 | One digit's wrapped sum passes the overflow guard if and only if it is neither below the value before nor above the maximum |
| ParseDump.WrongIntegerExactly | include/json/json.hpp:8880-8963 | Digits come back as a wrong integer if and only if they are 2^64 or more and every digit passes the guard; it is the number modulo 2^64 |
| ParseDump.WrongNegativeExactly | include/json/json.hpp:8880-8963 | The same with a minus sign, where integers end at -2^63 |
| ParseDump.WrongIntegerIsRead | include/json/json.hpp:8930-8937 | 30000000000000000000 is read as the integer 11553255926290448384 |
| ParseDump.AccumulateDecimal | include/json/json.hpp:8908-8942 | The accumulation loop with its overflow guard computes any number up to the maximum |
| ParseDump.StringRoundTrip | include/json/json.hpp:8694-8797 | An escaped string in quotes scans as one token, and `get_string` returns the original |
| ParseDump.ValueParsed | include/json/json.hpp:9032-9223 | Wherever a dumped value stands in a text, the parser reads it and stops right behind it |
| ParseDump.ParseDumped | include/json/json.hpp:6360-6498 | Parsing the dump of a float-free value, compact or with any indentation, consumes all of it and gives an equal value |
| Chat.FillStyle | src/chat/ChatMessage.cpp:13-74 | Each of the seven keys is there exactly if its own field of the message asks for it, with the value that field gives, and there is no other key |
| Chat.ToStringLoop | src/chat/ChatMessage.cpp:12-90 | The printed text is the dump of style, children and events, or the error of a child or hover value |
| Chat.Construct | src/chat/ChatMessage.cpp:92-163 | The constructor reads every field, event and child, or throws where a field has the wrong type |
| ChatFields.ConstructorReads | src/chat/ChatMessage.cpp:92-163 | The constructor accepts exactly the values whose fields have the right types, at any depth, and anything else is a domain error; a flag is set if and only if its key is there with true, a missing text is empty, a missing or unknown colour white, an event's value that is no string its dump |
| ChatFields.PrintedObject | src/chat/ChatMessage.cpp:12-90 | The printed object, key by key: style, children, the hover value as JSON only if it starts with a brace outside achievements, the click event |
| ChatLaw.MessageRoundTrip | src/chat/ChatMessage.cpp:12-163 | Reading a printed message back gives the message, in every field and at any depth, if and only if it survives |
| ChatLaw.MessagePrinted | src/chat/ChatMessage.cpp:12-90 | The printed object has exactly the fields the constructor looks for, so that it restores the message exactly if it survives |
| ChatLaw.YellowIsLost | src/chat/ChatMessage.cpp:104-137 | A yellow message does not come back: the constructor does not know the name |
| Wire.BigEndianFixed | include/protocoll/DataBuffer.h:169-190 | The bytes written for a number of a width spell the number |
| Wire.VarIntRoundTrip | include/protocoll/DataBuffer.h:107-119 | `readVarInt` gives back every non-negative `int` and leaves what follows it |
| Wire.VarIntStops | include/protocoll/DataBuffer.h:107-119 | On any input `readVarInt` takes at most six bytes from the front, one to five if it succeeds |
| Wire.VarIntTooBigExactly | include/protocoll/DataBuffer.h:107-119 | `readVarInt` throws its own exception exactly on six bytes or more whose first five have the top bit set |
| Wire.VarIntSizeExact | include/protocoll/DataBuffer.h:121-139 | `getVarIntSize` is the number of bytes that `writeVarInt` writes |
| Wire.VarIntSpells | include/protocoll/DataBuffer.h:192-198 | The bytes of a VarInt are its groups of seven bits, the lowest one first, all but the last with the top bit set |
| Wire.VarIntMeans | include/protocoll/DataBuffer.h:107-119 | Up to five groups are read as the number they spell modulo 2^32, whoever wrote them |
| Wire.WriteVarIntStops | include/protocoll/DataBuffer.h:192-198 | The loop of `writeVarInt` ends if and only if the value is not negative |
| Wire.StringRoundTrip | include/protocoll/DataBuffer.h:141-151 | A string is read back if and only if it has at most 35000 bytes and no zero byte; a short enough one is cut at its first zero |
| Wire.StringReads | include/protocoll/DataBuffer.h:141-151 | A string is its length and that many bytes; one announced as too long, negative or longer than what is left is refused |
| Wire.FieldRoundTrip | include/protocoll/DataBuffer.h:58-160 | A field of any type is read back by the reader of its type exactly if it is readable |
| Wire.FieldsRoundTrip | include/protocoll/DataBuffer.h:58-212 | A list of typed fields is read back, taking exactly its bytes, if and only if all of them are readable |
| Buffers.DataBuffer.constructor | src/protocoll/Buffers/DataBuffer.cpp:23-25 | A fresh buffer has no bytes and nothing behind its writer index |
| Buffers.DataBuffer.WithCapacity | src/protocoll/Buffers/DataBuffer.cpp:39-43 | The bytes of a sized buffer are readable, its writer index is zero |
| Buffers.DataBuffer.FromBytes | src/protocoll/Buffers/DataBuffer.cpp:27-37 | A copy has the given bytes, all readable and all written |
| Buffers.DataBuffer.ReadBytes | src/protocoll/Buffers/DataBuffer.cpp:57-65 | Yields the next bytes, or throws without moving if there is no buffer or too little in it |
| Buffers.DataBuffer.ReadByte | src/protocoll/Buffers/DataBuffer.cpp:67-74 | Yields the next byte, zero if there is no buffer |
| Buffers.DataBuffer.ReadBuffer | src/protocoll/Buffers/DataBuffer.cpp:76-80 | Moves the next bytes into a buffer of their own |
| Buffers.DataBuffer.ReadShort | include/protocoll/DataBuffer.h:62-69 | Reads two bytes as a big-endian number |
| Buffers.DataBuffer.ReadInt | include/protocoll/DataBuffer.h:71-80 | Reads four bytes as a big-endian number |
| Buffers.DataBuffer.ReadLong | include/protocoll/DataBuffer.h:82-95 | Reads eight bytes as a big-endian number |
| Buffers.DataBuffer.ReadVarInt | include/protocoll/DataBuffer.h:107-119 | The shifting loop yields the little-endian groups of seven bits modulo 2^32, and refuses a sixth byte |
| Buffers.DataBuffer.ReadString | include/protocoll/DataBuffer.h:141-151 | Reads a string with its limits and errors |
| Buffers.DataBuffer.AllocateBufferSize | include/protocoll/DataBuffer.h:314-324 | Keeps every byte written; reallocates to exactly the size needed unless there is more |
| Buffers.DataBuffer.Write | src/protocoll/Buffers/DataBuffer.cpp:86-92 | Appends to what was written, takes the place of as many bytes behind it, leaves the rest and the reader index |
| Buffers.DataBuffer.AppendedKeepsTight | include/protocoll/DataBuffer.h:314-324 | After every write to a buffer grown from nothing its length is the writer index, and everything written is there to read |
| Buffers.DataBuffer.WriteShort | include/protocoll/DataBuffer.h:169-172 | Appends the two bytes of the number |
| Buffers.DataBuffer.WriteInt | include/protocoll/DataBuffer.h:174-179 | Appends the four bytes of the number |
| Buffers.DataBuffer.WriteLong | include/protocoll/DataBuffer.h:181-190 | Appends the eight bytes of the number |
| Buffers.DataBuffer.WriteVarInt | include/protocoll/DataBuffer.h:192-198 | Terminates and appends the VarInt of a non-negative number |
| Buffers.DataBuffer.WriteString | include/protocoll/DataBuffer.h:200-208 | Appends the length and the bytes |
| Buffers.DataBuffer.DropFront | include/protocoll/DataBuffer.h:284-299 | Drops bytes from the front of what was written and moves both indices back, not below zero |
| Fields.WriteFields | include/protocoll/DataBuffer.h:165-212 | The writers, one after the other, append the encodings of a list of fields |
| Fields.ReadFields | include/protocoll/DataBuffer.h:58-160 | The readers, one after the other, read a list of fields or throw at the first that fails |
| Fields.WriteThenRead | include/protocoll/DataBuffer.h:58-212 | Fields written to a fresh buffer by the writers come back through the readers, to the last byte, if and only if all are readable |
| Framing.PrefixCountsTheRest | include/connection/Connection.h:158-184 | Every frame is a length and exactly that many bytes |
| Framing.FrameRoundTrip | include/connection/Connection.h:34-68 | The reader takes one frame and hands on the packet that went in, if and only if the threshold is at least -1 or the packet not empty |
| LinkLaw.FrameFormats | include/connection/Connection.h:150-199 | The three formats of a frame, byte by byte; a packet as long as the threshold is not compressed |
| LinkLaw.IncompleteFrame | src/protocoll/Buffers/StreamedDataBuffer.cpp:12-34 | A frame that announces more bytes than arrive is an error |
| LinkLaw.FailedInflation | include/connection/Connection.h:37-69 | A block that does not inflate closes the channel, and a buffer of the announced size is handed on |
| Framing.StreamRoundTrip | include/connection/Connection.h:30-71 | Any sequence of packets, with any threshold changes among them, is handed on as it was sent, and the task ends where the bytes do |
| Framing.OverlongLengthEscapes | include/connection/Connection.h:74-83 | An over-long VarInt in the place of a length is thrown past the catch clause |
| Framing.OverlongReasonEscapes | src/protocoll/packet/ServerPacketHandler.cpp:41-42 | So is the over-long reason of a refused login |
| Framing.AllReceivedContents | include/connection/Connection.h:38-60 | What is handed on is unread from the first byte of each packet, compressed or not |
| Connections.Socket.ReadBytes | src/connection/Socket.cpp:22-63 | Collects exactly the next bytes, however reads split them and however often they find nothing; otherwise does not report the length |
| Connections.StreamedDataBuffer.Read | src/protocoll/Buffers/StreamedDataBuffer.cpp:12-34 | Yields the bytes asked for exactly if they arrive, none for a length that is not positive |
| Connections.StreamedDataBuffer.ReadVarInt | src/protocoll/Buffers/StreamedDataBuffer.cpp:6-10 | The inherited VarInt loop over a socket agrees with the one over a buffer |
| Connections.Connection.Inflate | include/connection/Connection.h:37-69 | A payload is uncompressed into a buffer of the announced size, with a note whether that failed and closed the channel, or loses the byte of a zero size |
| Connections.Connection.ReadPacket | include/connection/Connection.h:34-69 | One round takes one frame off the stream as specified, or throws |
| Connections.Connection.HandlePacket | src/protocoll/packet/ServerPacketHandler.cpp:41-105 | Login Success ends the login, Set Compression changes the threshold, and an encryption request throws |
| LinkLaw.CompressionIsSet | src/protocoll/packet/ServerPacketHandler.cpp:101-104 | During the login the packet 3 with any VarInt sets the threshold to it, as a signed `int`, and nothing else |
| LinkLaw.LoginIsOver | src/protocoll/packet/ServerPacketHandler.cpp:65-73 | The packet 2 with two readable strings ends the login and keeps the threshold |
| LinkLaw.OtherPacketsKeepTheLink | src/protocoll/packet/ServerPacketHandler.cpp:10-28 | No other packet changes the connection, a refusal included; an Encryption Request throws |
| LinkLaw.UnreadableFieldsThrow | src/protocoll/packet/ServerPacketHandler.cpp:40-105 | A handler throws what its first unreadable field throws |
| LinkLaw.CompressedIsRead | include/connection/Connection.h:30-71 | After a Set Compression the next packet is framed, and read, under the new threshold |
| Connections.Connection.ReaderTask | include/connection/Connection.h:30-88 | The loop hands on exactly the packets of the stream up to the first error or failed `uncompress`, and ends closed if and only if that error is one the catch clause takes |
| Connections.Connection.WritePacket | include/connection/Connection.h:150-199 | Sends the frame of what was written to the packet, whatever the target buffer of `compress` is left with; nothing once closed |
| Connections.SendAll | include/connection/Connection.h:150-199 | Packets written one after the other put exactly the stream of their frames on the wire |
| Connections.Transmit | include/connection/Connection.h:30-199 | What `writePacket` sends on one connection, `readerTask` hands on at the other, however the network cuts the bytes, with compression switched on at any point |
| Packets.PacketHandshake.Write | include/protocoll/Packets.h:43-48 | Writes its four fields in order |
| Packets.PacketHandshake.Read | include/protocoll/Packets.h:37-42 | Reads the four fields in order, or throws at the first that fails |
| Packets.HandshakeRoundTrip | include/protocoll/Packets.h:37-48 | A handshake is read back if and only if its host has no zero byte and is not too long |
| Packets.WriteRespawn | include/protocoll/Packets.h:208-213 | Writes dimension, difficulty, game mode and level |
| Packets.RespawnDimension | include/protocoll/Packets.h:189-213 | The dimension of a Respawn reads as the one of its Join Game if and only if that is not negative |
| Packets.RespawnReadsBack | include/protocoll/Packets.h:201-213 | A Respawn is read as dimension, difficulty, game mode and level, in this order, if and only if the level can be read |
| Relay.TrackedPacketsAreNotRewritten | src/protocoll/packet/ServerPacketHandler.cpp:146-151 | Tab list and objective packets, which are read before the rewriting, are in none of its tables |
| Relay.RewrittenIds | include/utils/EntityRewrite.h:48-100 | The rewriting tables of all versions, listed id by id |
| Relay.PassToServer | src/protocoll/packet/ClientPacketHandler.cpp:289-295 | The buffer is rewritten in place and sent up to its writer index, as specified |
| Relay.PassToClient | src/protocoll/packet/ServerPacketHandler.cpp:172-176 | The buffer is rewritten in place and copied from the byte before the first field, as specified |
| Relay.ClientToServer | src/protocoll/packet/ClientPacketHandler.cpp:178-186 | From one frame to the next: if the rewriting hits, the rewritten packet arrives, compressed or not; if it fails, nothing; else the packet arrives as it was if and only if it came uncompressed, and empty otherwise |
| Relay.RewritingSavesTheBytes | include/utils/EntityRewrite.h:42-45 | A compressed packet with the server's id arrives whole with the id changed; with another id it arrives empty |
| Relay.ServerToClient | src/protocoll/packet/ServerPacketHandler.cpp:109-117 | The rewritten bytes are sent from the last byte of the packet id on; they are the packet if and only if its id takes one byte and no rewriting hits or fails |
| Relay.OwnEntityIsTranslated | include/utils/EntityRewrite.h:10-24 | A packet that names the player's own entity comes out with the other side's id for it if and only if both ids are the same, in both directions, and a client's only if it also came uncompressed |
| Session.StepForward | include/connection/Connection.h:122-124 | Every step keeps the phase, moves it forward or closes the connection |
| Session.RunForward | src/protocoll/packet/ClientPacketHandler.cpp:17-50 | Over every run the phase never moves back, a status request never turns into a login, and playing begins in the login phase |
| Session.StepMarks | src/protocoll/packet/ServerPacketHandler.cpp:122-145 | Exactly which Join Game, Respawn or dimension switch a step sends, and what it does to player id and switch flag |
| Session.WorldsOfRun | src/protocoll/packet/ServerPacketHandler.cpp:119-145 | Over every run, Join Games are forwarded up to the first with an id other than -1 and each later one becomes one Respawn; two dimension switches never follow each other without one of these |
| Session.RunKeepsId | include/connection/PlayerConnection.h:70-76 | Once a client has an id other than -1 it keeps it |
| Session.StepSettled | include/connection/PlayerConnection.h:99-116 | Every step keeps the servers tried and those still queued together as configured |
| Session.RunSettled | include/connection/PlayerConnection.h:99-116 | Between two resets the servers tried are a prefix of the configured ones, in order, each at most once |
| Session.OneFailure | src/connection/ServerConnection.cpp:50-76 | A failure during the login, of whatever kind, uses up one queue entry and dials it, or disconnects |
| Session.SwitchDialsFallback | src/protocoll/packet/ServerPacketHandler.cpp:65-100 | A successful switch also dials the next fallback (or disconnects) if and only if the old connection was still open |
| Session.StepSoleServer | src/connection/ServerConnection.cpp:50-65 | That only the target plays with the client is kept by every step but the end of another connection, which forgets the open target |
| Session.LoginAcceptedSole | src/protocoll/packet/ServerPacketHandler.cpp:73-94 | If only the target played with the client before a server accepts it, only the new target does afterwards |
| SessionSent.StepTells | src/connection/PlayerConnection.cpp:52-68 | Everything that a step sends to the client, in order; nothing once its connection is closed |
| SessionSent.ForwardedOfRun | src/protocoll/packet/ServerPacketHandler.cpp:172-180 | Over every run exactly the other packets of playing servers are forwarded to the open client, in their order |
| SessionSent.GreetedOnce | src/protocoll/packet/ServerPacketHandler.cpp:85-92 | Over every run a client is sent a Login Success once if it comes to play, and never otherwise |
| SessionSent.VersionOfRun | src/protocoll/packet/ClientPacketHandler.cpp:17-50 | Over every run the protocol version is that of the last handshake before another phase |
| SessionSent.EntityIdsOfRun | src/protocoll/packet/ServerPacketHandler.cpp:122-130 | Over every run each server connection knows the entity id of its own last Join Game |
| SessionDials.StepDials | src/connection/PlayerConnection.cpp:104-153 | In every phase: which server a step dials, what it takes from the fallback queue, and whether the player is to leave |
| SessionDials.AcceptWent | src/protocoll/packet/ServerPacketHandler.cpp:73-97 | A server that accepts the player becomes the target and fills the queue again, after the fallback that losing the old one dials |
| SessionDials.StepPhases | include/connection/Connection.h:122-124 | The phase of the player, the phase of every server connection and the target after each step |
| SessionLaws.DisconnectCloses | src/connection/PlayerConnection.cpp:52-68 | A disconnected player is told so once if it was logging in or playing, and whatever happens before the timer runs out, that closes its connection |
| SessionLaws.BrokenPlayerCloses | src/connection/PlayerConnection.cpp:161-179 | A broken player connection is closed at once unless the timer is running, and then by the timer |
| SessionLaws.DimensionSwitchesAreSpaced | include/connection/PlayerConnection.h:118-131 | In the packets sent over any run, between two dimension switches there is a Join Game or its Respawn |
| SessionLaws.RunServers | src/connection/ServerConnection.cpp:78-87 | Over every run a server connection keeps its name, never goes back a phase, and once closed stays as it is |
| SessionLaws.AttemptsAreServers | src/connection/PlayerConnection.cpp:134-153 | Over every run there is exactly one server connection for each server dialed, in order |
| SessionLaws.DialedOnce | src/connection/PlayerConnection.cpp:104-132 | Whatever happens after a connection has been dialed, dialing it again does nothing |
| SessionLaws.LostOnce | src/connection/ServerConnection.cpp:67-87 | Whatever happens after a connection is lost, nothing that comes from it has any effect |
| SessionLaws.RefusalDialsNothing | src/protocoll/packet/ServerPacketHandler.cpp:41-61 | A refusal dials nothing, disconnects only with an empty queue, and leaves what the loss of the connection then does as it would be without it |
| SessionLaws.KickIsLoss | src/protocoll/packet/ServerPacketHandler.cpp:152-171 | A kick does what the loss of the connection does, up to one message to a player without fallbacks |
| SessionLaws.RunSoleServer | src/connection/ServerConnection.cpp:50-65 | All through a run only the target plays with the client, if and only if no other connection ends beside the open target |
| SessionLaws.OrphanIsReached | src/connection/ServerConnection.cpp:50-54 | A run from the start after which a second connection that breaks while logging in makes the proxy forget the open target and dial its server again |
| SessionLaws.SwitchBackIsReached | src/protocoll/packet/ServerPacketHandler.cpp:75-80 | A run from the start in which a successful switch dials the old server again |
| SessionLaws.StepInLogin | src/protocoll/packet/ClientPacketHandler.cpp:92-115 | During the login a step dials the next fallback exactly if it ends a login or a connection, and disconnects exactly if there is none left or the client is dismissed |
| SessionLaws.AllFallbacksFail | src/connection/PlayerConnection.cpp:104-132 | Over any run of a login, offline or online, with any events in between: the servers are tried in configured order, one for each time the next is asked for, and the client is disconnected exactly if one more is asked for than there are, or if it is dismissed |
| Players.PlayerConnection.constructor | src/connection/PlayerConnection.cpp:16-24 | A new player is in the initial state of the session, which satisfies what the handlers keep |
| Players.PlayerConnection.SendSuccessfullLoggedIn | src/protocoll/packet/ClientPacketHandler.cpp:92-115 | Disconnects an unsupported version, else announces compression and dials the first server |
| Players.PlayerConnection.CloseServerChannel | src/connection/ServerConnection.cpp:50-87 | Closes the connection once, forgets the target and goes to the next fallback |
| Players.PlayerConnection.HandleJoinGame | src/protocoll/packet/ServerPacketHandler.cpp:122-145 | Sets or keeps the player id, forwards or turns into a Respawn, and clears the switch flag |
| Players.PlayerConnection.HandleServer | src/protocoll/packet/ServerPacketHandler.cpp:10-28 | The server side's handlers keep the client told of its worlds as its Join Games say, the fallback order and one connection for each attempt; they never go back a phase, change a known id or reopen a connection |
| Players.PlayerConnection.HandleClient | src/protocoll/packet/ClientPacketHandler.cpp:298-316 | So do the client side's handlers |
| ServerHash.NegatedValue | src/connection/PlayerConnection.cpp:212-230 | The carry loop turns a value v above zero into 256^n - v |
| ServerHash.Negate | src/connection/PlayerConnection.cpp:214-229 | The in-place loop from the last byte to the first leaves the two's complement in the array |
| ServerHash.DigitsValue | src/connection/PlayerConnection.cpp:232-242 | The digits printed denote the array's value |
| ServerHash.AppendDigits | src/connection/PlayerConnection.cpp:232-242 | The printing loop appends the digits of every byte, skipping leading zeros of the first only |
| ServerHash.PrintedDenotesSigned | src/connection/PlayerConnection.cpp:212-244 | The text denotes the digest read as a signed big-endian number |
| ServerHash.PrintedCanonical | src/connection/PlayerConnection.cpp:232-242 | The digits of an n-byte digest have no leading zero if and only if its absolute value is at least 16 * 256^(n-2) |
| ServerHash.MinusOneIsPadded | src/connection/PlayerConnection.cpp:232-242 | The digest FF FF is printed as -01 |
| ServerHash.Print | src/connection/PlayerConnection.cpp:212-244 | Prints the signed number of the digest and leaves its absolute value in the array |
| EntityRewrite.RewrittenExactly | include/utils/EntityRewrite.h:42-45 | Overwriting yields the packet with the other id if and only if the sizes agree or a longer id ends the packet; with equal sizes the length stays |
| EntityRewrite.Overwrite | include/utils/EntityRewrite.h:42-45 | Both ids are written from the front and every byte counts as written |
| EntityRewrite.ReplaceEntityId | include/utils/EntityRewrite.h:18-46 | A matching id is overwritten; otherwise, or if the read throws, every byte stays |
| EntityRewrite.ReplaceFixedId | include/utils/EntityRewrite.h:80-92 | A matching four-byte id is replaced where it stands, all other bytes and both indices stay |
| Base64.EncodeBytes | src/utils/Base64Utils.cpp:19-60 | The loops over three-byte groups and the padded tail yield the encoding |
| Base64.DecodeText | src/utils/Base64Utils.cpp:62-101 | The loops take the characters of the alphabet up to the first other one and yield their bytes |
| Base64.EncodedLength | src/utils/Base64Utils.cpp:19-60 | The encoding has four characters for every three bytes begun |
| Base64.OnlyAlphabet | src/utils/Base64Utils.cpp:9-17 | The digits are exactly the 64 of the alphabet, in its order |
| Base64.EncodeSpells | src/utils/Base64Utils.cpp:19-60 | Four characters spell the number of their three bytes; one or two bytes left over are spelled with zero bits at the end, and padded |
| Base64.DecodeSpells | src/utils/Base64Utils.cpp:62-101 | Any text is decoded up to its first other character, four digits into the three bytes of their number, two into one and three into two, whatever their last bits |
| Base64.FillerIsDropped | src/utils/Base64Utils.cpp:86-98 | The fillers of an incomplete group, whose lookup fails, do not reach the bytes kept |
| Base64.DecodeEncode | src/utils/Base64Utils.cpp:19-101 | Decoding gives back every byte string |
| Scoreboard.ScoreboardManager.RemoveObjective | include/server/ScoreboardManager.h:40-49 | Collecting the matches and erasing each by search leaves exactly the other names, in order |
| Scoreboard.ScoreboardManager.HandleObjectivePacket | include/server/ScoreboardManager.h:28-35 | Mode 0 appends, mode 1 removes, others and unreadable packets change nothing |
| Scoreboard.ScoreboardManager.ResetScoreboard | src/server/ScoreboardManager.cpp:8-20 | Sends one removal for each name in order and forgets them all |
| Scoreboard.TrackedIsShown | include/server/ScoreboardManager.h:28-49 | After any objective packets with readable names, given by their bytes, the list has exactly the client's objectives |
| Scoreboard.CreatedIsShown | include/server/ScoreboardManager.h:28-32 | An objective that is created is kept under the client's name for it if and only if the name has no zero byte |
| Scoreboard.ResetEmptiesClient | src/server/ScoreboardManager.cpp:8-20 | The removals leave the client without objectives if and only if it had none or its version is 46 or above 47 |

## Left out

- JNI, the Java plugin manager, plugin events and `DataStorage` conversion: foreign calls; events change nothing here.
- OpenSSL (`Cipper`, `RSAUtil`, SHA-1, MD5), zlib's internals and the HTTP request of the online login: parameters, or events of the session.
- Threads, locks, timers and the deletion of objects: handlers are atomic steps, and a player's events may still be handled after its connection has closed.
- YAML configuration, logging, the terminal, `TabManager` (it compares pointers) and the UUID, HTTP, time and vector utilities.
- JSON floating point: `Float` holds a real, so comparisons with integers are exact; their texts and `strtod` are parameters of the dump and the lexer, and the dump-and-parse law is about values without floats. NaN and infinity do not occur.
- Parser callbacks, iterators, allocators, the STL adaptors and `fill_line_buffer` with its relocated pointers: the lexer works on a text in memory.
- The pointers through which `get_and_create` and `patch` change a value in place: these are updates on values, so aliasing inside one document is not modelled.
- DiffLaw.PatchDiff: assumes that array indices fit an `int`, since `patch` reads them with std::stoi; an array of more than 2^31 elements would throw.
- DiffPlaces.DiffIsMinimal: assumes the same.
- Order.StrictWeakOrder: says nothing of floats, whose comparison with 64-bit integers rounds in the original.
- Session.StepMarks: the event of a Join Game stands for a packet that was recognised and read without an error; a malformed one is the event of a broken connection, which stands for exceptions that the reader task catches.
- Framing.StreamRoundTrip: what a handler throws after it has read its fields, such as the parse error of a disconnect reason, and what the handlers of the play phase throw, is not modelled.
- Wire.FieldsRoundTrip: `readFloat` and `readDouble`, which reinterpret the bits of a number, are not modelled.
- Connections.Connection.ReadPacket: a negative length is taken for a missing buffer, whose two indices are then zero rather than negative.
- Connections.Connection.Inflate: an announced size of 2^31 or more, for which the original's buffer cannot be allocated, is taken for a failed `uncompress`.
- Connections.Connection.ReaderTask: what an exception that leaves the thread function does to the process is not modelled; nor is what the handler reads from the packet of a failed `uncompress` once the connection is closed.
- Connections.Connection.WritePacket: encryption of the stream and failing writes are not modelled; sizes are unbounded integers, with the lengths on the wire below 2^31.
- ParseDump.NumberRoundTrip: for -2^63 the original negates the least 64-bit integer, a signed overflow; the model takes the wrapped value.
- Patch.EditUnchecked: index -1 on an empty array makes the original's size test wrap and read outside the array; the model gives the length error of all other negative indices.
- Unflatten.Put: the same holds for a token "-1" below an empty array; no flattened value has one.
- Buffers.DataBuffer.DropFront: the branch of `push` for positive numbers and a drop of more bytes than were written (a malloc of a negative size) are not modelled.
- Buffers.DataBuffer.ReadString: every negative length is taken for a failed allocation; for -1 the original reads into an empty array.
- EntityRewrite.ReplaceEntityId: requires the id to write to be at least -1; below that the original's `writeVarInt` does not end. The resizing branches are unreachable in the original, since the id to write has become the other one by then.
- Relay.PassToServer: what `handlePacketPlay` does with chat packets and commands before it passes a packet on, and a packet without a buffer (a negative frame length), are not modelled.
- Relay.PassToClient: covers the packets that reach the end of `handlePacketPlay`; Join Games and kicks do so only as the session says.
- Scoreboard.ScoreboardManager.ResetScoreboard: the removals are packets on values; that `writePacket` drops them once the player is closed is part of the session only.
- Base64 text outside ASCII and the locale of `isalnum`.
