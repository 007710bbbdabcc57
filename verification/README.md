# Verification of xdccget's stateful core

xdccget downloads files that IRC bots offer over DCC. This project models the five parts of it that carry state
across calls, in Dafny 4.11, and proves what they promise. `dafny verify dfyconfig.toml` checks everything.

| part | modules | main results |
|---|---|---|
| the argument scanner | `BlockRotation`, `Getopt`, `GetoptAsTyped`, `GetoptRescan` | the in-place gcd-cycle exchange of two blocks; a whole scan leaves `argv` as a stable partition and reports the options as typed, with what each way of typing one is reported as; exactly when scanning again reports the same |
| the MD5 engine | `LittleEndian`, `Md5Compress`, `Md5Spec`, `Md5Known`, `Md5Context` | the unrolled compression is the table-driven one of RFC 1321, its steps mean what they should in numbers, and it gives a published digest; any way of feeding a message gives the digest of the message, in both counter builds |
| the IRC connection | `IrcParser`, `IrcMessage`, `IrcFraming`, `IrcSession`, `IrcStream`, `IrcConnection` | the parser does not depend on how text is cut; printed messages are parsed back; framing keeps every byte; whole messages arrive at the callbacks however reads fall |
| dynamic strings | `SdsBuffer`, `SdsQuote`, `SdsSplit` | contents and header stay consistent through growth, with an amortised bound; quoting and parsing, splitting and joining undo each other, with exact conditions |
| DCC downloads | `DccProtocol`, `DccInvariants`, `DccTheorems`, `DccLiveness`, `DccFailures`, `DccClient` | over every run of concurrent downloads: two byte counters and the file agree, reads and acknowledgements alternate, completion happens once, quitting is right, a bot that sends everything completes its transfer, and one that breaks off loses only its own; the linked list refines the protocol |

`Arithmetic`, `WordBits`, `Sequences`, `Buffers` and `Options` hold small shared facts.

Code that changes state is a class or an array method with loops; each is proved against a function of its old
state, and the theorems are about those functions. Results of sockets, of `poll` and of user callbacks, and
the old content of files, are inputs.

## Where the code does not do what one may expect

Each of these comes with a concrete input, next to the exact condition under which the property holds.

- A second scan of the arguments reports something else exactly when the scan ends in an option whose required
  argument is missing while non-options were skipped (`GetoptRescan.RescanReportsTheSame`,
  `GetoptRescan.DanglingExample`).
- Abbreviations go by the table: with the program's, `--listen=6667` sets the address to listen on, and `-v` is refused
  as ambiguous (`GetoptAsTyped.ListenExample`, `GetoptAsTyped.VExample`).
- A stream of well-formed messages is parsed as its messages exactly when none is longer than the parser's 512
  characters; lines of up to 2045 reach it (`IrcStream.ParsedAsMessages`). `libirc_process_incoming_data` ignores what
  the parser returns and nothing resets it, so after an error it refuses line after line, keeping one byte of each,
  until a line finds its buffer full and is written behind it; behind a message that is too long that is the very next
  one (`IrcStream.StuckOnLines`, `IrcStream.LongMessageThenAnother`, `IrcStream.LongMessageExample`). A stray carriage return is enough for such an
  error (`IrcStream.StrayReturnExample`), and only a line that starts with a
  carriage return, such as an empty one, can end it (`IrcMessage.OnlyReturnsRecover`, `IrcMessage.EmptyLineRecovers`).
- A refused callback stops the parser behind some separators only; behind the others it goes on
  (`IrcMessage.RefusedFieldStops`, `IrcMessage.RefusedFieldGoesOn`).
- An IRC message without parameters reports its command as a parameter (`IrcMessage.CommandNeedsAParameter`,
  `IrcMessage.LoneCommandExample`).
- `irc_add_select_descriptors` asks for write readiness only with two queued bytes, so a last line feed waits for
  the next command (`IrcSession.Session.WantsWrite`, `IrcSession.LastLineFeedExample`).
- Splitting a join loses a single empty token, and tokens that overlap the separator (`SdsSplit.SplitOfJoin`,
  `SdsSplit.BorderExample`).
- The scan of `sdssplitlen` compares inside the string exactly when the string is at most one byte shorter than the
  separator (`SdsSplit.ScanStaysInside`, `SdsSplit.ScanOutsideExample`); this is the precondition of
  `SdsSplit.SplitLen`.
- Single quotes hold a text exactly when it has no NUL and does not end in a backslash (`SdsQuote.SingleQuotes`,
  `SdsQuote.BackslashExample`).
- A resumed file has the announced length exactly when the bot starts where the file ended; files are opened for
  appending, so `Seek` does not help (`DccTheorems.LengthIsCounter`, `DccTheorems.NoEchoExample`).
- With acknowledgements switched off, a session stays open behind its last piece until the bot closes it
  (`DccLiveness.TransferCompletes`), and data that arrives then is written to a closed file (`DccTheorems.TurnHalts`,
  `DccTheorems.ExtraDataExample`); with them on this cannot happen.

## Model

| member | source | states |
|---|---|---|
| `BlockRotation.Gcd` | getopt.c:137-152 | the loop computes `GcdOf` |
| `BlockRotation.GcdIsGreatestCommonDivisor` | getopt.c:137-152 | it divides both numbers, and every common divisor divides it |
| `BlockRotation.OrbitReturns` | getopt.c:171-187 | the cycle that starts at a place is back there after exactly `cyclelen` moves |
| `BlockRotation.OrbitInjective` | getopt.c:171-187 | within those moves a cycle visits no place twice |
| `BlockRotation.OrbitClass` | getopt.c:171-187 | a cycle stays in its residue class modulo the gcd, so different cycles are disjoint |
| `BlockRotation.OrbitCovers` | getopt.c:171-187 | the cycles cover every place of the two blocks |
| `BlockRotation.MoveCycle` | getopt.c:172-186 | the inner loop moves exactly one class and leaves the others |
| `BlockRotation.PermuteArgs` | getopt.c:157-187 | in place, for all non-empty blocks, the result is `Exchanged` |
| `Getopt.FirstExact` | getopt.c:221-232 | the first candidate that matches exactly, or the end of the table |
| `Getopt.FindLongOption` | getopt.c:221-252 | the candidate loop decides among exact match, unique abbreviation, harmless and real ambiguity as `MatchOf` does |
| `Getopt.PickIsStable` | getopt.c:383-458 | each part of the partition lists exactly the words of its kind, in typed order |
| `Getopt.PartitionedIsPermutation` | getopt.c:383-458 | a complete scan permutes the words: nothing is lost or doubled |
| `Getopt.NothingSkipped` | getopt.c:394-400 | under POSIXLY_CORRECT, without permutation, nothing is skipped |
| `Getopt.Scanner.constructor` | getopt.c:105-106 | a scanner before its first call |
| `Getopt.Scanner.ParseLongOptions` | getopt.c:194-319 | return value, `optarg`, `optopt`, flag store and `optind` for the option text at hand, error cases included |
| `Getopt.Scanner.SkipNonOptions` | getopt.c:383-418 | the `start:` loop keeps the options read in front of the block being skipped |
| `Getopt.Scanner.GetoptLongOnly` | getopt.c:325-458 | one call: reports the next outcome of the words left, or returns -1 exactly when none is left and then `argv` is partitioned; `optind` grows with every option, so the scan ends |
| `Getopt.Scanner.ParseArguments` | argument_parser.c:378-378 | the whole run: reports are those of the vector as typed, `argv` is the stable partition, `optind` the first word behind the options |
| `GetoptAsTyped.MatchMeans` | getopt.c:221-252 | the search finds an entry, nothing or a dispute exactly when the name means that: just this name first, or the first of those that start so and all mean the same |
| `GetoptAsTyped.NameAndValue` | getopt.c:213-219 | `name=value` is cut into just these two |
| `GetoptAsTyped.WithValue` | getopt.c:253-271 | for every table, name, value and words behind: an option with a value is accepted with just that value, or reported as taking none |
| `GetoptAsTyped.WithoutValue` | getopt.c:272-298 | the next word is the argument of an option that requires one, and of no other; none left is reported |
| `GetoptAsTyped.NotUnderstood` | getopt.c:245-252 | unknown if and only if no name starts so, ambiguous if and only if two that do mean different things |
| `GetoptAsTyped.OtherWords` | getopt.c:383-411 | a word without a dash, or a lone one, is passed over or ends the scan, and so does `--` |
| `GetoptAsTyped.AcceptedReport` | getopt.c:310-317 | an option is reported by its value, or by 0 and its index |
| `GetoptAsTyped.ErrorReport` | getopt.c:245-309 | every error is a question mark, and `optopt` tells whose argument is wrong |
| `GetoptAsTyped.PortExample` | argument_parser.c:280-304 | with the program's table, `--port=6667` is the port 6667 |
| `GetoptAsTyped.ListenExample` | argument_parser.c:300-301 | `--listen=6667` is an address |
| `GetoptAsTyped.VExample` | argument_parser.c:282-302 | `-v` is ambiguous |
| `GetoptRescan.RescanOptions` | getopt.c:325-458 | the options of a partitioned vector read as they were typed, whatever follows them |
| `GetoptRescan.RescanReportsTheSame` | getopt.c:325-458 | a second scan reports the same and moves nothing, if and only if no missing argument dangles behind skipped words |
| `GetoptRescan.DanglingExample` | getopt.c:280-298 | a vector for which it reports something else |
| `LittleEndian.DecodeEncode` | sph_types.h:1484-1515 | decoding an encoding gives the value modulo what fits |
| `LittleEndian.EncodeDecode` | sph_types.h:1542-1607 | encoding a decoding gives the bytes back |
| `LittleEndian.EncodeInParts` | sph_types.h:1795-1833 | the 64-bit encoding is the encodings of the two 32-bit halves |
| `LittleEndian.WordRoundTrip` | sph_types.h:1484-1607 | a word survives `sph_enc32le` followed by `sph_dec32le` |
| `LittleEndian.BytesRoundTrip` | sph_types.h:1484-1607 | four bytes survive `sph_dec32le` followed by `sph_enc32le` |
| `WordBits.HighWord` | md_helper.c:311-311 | joining the shifted words with a bitwise or is the high word of the shifted 64-bit number |
| `WordBits.SumValue` | sph_types.h:932-932 | adding words adds their values modulo 2^32 |
| `WordBits.ShiftValue` | sph_types.h:933-933 | shifting multiplies by a power of two modulo 2^32, or divides by it |
| `WordBits.RotlValue` | sph_types.h:933-933 | rotating by s multiplies by 2^s modulo 2^32 and adds the quotient by 2^(32-s) |
| `Md5Compress.OpValue` | sph_md5.c:61-127 | one step, for all words, in numbers: b plus the rotated sum of the other four, modulo 2^32 |
| `Md5Compress.RoundFunctionsAgree` | sph_md5.c:41-44 | the rewritten F and G, and H and I, are the functions of section 3.4 of RFC 1321 |
| `Md5Compress.StepF` | sph_md5.c:61-76 | a step of the first round in the code's form is the next step of the table-driven loop |
| `Md5Compress.StepG` | sph_md5.c:78-93 | the same for the second round |
| `Md5Compress.StepH` | sph_md5.c:95-110 | the same for the third round |
| `Md5Compress.StepI` | sph_md5.c:112-127 | the same for the fourth round |
| `Md5Compress.Round1` | sph_md5.c:61-76 | the sixteen unrolled steps are steps 1 to 16 |
| `Md5Compress.Round2` | sph_md5.c:78-93 | steps 17 to 32, with the index order of the second round |
| `Md5Compress.Round3` | sph_md5.c:95-110 | steps 33 to 48 |
| `Md5Compress.Round4` | sph_md5.c:112-127 | steps 49 to 64 |
| `Md5Compress.Md5Round` | sph_md5.c:138-163 | for every block and state, the array ends as the published compression of the state |
| `Md5Spec.PaddingIsMinimal` | md_helper.c:264-270 | the padding length is the least that leaves 56 modulo 64 |
| `Md5Spec.PaddedLength` | md_helper.c:238-324 | a padded message is whole blocks |
| `Md5Spec.FinalByteBits` | md_helper.c:256-263 | the closing byte holds the extra bits, then a 1 bit, then zeros |
| `Md5Spec.FoldAppend` | md_helper.c:123-167 | folding the compression over two runs of blocks is folding over both |
| `Md5Context.Context.constructor` | sph_md5.c:165-177 | a new context holds the empty message |
| `Md5Context.Context.Init` | sph_md5.c:165-177 | initialising again forgets everything |
| `Md5Context.Context.CountShort` | md_helper.c:157-165 | the counter update of the buffered path counts right in both builds |
| `Md5Context.Context.CountLong` | md_helper.c:212-227 | the counter update of the direct path counts right in both builds, for any length |
| `Md5Context.Context.Short` | md_helper.c:123-167 | the buffered path appends to the message |
| `Md5Context.Context.Direct` | md_helper.c:196-228 | the path that bypasses the buffer appends to the message |
| `Md5Context.Context.Update` | md_helper.c:169-229 | so does the choice between them; addresses and alignment do not show |
| `Md5Context.Context.ClosePadding` | md_helper.c:249-270 | the buffer in front of the length field, in one or two blocks |
| `Md5Context.Context.NarrowLength` | md_helper.c:309-320 | the length field from the two words, shifted and joined as in the code |
| `Md5Context.Context.EncodedLength` | md_helper.c:300-320 | both builds write 8 times the byte count plus n, modulo 2^64 |
| `Md5Context.Context.AddBitsAndClose` | md_helper.c:238-331 | the digest is that of the message and the extra bits, padded as in sections 3.1 and 3.2 of RFC 1321 |
| `Md5Context.Context.AddBitsAndFinish` | sph_md5.c:193-199 | the same, and the context is ready for the next message |
| `Md5Context.Context.Finish` | sph_md5.c:186-191 | the digest of the message, and the context is ready again |
| `Md5Context.CarryRefinesSum` | md_helper.c:212-227 | the two 32-bit words with their carry test and the high part of the length are the 64-bit sum |
| `Md5Context.ShortCarry` | md_helper.c:157-165 | the shorter test is enough for at most a block |
| `Md5Context.OneOrTwoBlocks` | md_helper.c:256-324 | what is compressed at the end is exactly the padding |
| `Md5Context.HashChunks` | hashing_algo.c:37-46 | every way of cutting a file into chunks gives the digest of the file |
| `Md5Known.KnownAnswer` | sph_md5.c:48-191 | the digest of "abc" is the one published in section A.5 of RFC 1321 |
| `IrcParser.Exec` | libircclient-src/irc_parser.c:120-186 | a run that takes all its text leaves a usable parser, an aborted one stops inside the text, and so does one that would write behind the buffer |
| `IrcParser.ExecSplit` | libircclient-src/irc_parser.c:120-186 | executing two pieces is executing their concatenation: same callbacks, state and result, and the same place and report of an error |
| `IrcParser.Parser.Reset` | libircclient-src/irc_parser.c:112-118 | back to the initial state |
| `IrcParser.Parser.ForceCall` | libircclient-src/irc_parser.c:49-61 | one callback with the field at hand; a refusal is recorded |
| `IrcParser.Parser.CallAndProgress` | libircclient-src/irc_parser.c:63-79 | a refusal stops the parser, otherwise the next phase follows |
| `IrcParser.Parser.CallAndSwitch` | libircclient-src/irc_parser.c:90-105 | the switch to a named phase goes on after a refusal |
| `IrcParser.Parser.AppendRaw` | libircclient-src/irc_parser.c:9-15 | one byte more in the buffer, and an error with the 513th |
| `IrcParser.Parser.Execute` | libircclient-src/irc_parser.c:120-186 | for every parser, the loop, with its fixed buffer and its second look at a first byte, makes the calls and reaches the state that `Exec` gives, terminates, and says when it would write behind the buffer |
| `IrcMessage.TakesWord` | libircclient-src/irc_parser.c:137-173 | characters without meaning in a phase only fill the buffer |
| `IrcMessage.TakesField` | libircclient-src/irc_parser.c:150-172 | a field and its separator fire one callback with the field |
| `IrcMessage.TakesPrefix` | libircclient-src/irc_parser.c:139-161 | nick, user and host, each optional but the nick, are reported in order |
| `IrcMessage.TakesFields` | libircclient-src/irc_parser.c:162-173 | command and parameters are reported in order, the trailing one included |
| `IrcMessage.PrintedMessageIsParsed` | libircclient-src/irc_parser.c:120-186 | printing any message of the grammar of at most 512 characters and executing it fires exactly its fields, then the end, and leaves the initial state |
| `IrcMessage.FullMessageExample` | libircclient-src/irc_parser.c:120-186 | the calls for one message with all its parts |
| `IrcMessage.RefusedFieldStops` | libircclient-src/irc_parser.c:57-79 | a refused field is the last one reported behind these separators, and the rest of the line is reported as an error |
| `IrcMessage.RefusedFieldGoesOn` | libircclient-src/irc_parser.c:90-103 | behind the others the next field is read as usual, and the error code is kept |
| `IrcMessage.CommandNeedsAParameter` | libircclient-src/irc_parser.c:124-133 | executing a message reports its command as a command exactly when there is a parameter |
| `IrcMessage.LoneCommandExample` | libircclient-src/irc_parser.c:124-133 | a lone QUIT is reported as a parameter |
| `IrcMessage.LongLinesAreRefused` | libircclient-src/irc_parser.c:9-17 | a line is refused as too long if and only if it has more than 512 characters, at the first that does not fit |
| `IrcMessage.LineWhenStuck` | libircclient-src/irc_parser.c:137-176 | after an error, the next line is refused at its first byte, which is kept or written behind the buffer |
| `IrcMessage.OnlyReturnsRecover` | libircclient-src/irc_parser.c:120-186 | no line that starts otherwise ends the error |
| `IrcMessage.EmptyLineRecovers` | libircclient-src/irc_parser.c:124-133 | an empty line ends the error, with a call for what is in the buffer |
| `IrcFraming.FirstCrlf` | libircclient-src/utils.c:28-36 | the offset behind the first CRLF, or 0 when there is none |
| `IrcFraming.FindCrlf` | libircclient-src/utils.c:28-36 | the loop computes it |
| `IrcFraming.LinesIsCut` | libircclient-src/libircclient.c:574-589 | cutting loses nothing, every line ends at its first CRLF, none is left over |
| `IrcFraming.CutIsUnique` | libircclient-src/libircclient.c:574-589 | there is only one such cut of a stream |
| `IrcFraming.LinesAppend` | libircclient-src/libircclient.c:574-589 | more text only adds lines behind those delivered |
| `IrcFraming.LeftoverIsShort` | libircclient-src/libircclient.c:448-451 | when no line is longer than a limit and less is left at the end, less is left over after any part of the stream |
| `IrcFraming.AlwaysShortIff` | libircclient-src/libircclient.c:448-451 | for every stream, cut anywhere: what is left over is below a limit if and only if no line is longer and the stream does not end inside one that fills it; with 2047, the read buffer always has room |
| `IrcSession.Session.constructor` | libircclient-src/libircclient.c:64-98 | empty buffers |
| `IrcSession.Session.WantsRead` | libircclient-src/libircclient.c:448-451 | read interest exactly while the buffer has room |
| `IrcSession.Session.WantsWrite` | libircclient-src/libircclient.c:453-456 | write interest exactly with at least two bytes queued |
| `IrcSession.Session.Read` | libircclient-src/libircclient.c:560-590 | delivered lines and buffer are the cut of everything received; an error disconnects |
| `IrcSession.Session.DeliverLines` | libircclient-src/libircclient.c:576-589 | the shifting loop delivers every whole line of the buffer and keeps the rest |
| `IrcSession.Session.SendRaw` | libircclient-src/libircclient.c:625-653 | when connected and with room, the queue grows by the text, or its first 1023 characters, and a CRLF; otherwise nothing changes |
| `IrcSession.Session.Enqueue` | libircclient-src/libircclient.c:645-648 | the command and its CRLF behind what is queued |
| `IrcSession.Session.CommandsOnTheWire` | libircclient-src/libircclient.c:593-653 | after any calls, sent and queued bytes are the accepted commands with their line ends, all sent but perhaps the last line feed when no write is asked for |
| `IrcSession.Session.Write` | libircclient-src/libircclient.c:593-619 | sent plus queued is everything accepted, whatever the socket takes |
| `IrcSession.QueueHasLineEnd` | libircclient-src/libircclient.c:453-456 | a queue that ends the accepted text has a CRLF exactly when it has two bytes |
| `IrcSession.LastLineFeedExample` | libircclient-src/libircclient.c:453-456 | a session whose last line feed is queued and asks for no write |
| `IrcStream.PrintedLineEndsAtItsEnd` | libircclient-src/utils.c:28-36 | a printed message is one line |
| `IrcStream.PrintedLinesAreParsed` | libircclient-src/libircclient.c:467-472 | parsing printed messages line by line makes exactly their calls |
| `IrcStream.ParsedAsMessages` | libircclient-src/libircclient.c:467-472 | for well-formed messages of any length: the calls are those of the messages and the parser ends as it began, if and only if none is too long |
| `IrcStream.StuckOnLines` | libircclient-src/libircclient.c:467-472 | a parser in error refuses every line that starts with text, whatever follows, and overruns its buffer exactly when the lines are more than its free bytes |
| `IrcStream.LongMessageThenAnother` | libircclient-src/libircclient.c:467-472 | behind a message that is too long, the next non-empty one is written behind the buffer |
| `IrcStream.LongMessageExample` | libircclient-src/libircclient.c:467-472 | a command of 513 letters, which framing delivers, and the message behind it |
| `IrcStream.StrayReturnExample` | libircclient-src/libircclient.c:467-472 | one line with a stray carriage return, and the message behind it is refused |
| `IrcStream.EveryMessageArrives` | libircclient-src/libircclient.c:560-590 | at any point of the stream: the lines delivered are the first messages, the callbacks made are theirs, and the rest is shorter than a line |
| `IrcConnection.FeedOneMore` | libircclient-src/libircclient.c:467-472 | one more line for the parser is one more step of `ExecLines` |
| `IrcConnection.UndefinedStays` | libircclient-src/libircclient.c:467-472 | behind a write outside the buffer nothing is defined |
| `IrcConnection.Connection.constructor` | libircclient-src/libircclient.c:64-98 | an empty session and a new parser |
| `IrcConnection.Connection.ParseLines` | libircclient-src/libircclient.c:467-472 | the parser object, run on the delivered lines, comes to what `ExecLines` says of them |
| `IrcConnection.Connection.Read` | libircclient-src/libircclient.c:560-590 | after every read, the parser's calls and state are those for the lines of everything received |
| `IrcConnection.Connection.CallsAreThoseOfMessages` | libircclient-src/libircclient.c:560-590 | for a server that sends messages with room in the parser: the calls made are those of the messages that have arrived whole |
| `SdsBuffer.ReqTypeIsSmallest` | sds.c:61-76 | the header type chosen is the smallest whose fields hold the size |
| `SdsBuffer.FieldsFitHeader` | sds.h:45-118 | what a header's fields hold is what their widths hold |
| `SdsBuffer.CatAmortised` | sds.c:205-249 | one growth is paid by the potential max(0, 2 * len - alloc) and twice what is appended |
| `SdsBuffer.AppendsAreAmortised` | sds.c:400-409 | any run of appends from a string without free space moves at most its length plus twice what is appended, while growth doubles |
| `SdsBuffer.ShortRunsDouble` | sds.c:217-220 | growth doubles while the text stays below 1 MiB |
| `SdsBuffer.FreeSpaceIsBounded` | sds.c:217-221 | after any run of appends no more is free than is in use, and at most 1 MiB, unless it was so at the start |
| `SdsBuffer.Sds.constructor` | sds.c:90-146 | contents, capacity and header type of a new string |
| `SdsBuffer.Sds.SetLen` | sds.h:175-197 | the length field keeps the low bits, so every value that its width holds |
| `SdsBuffer.Sds.SetAlloc` | sds.h:242-263 | so does the capacity field, which the smallest type does not have |
| `SdsBuffer.Sds.MakeRoomFor` | sds.c:205-249 | room for the addition, same contents, no field truncated, also when the header type changes; and just which capacity and type |
| `SdsBuffer.Sds.RemoveFreeSpace` | sds.c:257-293 | no free space, same contents, and which header types are kept |
| `SdsBuffer.Sds.Clear` | sds.c:194-197 | empty, capacity kept |
| `SdsBuffer.Sds.GrowZero` | sds.c:382-393 | zero bytes up to the length asked for, nothing for a smaller one |
| `SdsBuffer.Sds.CatLen` | sds.c:400-409 | the text is appended, NUL-terminated, and sizes follow `Cat` |
| `SdsBuffer.Sds.CpyLen` | sds.c:429-438 | the contents become the text; the capacity is kept or grows as above |
| `SdsQuote.CatRepr` | sds.c:889-912 | the loop appends the quoted form |
| `SdsQuote.EscapeIsRead` | sds.c:982-1006 | every escape is read back as its byte, hexadecimal ones included |
| `SdsQuote.SpecialEscapes` | sds.c:892-908 | the bytes that have a letter, and three hexadecimal ones |
| `SdsQuote.PrintableStays` | sds.c:903-904 | printable text without quotes and backslashes is quoted as it is |
| `SdsQuote.HexDigitIs` | sds.c:916-943 | which characters are hexadecimal digits, and what capital ones stand for |
| `SdsQuote.OtherEscapes` | sds.c:993-1006 | a backslash in front of any other character stands for it |
| `SdsQuote.ReprIsRead` | sds.c:976-1061 | a quoted string at the front of a line is one token if and only if a blank or the end follows |
| `SdsQuote.QuotedArgument` | sds.c:1007-1012 | then it is an argument and the others follow, and else the line is rejected |
| `SdsQuote.UnterminatedQuote` | sds.c:1013-1016 | a line that ends inside double quotes is rejected |
| `SdsQuote.BlankIsSkipped` | sds.c:972-972 | all six kinds of blanks are skipped in front of an argument |
| `SdsQuote.WordArgument` | sds.c:1041-1060 | four of them end a word |
| `SdsQuote.ArgsOfReprs` | sds.c:945-1082 | quoting any list of byte strings, joining with spaces and parsing gives the list back |
| `SdsQuote.ReprIsPrintable` | sds.c:891-910 | the quoted form has only printable characters, so no NUL |
| `SdsQuote.SingleQuotes` | sds.c:1021-1039 | a text in single quotes is read back if and only if single quotes can hold it, and rejected otherwise |
| `SdsQuote.BackslashExample` | sds.c:1022-1025 | a text that ends in a backslash is rejected |
| `SdsQuote.ArgsOfWords` | sds.c:1041-1060 | words without blanks and quotes are split at the spaces |
| `SdsQuote.TurnAdvances` | sds.c:976-1063 | every turn of the token loop advances or ends the token, and none passes the end |
| `SdsQuote.GetToken` | sds.c:976-1063 | the loop with its flags reads the token that `Token` specifies, or fails with it |
| `SdsQuote.SplitArgs` | sds.c:964-1082 | the parser computes `Args` on every line, and terminates |
| `SdsSplit.Find` | sds.c:839-850 | the first occurrence of the separator |
| `SdsSplit.JoinOfSplit` | sds.c:810-873 | only an empty separator is refused; joining the tokens gives the string back, and no token contains the separator |
| `SdsSplit.SplitOfJoin` | sds.c:826-873 | splitting a join gives the tokens back if and only if no separator shows up early, and they are not one empty token |
| `SdsSplit.OneByteSeparable` | sds.c:850-850 | for a one-byte separator that is when no token contains it |
| `SdsSplit.BorderExample` | sds.c:850-850 | for two bytes it is not |
| `SdsSplit.ScanStaysInside` | sds.c:839-839 | the unsigned bound of the scan stays in the string exactly when the string is long enough for the separator |
| `SdsSplit.ScanOutsideExample` | sds.c:839-839 | a string and a separator for which it does not |
| `SdsSplit.SplitLen` | sds.c:826-873 | the loop computes `Split`, and the token array always has room for the last token |
| `SdsSplit.JoinSds` | sds.c:1121-1130 | the loop computes `Join` |
| `DccTheorems.BigEndianValue` | libircclient-src/dcc.c:210-212 | the four bytes of an acknowledgement, most significant first, are the offset modulo 2^32 |
| `DccProtocol.FindId` | libircclient-src/dcc.c:37-53 | the first session with an id |
| `DccProtocol.FindPort` | libircclient-src/dcc.c:264-281 | the first session with a port |
| `DccInvariants.RecvSound` | libircclient-src/dcc.c:144-205 | receiving keeps both counters and the file together and opens the turn to acknowledge |
| `DccInvariants.AcknowledgeSound` | libircclient-src/dcc.c:207-262 | acknowledging keeps them, and ends the transfer at the announced size |
| `DccInvariants.ResumedSound` | libircclient-src/dcc.c:739-764 | so does the bot's reply to a resume request |
| `DccInvariants.LiveIsFilter` | libircclient-src/dcc.c:302-342 | the cleanup keeps exactly the sessions not removed, in order |
| `DccInvariants.StepInv` | libircclient-src/dcc.c:144-458 | every step keeps the invariant of all concurrent downloads |
| `DccInvariants.RunInv` | libircclient-src/dcc.c:144-458 | so it holds after every run |
| `DccInvariants.RunLevel` | libircclient-src/dcc.c:144-458 | counters and files agree after every run, also when the program has exited |
| `DccTheorems.CountersAgree` | libircclient-src/dcc.c:176-179 | in every reachable state, exited ones included, both counters are equal and the file is what was there and the bytes received; while the program runs, the counters are the start plus those bytes |
| `DccTheorems.EchoedFilesAreWhole` | libircclient-src/dcc.c:739-764 | when replies echo the position sent, every file is as long as its counter, and a finished one as announced |
| `DccTheorems.LengthIsCounter` | xdccget.c:443-444 | the file's length is the counter if and only if the bot started where the file ended |
| `DccTheorems.NoEchoExample` | xdccget.c:493-505 | a run in which it did not |
| `DccTheorems.LogsAreOrderly` | libircclient-src/dcc.c:176-249 | with acknowledgements on, every transfer follows the discipline after every run |
| `DccTheorems.Alternates` | libircclient-src/dcc.c:183-187 | successful reads and successful acknowledgements strictly alternate |
| `DccTheorems.AcknowledgesPosition` | libircclient-src/dcc.c:210-231 | each acknowledgement carries the position reached |
| `DccTheorems.DoneAfterAcknowledgingSize` | libircclient-src/dcc.c:239-244 | a transfer is closed as done only right after acknowledging exactly the announced size |
| `DccTheorems.FinishedIsFinal` | xdccget.c:446-456 | a finished download is never written to or finished again |
| `DccTheorems.FinishedIsBounded` | xdccget.c:456-456 | the finished counter is the number of closed downloads, at most the number started |
| `DccTheorems.QuitsWhenAllAreComplete` | xdccget.c:458-462 | in every reachable state a step sends QUIT if and only if checksums are off, it finishes a download, and then all started ones are complete |
| `DccTheorems.TurnHalts` | xdccget.c:443-454 | exactly when a turn stops the program, which acknowledging rules out |
| `DccTheorems.ExtraDataExample` | xdccget.c:443-454 | a run that stops the program so, whenever acknowledging is off |
| `DccLiveness.Round` | libircclient-src/dcc.c:144-262 | with acknowledgements, one read and one acknowledgement bring a transfer forward by the piece, or to its end |
| `DccLiveness.Piece` | libircclient-src/dcc.c:183-185 | without, one read does, and the session goes on reading |
| `DccLiveness.TransferCompletes` | libircclient-src/dcc.c:144-262 | with and without acknowledgements, for any pieces that make up what is missing: the run ends with the download finished, exactly these bytes added to the file and the session removed, or still connected, and touches no other session or download |
| `DccLiveness.DownloadCompletes` | libircclient-src/dcc.c:573-592 | so a download completes from its offer on, resumed or not, and leaves all others as they were |
| `DccFailures.BreakRemoves` | libircclient-src/dcc.c:199-204 | a connection that fails or is closed removes its session and changes nothing else |
| `DccFailures.BrokenTransferGoes` | libircclient-src/dcc.c:328-390 | in every reachable state: after that and a cleanup the session is gone, and the others, all files and the counters are as before |
| `DccFailures.StallsChangeNothing` | libircclient-src/dcc.c:232-262 | sockets that are not ready and acknowledgements that fail, however often, change nothing in what follows |
| `DccFailures.StopsExactlyWhen` | xdccget.c:443-674 | exactly which events stop the program in a reachable state |
| `DccFailures.UnexpectedReply` | libircclient-src/dcc.c:742-751 | a reply that no session waits for changes nothing |
| `DccTheorems.RemovedIsAbsorbing` | libircclient-src/dcc.c:56-75 | a removed session never comes back over any run, nor does its id |
| `DccTheorems.IdsAreUnique` | libircclient-src/dcc.c:536-538 | ids strictly decrease along the list, so an id finds its own session |
| `DccClient.Client.FindSession` | libircclient-src/dcc.c:37-53 | the walk along the pointers finds what `FindId` says |
| `DccClient.Client.FindSessionByPort` | libircclient-src/dcc.c:264-281 | the same by port |
| `DccClient.Client.NewSession` | libircclient-src/dcc.c:476-543 | the new session is the first of the list, with the next id |
| `DccClient.Client.Destroy` | libircclient-src/dcc.c:56-75 | only marks the session |
| `DccClient.Client.RemoveSession` | libircclient-src/dcc.c:302-326 | unlinks exactly one node, and the list stays linked |
| `DccClient.Client.Accept` | libircclient-src/dcc.c:768-832 | connects a session that is in its initial state, and no other |
| `DccClient.Client.Resume` | libircclient-src/dcc.c:901-923 | makes such a session wait for the bot's reply |
| `DccClient.Client.RecvFileRequest` | xdccget.c:633-674 | which of accept, resume and exit an offer leads to |
| `DccClient.Client.AcceptDccSend` | libircclient-src/dcc.c:573-592 | an offer is the protocol's step |
| `DccClient.Client.ResumeCallback` | xdccget.c:493-513 | the counter starts at the bot's position and the session connects |
| `DccClient.Client.DccAccept` | libircclient-src/dcc.c:739-764 | a reply is the protocol's step, ignored replies included |
| `DccClient.Client.ReceiveCallback` | xdccget.c:419-469 | count, write, close, count the finished and quit |
| `DccClient.Client.RecvFile` | libircclient-src/dcc.c:144-205 | the whole new state is that of the protocol's receive |
| `DccClient.Client.SendOffset` | libircclient-src/dcc.c:207-262 | the whole new state is that of the protocol's acknowledgement |
| `DccClient.Client.ProcessSession` | libircclient-src/dcc.c:374-409 | one session's turn is the protocol's turn |
| `DccClient.Client.ProcessDescriptors` | libircclient-src/dcc.c:422-458 | the walk over the list is one turn for each session |
| `DccClient.PassIsRun` | libircclient-src/dcc.c:422-458 | that pass is a run of the protocol, so every theorem about runs applies |
| `DccClient.Client.UnlinkRemoved` | libircclient-src/dcc.c:336-342 | the loop with in-place unlinking leaves exactly the filtered list |
| `DccClient.Client.CleanUp` | libircclient-src/dcc.c:328-342 | the cleanup is the protocol's step |

## Left out

- Sockets, DNS, `poll`, TLS, signals, threads and timers: their results are inputs; only plain sockets are modelled,
  and mutexes do nothing in the default build.
- `fd_watcher.c`: thin over system calls.
- Colours, configuration files, log output, progress bar, speed limits and certificate prompts: user interface.
- Reading DCC requests with `sscanf`: the model starts from decoded values. Reverse offers: a resumed one is left in a
  state that its callback refuses (libircclient-src/dcc.c:730, libircclient-src/dcc.c:864), so it cannot reach a
  transfer.
- `irc_dcc_destroy` and `irc_dcc_decline`: nothing in the program calls them.
- Several downloads into one file: every download has its own file here.
- The size of `downloadContext`: the array of downloads is unbounded here.
- Short options, `-W`, `FLAG_ALLARGS` and resetting the scanner through `optreset`: not used by the program, whose
  option string is empty.
- Failing allocations; a caller's text is assumed to fit in the address space.
- `sdscatfmt`, `sdscatvprintf`, `sdsrange`, `sdstrim` and number formatting: printf or easy members. `sdsjoin` differs
  from `sdsjoinsds` only for strings with NULs.
- Passing a string as its own argument to `sdscatlen` or `sdscpylen`: texts are values here.
- Alignment cases of the encoders in sph_types.h: all compute the same function of the bytes, which is what is modelled.
- The bytes behind the used part of a buffer: no contract mentions them.
- IrcParser.Parser.Execute: says when the code would write behind its buffer and stops there; what such a write does
  is undefined. The header offers `irc_parser_reset` for recovering, but the program never calls it after an error.
- Getopt.Scanner.GetoptLongOnly: requires that no table entry has the value -1, with which the code goes on to the
  short options, and the program's table has none.
- Getopt.Scanner.ParseArguments: requires the same.
- SdsSplit.SplitLen: requires a string that is not shorter than the separator by more than a byte, because the code's
  unsigned bound is meaningless otherwise.
- The text of requests to a bot: a resume request names the length of the file, which is the length of `before` here.
- DccClient.Client.AcceptDccSend: like `NewSession`, ends where ids would start again.
- DccClient.Client.NewSession: does not model ids starting again after 2^32 sessions.
- Files that cannot be opened or written, file names with a slash and folders that cannot be made: the program exits there
  (file.h:94-113, xdccget.c:557-590), and these results are no input here. Of the file system only the old content of a
  file is one.
- DccTheorems.CountersAgree: does not place the counters when the program has exited; a write to a closed file has
  counted its data by then.
