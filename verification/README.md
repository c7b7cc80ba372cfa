# Ervan's SMTP receiver, verified

A Dafny model of the receiving side of the Ervan mail server: the framer that cuts a byte stream into
lines inside one fixed array, the session that runs two such framers and a transaction, the parser of
paths and parameters, and the tar container that an accepted message is kept in.

The model has two layers. The lower one follows the source's own form: classes and methods that update
arrays, fields and a file in place (`Framer`, `Session`, `Disk.File`, `TarWriter`, `MetadataWriter`,
`ParseLoops`, and the encoder in `Base64`). The upper one is pure: `Chunks.FeedAll` is the session with the
cells of its command buffer, chunk by chunk, and `Machine.Run` reads one byte at a time. Every method of the
lower layer is proved to do exactly what the upper layer says, and the properties the server exists for are
proved about the upper layer, for every byte string, every state or every run:

* **When chunks do not matter.** `Session.Handle` leaves the session exactly where `Chunks.FeedAll` gets, and
  that is always where the machine gets for some contents of the command buffer (`Chunks.FeedAllIsRun`), so
  what holds of every run of the machine holds of every session. A bare verb's handler reads what the buffer
  holds behind it. A run is clean if it takes no bare MAIL out of sequence and no bare RCPT in sequence; a run
  does not depend on the buffer if and only if it is clean (`Chunks.CleanIff`), and then no cut can be seen,
  inside a CRLF, inside the end of data or across a change of mode (`Chunks.CutsDoNotMatter`). Wherever a run
  stops being clean, bytes can follow of which a cut behind that line is seen in the replies
  (`Cuts.CutShows`); for one fixed stream a run may be unclean and no cut visible, when nothing that follows
  makes a path.
* **The framer is a line splitter.** Over any series of chunks, its results are the one and only cut of the
  stream at its terminators (`Framer.JoinAll`, `Framing.SplitUnique`).
* **What is accepted is a grammar.** The path parser accepts exactly the rendered paths and returns the slice
  without the route; quoting and unescaping undo each other; the unescaping loop stops at the closing quote.
* **Message text is transparent.** Any lines, stuffed and sent, are kept as they were meant if and only if
  they are within the limits and every file operation succeeds; otherwise nothing is kept, and the one
  answer says why.
* **A kept message has a history.** Its envelope is what the transcript of the session says: the last
  accepted MAIL and exactly the RCPTs accepted since. Replies are conserved over every run.
* **The file can be read back** by a tar reader, a Base64 decoder and a line reader that know nothing of how
  it was written, exactly under the conditions stated below.
* **A conforming client is served** (`Conversation.Served`): greeting, sender, recipients and text on the
  wire become one file from which all of them are recovered.

| File | Content |
|---|---|
| `Bytes`, `Framing`, `Framer` | byte strings; cutting at a terminator; the framer class |
| `Parse`, `PathGrammar`, `ParseLoops`, `MailParameters`, `Tables` | the parser as functions, its grammar, its loops, MAIL parameters; its character tables, letter case and limits spelled out |
| `Base64`, `Tar`, `TarWriter`, `Archive`, `Metadata`, `MetadataWriter` | the container: encoders, in-place writers, readers |
| `Disk`, `Machine`, `SessionInvariant`, `Commands`, `Answers`, `History` | file operations; the byte machine; invariants; acceptance; every answer spelled out; transcripts |
| `BareVerbs`, `Chunks`, `Cuts` | lines that are only a verb; the session chunk by chunk; a cut that can be seen |
| `FileLayout`, `MessageText`, `TextLines`, `MessageEnd`, `Failures`, `Delivery`, `Conversation`, `Witnesses` | finishing a file; a message from DATA to its end, and each of its lines spelled out; what sets the error flag; whole deliveries; runs that show what can happen |
| `Session` | the session class that does what `Chunks` says |

Choices that hold everywhere. A byte is a `char` below 256, a span is a string. The outcomes of file
operations come from an oracle `Env.ok`, consulted once per operation in the order the source performs them;
clock and trace text are functions of the operation's number. What a bare verb finds in the command buffer is,
for the byte machine, a second oracle (`Machine.Behind`); `Chunks` and `Session` compute it. The two configured limits are constants of a
run. `_data_error` has no initialiser in the source and is taken to be false at construction; the framer
buffers have none either and are taken to be zero, which satisfies the condition `Framer.Neutral`; the
framer needs no less (`Framer.NeutralIsNeeded`).

What the proofs show about the code, besides that it works:

* A line that is only a verb gets as its argument whatever the command buffer holds behind it. A bare EHLO or
  HELO reads the end of its own line and is always refused; a bare MAIL is always refused; but a bare RCPT adds
  a path that an earlier line left there, or that follows in the same chunk (`BareVerbs.BareGreeting`,
  `BareVerbs.BareMail`, `BareVerbs.BareRcptFindsPath`). This is how a client's cuts become visible.
* `accept` overwrites the keyword before it compares, so MAIL and RCPT take any five or three bytes in its
  place, and RCPT ignores all text behind its path (`Commands.MailExact`, `Commands.RcptExact`).
* EHLO and HELO ignore all text behind the name, and with a separator but no name behind it they are accepted,
  because a domain may lack its last label at the end of the input (`Commands.GreetExact`).
* The error flag is never cleared, so once it is set a session keeps no further message
  (`Failures.NothingKeptAfterFailure`; `Witnesses.FailureReached` reaches the flag). What sets it is exactly a
  line of text whose write fails, or an end of data whose size request succeeds and one of whose later
  operations fails (`Failures.LineError`, `Failures.ErrorIff`). A failed opening or a failed size request
  leaves it clear, and the next message can be kept (`Witnesses.NextIsKept`).
* The name of a greeting is lost with the first message or RSET, and later messages are kept without it
  (`History.KeptHistory`; `Witnesses.NamelessMessage` gives the bytes of such a run).
* A message member whose size is a multiple of 512 is followed by a whole block of zeros, which ends the
  archive for a reader before the metadata (`Archive.ContainerReadsBack`; `Witnesses.AlignedMessage` is such a
  message).
* If only asking for the size of the file fails, the client gets no answer at all (`MessageEnd.SilentIff`,
  `History.StepConserves`; `Witnesses.UnansweredMessage` is such a run).
* A malformed source route is not rejected where it is found; the empty rest it leaves is what makes the
  path fail (`PathGrammar.PathAccepted`).
* `\r\n.\r\n` could not serve as a terminator of the framer: it has a border, and behind a match of such a
  terminator the window is taken for one that is not there (`Framer.DataTerminatorHasBorder`,
  `Framer.BorderIsSeen`).

## Model

| member | source | states |
|---|---|---|
| Framing.SplitSound | common/src/string.cpp:57-89 | scanning cuts every stream into lines whose terminator occurs only at their end, and a remainder without one; glued together they are the stream |
| Framing.SplitUnique | common/src/string.cpp:57-89 | there is no other such cut, so the scan's lines are the lines |
| Framing.ScanTakesNext | common/src/string.cpp:57-89 | a scan resumed after an unfinished line returns the next line of the whole stream and leaves the lines behind it |
| Framing.SplitChunks | common/src/string.cpp:57-89 | the lines of two chunks are those of the first, then those of its unfinished line followed by the second |
| Framing.ScanComplete | common/src/string.cpp:70-86 | the first terminated line is found wherever its bytes were divided between what was read before and what comes |
| Framer.WindowMatches | common/src/string.cpp:71-73 | after any pushes onto a neutral window, the window equals the terminator exactly when the bytes read since then end with it |
| Framer.CrlfIsBorderFree | smtp/include/ervan/smtp/types.hpp:52 | the command terminator may be watched for by a sliding window |
| Framer.ZerosAreNeutral | smtp/include/ervan/smtp/session.hpp:59-64 | a zeroed window can never be taken for the beginning of a terminator |
| Framer.DataTerminatorHasBorder | smtp/include/ervan/smtp/types.hpp:53 | the five-byte end of data overlaps itself |
| Framer.NeutralIsNeeded | common/src/string.cpp:63-73 | for every window that is not neutral there are bytes for which the window equals the terminator although they do not end with it |
| Framer.BorderIsSeen | common/src/string.cpp:70-86 | behind a match of a terminator that overlaps itself, there are bytes that are wrongly taken for another one |
| Framer.Framer.constructor | smtp/include/ervan/smtp/session.hpp:59-64 | a fresh buffer with a neutral window is a valid framer with nothing read |
| Framer.Framer.CopyIn | common/src/string.cpp:62-68 | the capped copy puts the bytes behind those already there as far as they fit; every other cell, window included, keeps its value |
| Framer.Framer.PushBack | common/src/string.cpp:50-55 | the window moves one cell to the left and ends with the new byte; the cells in front stay |
| Framer.Framer.EndLine | common/src/string.cpp:74-82 | a line longer than the capacity is reported out of range, any other is left in front with a NUL behind it, and the framer is valid although the NUL may have hit the window |
| Framer.Framer.Join | common/src/string.cpp:57-89 | the array code returns exactly what scanning the stream byte by byte returns: the line if it fits, out of range if it is longer than the capacity, the rest behind the terminator, or nothing yet; and every cell in front of the window is the one copied there, an older one, or the NUL |
| Framer.JoinAll | common/src/string.cpp:57-89 | over any series of chunks and for every border-free terminator, the successive results are the lines of the glued stream, each whole or reported as too long exactly by its length, and what is left is its unfinished line |
| Framer.Framer.Set | smtp/src/session.cpp:164-166 | a write into a finished line in front of the window changes that cell only and keeps the framer valid |
| PathGrammar.PathComplete | common/src/parse.cpp:171-219 | every rendered path (any routes, a local part up to 64 bytes, a domain up to 255) followed by any text parses to its local part, text and domain, leaving that text |
| PathGrammar.PathSound | common/src/parse.cpp:171-190 | whatever is accepted is a rendered path followed by the rest, and the stored path is its slice from local part to domain |
| PathGrammar.ReversePathSound | common/src/parse.cpp:192-219 | the same for a reverse path, which may also be empty |
| PathGrammar.PathAccepted | common/src/parse.cpp:146-219 | paths are accepted if and only if they start with a rendered path, so an ignored malformed route never leads to acceptance |
| PathGrammar.DomainSound | common/src/parse.cpp:83-110 | an accepted domain is a nonempty sequence of nonempty labels of at most 255 bytes, except that at the end of the input the last label may be empty |
| Tables.AtextIs | common/src/parse.cpp:4-6 | the characters of an atom are the listed letters, digits and nineteen marks |
| Tables.CodesAre | common/src/parse.cpp:8-14 | the other character classes of the parser, by code |
| Tables.DotStringsAre | common/src/parse.cpp:67-80 | the dot-strings of the grammar are exactly nonempty atoms over the listed characters, joined by dots |
| Tables.DomainNamesAre | common/src/parse.cpp:83-110 | the domain names of the grammar are exactly nonempty labels of letters, digits and hyphens, joined by dots, with at most 255 bytes |
| Tables.PlainPath | common/include/ervan/parse.hpp:9-15 | a path of such atoms and labels is accepted, whatever follows, with at most 64 bytes in front of the at-sign and 255 behind it, and refused with more |
| Tables.QuotedLimit | common/include/ervan/parse.hpp:85-92 | a quoted local part is accepted with at most 64 bytes, quotes and backslashes included, and refused with more |
| Tables.OpenDomain | common/src/parse.cpp:87-109 | at the end of the input a domain may end with a dot or be empty |
| Tables.BrokenDomain | common/src/parse.cpp:89-94 | a dot that is followed by anything but a label makes a domain malformed |
| PathGrammar.DomainExact | common/src/parse.cpp:83-110 | a domain name followed by a character that cannot continue it is read to its end |
| PathGrammar.LocalExact | common/src/parse.cpp:60-81 | a local part of the grammar is read to its end with its unescaped text, a quoted one whatever follows |
| PathGrammar.LocalSound | common/src/parse.cpp:30-81 | an accepted local part is a dot-string or quoted string of at most 64 bytes, with the text it stands for |
| PathGrammar.QuoteRoundTrip | common/include/ervan/parse.hpp:85-104 | quoting any printable text whose quoted form fits and parsing it again gives the text, whatever follows |
| PathGrammar.RequoteRoundTrip | common/include/ervan/parse.hpp:85-104 | the text of an accepted quoted string, quoted again, parses to the same text |
| PathGrammar.StoredIsPrintable | common/src/parse.cpp:8-58 | a stored path contains no control character, so no line end |
| ParseLoops.Store | common/include/ervan/parse.hpp:26-38 | text goes into a result buffer with a NUL behind it exactly if it is shorter than the buffer, else nothing is touched |
| ParseLoops.ScanDomain | common/src/parse.cpp:83-110 | the label loops accept exactly the domains described without loops, and fill the buffer |
| ParseLoops.ScanAtom | common/src/parse.cpp:16-28 | skips the longest nonempty run of atom characters |
| ParseLoops.ScanQuotedString | common/src/parse.cpp:30-58 | the scanning loop finds the closing quote that the recursive description finds |
| ParseLoops.UnescapeInto | common/include/ervan/parse.hpp:85-104 | the unescaping loop leaves in the buffer the text that the quoted string stands for, and stays inside it |
| ParseLoops.MeasureDotString | common/src/parse.cpp:67-80 | the atom loop ends behind a dot-string that cannot be continued, or there is no local part |
| ParseLoops.ScanLocalPart | common/src/parse.cpp:60-81 | quoted string or dot-string, exactly as described, with the buffer filled |
| ParseLoops.ScanRoute | common/src/parse.cpp:121-144 | the route loop agrees with the recursive description, malformed routes included |
| ParseLoops.ScanMailbox | common/src/parse.cpp:146-169 | local part, `@` and domain behind a route whose verdict is not looked at |
| ParseLoops.ScanPath | common/src/parse.cpp:171-190 | the loops together parse what `Parse.Path` parses |
| ParseLoops.ScanReversePath | common/src/parse.cpp:192-219 | the loops together parse what `Parse.ReversePath` parses |
| ParseLoops.ScanParam | common/src/parse.cpp:221-265 | keyword, equals sign and value, each as long as possible |
| ParseLoops.CompareInsensitive | common/include/ervan/string.hpp:60-69 | true exactly for texts whose small letters are the same |
| Tables.LettersMatch | common/include/ervan/string.hpp:65 | the two alphabets are each other's capitals and small letters, one by one |
| Tables.OthersStay | common/include/ervan/string.hpp:65 | everything else is its own capital and its own small letter |
| MailParameters.MailParamsGrammar | smtp/src/session/commands.cpp:75-118 | the rest of a MAIL line is accepted if and only if it is a sequence of ` BODY=7BIT` and ` BODY=8BITMIME`, the keyword in any case |
| Tables.ParamsAreWritten | smtp/src/session/commands.cpp:107-118 | the same letter by letter: `B` or `b`, `O` or `o`, `D` or `d`, `Y` or `y`, and the values as they stand |
| Base64.DecodeEncode | common/src/string.cpp:129-184 | a decoder by section 4 of RFC 4648 gives back every byte string, bytes from 128 on included |
| Base64.SymbolIsTableEntry | common/src/string.cpp:140-143 | the symbols are those of the 65-character table |
| Base64.EncodeInto | common/src/string.cpp:129-184 | the encoder returns four thirds of the length rounded up, fills exactly those cells with the encoding, and changes no other cell |
| Tar.NumberReadsBack | common/include/ervan/io.hpp:15-23 | a numeric field of N characters gives a reader the value modulo 8^(N-1), wherever it stands |
| Tar.TextReadsBack | common/include/ervan/io.hpp:25-33 | a text field gives a reader the text if it is shorter than the field |
| Tar.HeaderNumbers | common/include/ervan/io.hpp:63-68 | every header has mode 0640 at offset 100, owner and group zero at 108 and 116, the size at 124 and the time at 136 |
| Tar.HeaderTexts | common/include/ervan/io.hpp:63-79 | every header has its name, type `0`, format, owner and group names at their offsets, and nothing in the other texts |
| Tar.HeaderEnds | common/include/ervan/io.hpp:15-23 | every number of a header ends with a NUL, and the checksum is six digits, a NUL and a blank |
| Tar.TextIsCut | common/include/ervan/io.hpp:25-33 | text too long for its field loses its end |
| Tar.SumFitsSixDigits | common/include/ervan/io.hpp:83-88 | the sum of a header is below 8^6 for every name and size |
| Tar.ChecksumIsConsistent | common/include/ervan/io.hpp:59-91 | the checksum field of every finished header reads back as the sum of all its bytes with that field taken as blanks |
| Tar.SumOfOne | common/include/ervan/io.hpp:83-86 | every byte counts with its code in the sum |
| TarWriter.WriteNumber | common/include/ervan/io.hpp:15-23 | the digit loop, from the right, leaves the octal field and nothing else |
| TarWriter.WriteText | common/include/ervan/io.hpp:25-33 | text cut to the field and filled with NULs |
| TarWriter.AddUp | common/include/ervan/io.hpp:83-86 | the sum over the bytes of the array |
| TarWriter.Filled | common/include/ervan/io.hpp:59-91 | filling the fields, summing and writing the sum over its own blanks leaves the header whose checksum is consistent |
| Archive.HeaderReadsBack | common/include/ervan/io.hpp:59-91 | a reader finds in a header the name, the size modulo 8^11 and a valid checksum |
| Archive.ReadFirstMember | smtp/src/session/file.cpp:95-100 | behind a member that ends on a block boundary a reader finds the end of the archive, behind any other the next member |
| Archive.ContainerReadsBack | smtp/src/session/file.cpp:83-143 | a tar reader recovers exactly the two members, contents included, if and only if the message does not end on a block boundary and both sizes fit eleven octal digits |
| Metadata.LengthFormula | common/src/message.cpp:8-9 | the length computed for an encoded line is that of the encoding, for every length |
| Metadata.TextIsLines | common/src/message.cpp:23-44 | the writes together are the four encoded lines, the name, the reverse path and the forward paths, one to a line |
| Metadata.ReadsBack | common/src/message.cpp:7-47 | a reader of lines and Base64 recovers the four blocks, the name, the reverse path and the forward paths in order |
| MetadataWriter.EncodeBlock | common/src/message.cpp:13-16 | an encoded line fills its own 44 cells and no other line's |
| MetadataWriter.FillBlocks | common/src/message.cpp:11-21 | blocks and line ends tile the 184 cells without overlap |
| MetadataWriter.WriteTo | common/src/message.cpp:7-47 | the writes happen in order, stop at the first failure, and report it |
| Disk.File.Put | smtp/src/session/file.cpp:80 | a write that succeeds overwrites at the position and moves it; one that fails changes only the count of operations |
| Disk.WriteAllOutcome | smtp/src/session/file.cpp:24-30 | a run of writes at the end succeeds if and only if each of its operations does, and then appends the pieces |
| Disk.OverwriteInside | smtp/src/session/file.cpp:117-118 | a write inside a file changes only the bytes it covers |
| FileLayout.FillBlockOutcome | smtp/src/session/file.cpp:117-118 | writing a header back touches the reserved block and nothing before or behind it |
| FileLayout.FinishMessageOutcome | smtp/src/session/file.cpp:117-120 | the first stage succeeds if and only if its two operations do, and leaves the first member with its size |
| FileLayout.AppendMetadataOutcome | smtp/src/session/file.cpp:127-138 | the second stage succeeds if and only if its operations do, and appends the second member |
| FileLayout.Member1IsBlocks | smtp/src/session/file.cpp:95-100 | the first member ends on a block boundary |
| FileLayout.AssembleOutcome | smtp/src/session/file.cpp:117-150 | finishing succeeds if and only if each of its 11 + 2n operations does, and then the file is the container of text and metadata |
| Machine.RunAppend | smtp/src/session.cpp:99-109 | for any contents of the buffer, reading bytes in two parts is reading them glued together, from every state |
| Machine.RunClosed | smtp/src/session.cpp:101-102 | a closed session ignores everything |
| Machine.RunCmd | smtp/src/session.cpp:111-123 | reading bytes in command mode is taking the next whole line and handing it to the command table |
| Machine.RunData | smtp/src/session.cpp:125-175 | reading bytes of a message is taking the next whole line and storing it or ending the message |
| SessionInvariant.InitialInv | smtp/src/session.cpp:11-14 | a new session satisfies the invariant |
| SessionInvariant.OpenFileOutcome | smtp/src/session/file.cpp:11-76 | opening succeeds if and only if each of its operations does, one for each piece of the trace and two before, and leaves room for a header and the trace |
| SessionInvariant.StepKeeps | smtp/src/session.cpp:99-175 | every byte keeps the invariant: DATA has a sender, recipients and no pending command, a sender implies a greeting, the inactive line is empty, recipients are within the limit, and what is stored is printable |
| SessionInvariant.RunKeeps | smtp/src/session.cpp:99-175 | so does every run, and greeting, replies and kept messages are never taken back |
| SessionInvariant.NothingKeptAfterError | smtp/include/ervan/smtp/session.hpp:67 | from a state with the error flag set, every run keeps nothing and leaves the flag set |
| Failures.LineError | smtp/src/session.cpp:155-171 | a line of a message leads to the flag if and only if it was set, the line is text still to be written and its write fails, or it ends the message and, the size request having succeeded, one of the later operations fails |
| Failures.StepError | smtp/src/session/commands.cpp:5-194 | commands never touch the flag, a failed opening included; a byte sets it exactly by completing such a line |
| Failures.ErrorIff | smtp/src/session/file.cpp:103-150 | over every run, the flag is set if and only if it was set or some step sets it so |
| Failures.NothingKeptAfterFailure | smtp/src/session.cpp:161-171 | once a step of a run has failed so, nothing is kept any more, whatever is sent |
| Failures.KeptIffNothingFailed | smtp/src/session/file.cpp:102-161 | after any run from the start, a message is kept if and only if no earlier step failed so, its lines fit, its size is within the limit and all its operations succeed |
| Commands.MailArgumentExact | smtp/src/session/commands.cpp:58-97 | an argument parses if and only if it is five bytes, a reverse path of the grammar and body parameters, and there is only one reading |
| Commands.RcptArgumentExact | smtp/src/session/commands.cpp:121-141 | an argument parses if and only if it is three bytes, a path of the grammar and anything |
| Commands.MailExact | smtp/src/session/commands.cpp:57-105 | MAIL sets the sender and clears the recipients exactly after a greeting, outside a transaction and with such an argument; otherwise it only answers |
| Commands.RcptExact | smtp/src/session/commands.cpp:120-147 | RCPT adds a recipient exactly after a greeting, with room left and with such an argument; otherwise it only answers |
| Commands.GreetExact | smtp/src/session/commands.cpp:5-55 | a greeting is accepted exactly if its argument starts with a name, or is one whose last label is missing; it stores the name and forgets any transaction; otherwise it only answers |
| Commands.DataExact | smtp/src/session/commands.cpp:153-170 | DATA starts a message exactly with a sender, a recipient and a file that can be opened; otherwise only the file and the replies change |
| Answers.TableIs | smtp/include/ervan/smtp/session.hpp:108-129 | the nine verbs are found in any mixture of capitals and small letters, and nothing else is a verb |
| Answers.PlainAnswers | smtp/src/session/commands.cpp:172-184 | NOOP, VRFY and RSET, whatever follows them: their one answer and their whole effect |
| Answers.NoCommand | smtp/src/session.cpp:76-92 | a line that names no verb is an invalid command, and one of more than 510 bytes is too long |
| Answers.QuitCloses | smtp/src/session/commands.cpp:186-194 | QUIT in any spelling answers once and closes the session, nothing else changes, and nothing behind it is read |
| Answers.OnlyQuitCloses | smtp/src/session/commands.cpp:5-194 | a byte closes a session if and only if it completes a QUIT line of at most 510 bytes |
| Answers.DataAnswers | smtp/src/session/commands.cpp:153-170 | DATA is out of sequence exactly without sender or recipient, a local error exactly if the file then cannot be opened, and starts the message otherwise |
| Answers.GreetAnswers | smtp/src/session/commands.cpp:5-55 | EHLO and HELO with a name have their own answers and the same effect; without one they are malformed |
| Answers.MailAnswers | smtp/src/session/commands.cpp:57-105 | MAIL without a path is malformed, with one out of sequence it is told so, and in sequence it succeeds exactly if only parameters follow |
| Answers.RcptAnswers | smtp/src/session/commands.cpp:120-147 | RCPT is malformed, out of sequence, one too many, malformed again or accepted, tried in this order |
| Commands.VerbInAnyCase | smtp/src/session.cpp:82-97 | the letter case of the verb and the byte behind it make no difference |
| BareVerbs.BareGreeting | smtp/src/session.cpp:94 | a bare EHLO or HELO reads the end of its own line and is refused, whatever else the buffer holds |
| BareVerbs.BareMail | smtp/src/session/commands.cpp:57-105 | a bare MAIL in sequence is refused as malformed, whatever the buffer holds |
| BareVerbs.BareRcptFindsPath | smtp/src/session/commands.cpp:120-147 | a bare RCPT in sequence adds the path that stands in the buffer where it looks, whatever surrounds it |
| BareVerbs.BareMailFindsPath | smtp/src/session/commands.cpp:63-73 | a bare MAIL out of sequence is told so if a path stands in the buffer where it looks |
| BareVerbs.NothingBehindWindow | smtp/src/session.cpp:94 | although a bare verb's argument has no end, no cell behind the window is ever looked at |
| BareVerbs.BufferMatters | smtp/src/session.cpp:76-97 | a command line's outcome is the same for all contents of the buffer if and only if it is not a bare MAIL out of sequence or a bare RCPT in sequence; otherwise two contents get different replies |
| History.CommandIs | smtp/src/session/commands.cpp:5-194 | every command line gets exactly one reply, and its effect on the transaction can be told from the line, the reply and, for a bare verb, what it found in the buffer |
| History.DataLineIs | smtp/src/session.cpp:125-175 | a line of text changes nothing in the transaction; the end of data closes it, keeps its envelope exactly if the answer is success, and is answered once, or not at all exactly if nothing is wrong but the size cannot be asked for |
| History.History | smtp/src/session.cpp:76-175 | over every run, whatever bare verbs find in the buffer: envelope, greeting, replies and kept envelopes are what the transcript of lines and answers says |
| History.StepConserves | smtp/src/session/file.cpp:102-181 | from every state, an entry of the transcript is unanswered if and only if its step is silent: an end of data with all flags clear whose size request fails |
| History.RepliesConserved | smtp/src/session.cpp:76-123 | over every run, from every state and whatever file operations fail: the replies are as many as command lines and ended messages, less exactly the silent ends |
| History.SenderIs | smtp/src/session/commands.cpp:99-102 | sender and recipients are the last accepted MAIL with nothing ending its transaction and exactly the RCPTs accepted since |
| History.KeptHistory | smtp/src/session/commands.cpp:57-170 | over every run, each kept message ended with success and carries the last accepted MAIL before its end, exactly the RCPTs accepted between, at least one, and the name of the last greeting, which is empty once a reset or message has come between |
| History.NameIs | smtp/src/session.cpp:39-46 | the name is that of the greeting at `j` if `j` is the last one and no reset or message lies behind it, and empty if there is no such greeting |
| MessageText.LinesOutcome | smtp/src/session.cpp:128-172 | after any lines, the size and the flags for length are those of the lines alone, wherever an over-long line was caught, and lines that fit are all written exactly when the error flag was clear and every write succeeds |
| MessageText.RunLines | smtp/src/session.cpp:128-172 | the bytes of any lines are taken line by line whatever follows |
| TextLines.EndIsDot | smtp/src/session.cpp:141 | the end of the data is exactly the line that is a dot as a C string |
| TextLines.LongLineTaken | smtp/src/session.cpp:132-137 | a line of more than 1022 bytes is not counted and makes the message refused |
| TextLines.LineCounted | smtp/src/session.cpp:150-162 | any other line but the end counts as it is stored, with two leading dots made one and every other line as it is, and two bytes more; over 996 bytes, or a total over the limit, it makes the message refused |
| TextLines.LineWritten | smtp/src/session.cpp:164-171 | while nothing is wrong, exactly that text and its line end are appended to the file, or the write fails and sets the error flag |
| MessageEnd.EndsAfterLines | smtp/src/session.cpp:141-148 | the end of data leads back to commands with one exact answer and exactly the kept file |
| MessageEnd.EndOfData | smtp/src/session/file.cpp:102-181 | a whole DATA phase, for all lines, all outcomes of file operations and either value of the error flag: the one answer by rank (storage, line, local error, success), the kept file, and the forgotten transaction |
| MessageEnd.CommitIff | smtp/src/session/file.cpp:102-161 | a message is kept if and only if the error flag is clear, every line has at most 996 bytes without its stuffed dot, the counted size is within the limit and every file operation succeeds |
| MessageEnd.SilentIff | smtp/src/session/file.cpp:111-115 | the answer to a message is none if and only if nothing is wrong with it, all its lines are written and only asking for the size of its file fails |
| Delivery.StuffedLine | smtp/src/session.cpp:150-151 | a stuffed line is unstuffed to itself, never ends the message and never breaks in two, NULs included |
| Delivery.StuffedText | smtp/src/session.cpp:150-168 | stuffed lines are stored as the lines and their ends |
| Delivery.StartsMessage | smtp/src/session/commands.cpp:153-170 | an accepted DATA starts a message with the trace in the file and everything else unchanged |
| Delivery.Delivered | smtp/src/session.cpp:125-175 | lines sent after an accepted DATA are kept as meant if and only if they have at most 996 bytes each, are within the size limit together and every file operation succeeds; nothing else is kept |
| Delivery.FileReadsBack | smtp/src/session/file.cpp:102-143 | message and envelope are read back from a kept file, exactly under the conditions of the container |
| Delivery.DeliveryRoundTrip | smtp/src/session.cpp:125-175 | from bytes on the wire to the file and back: trace, lines and envelope are recovered |
| Conversation.RcptsTaken | smtp/src/session/commands.cpp:120-147 | any number of RCPT lines within the limits are accepted in order |
| Conversation.Opened | smtp/src/session/commands.cpp:5-147 | a greeting of either kind, any sender of the grammar, the null one included, with body parameters, and recipients leave exactly the envelope that was meant |
| Conversation.Served | smtp/src/session.cpp:16-37 | a conforming conversation, from any state that waits for a command, keeps exactly one message, from which trace, lines, name and paths are recovered |
| Conversation.ServedInChunks | smtp/src/session.cpp:16-37 | the same for every cut of those bytes into chunks and every content of the command buffer |
| Conversation.DeliveredInChunks | smtp/src/session.cpp:99-175 | a message sent in any chunks is kept as meant exactly under the conditions of a delivery |
| Witnesses.NamelessMessage | smtp/src/session.cpp:39-46 | the given bytes, in which a client greets with the name `x` and resets, keep a message without a name |
| Witnesses.AlignedMessage | smtp/src/session/file.cpp:95-100 | for whatever trace there is a one-line message whose file gives a reader the message and no metadata |
| Witnesses.UnansweredMessage | smtp/src/session/file.cpp:111-115 | a run from the start in which a message gets no answer, nothing is kept and the error flag stays clear |
| Witnesses.NextIsKept | smtp/src/session/file.cpp:111-115 | after such a message, the next one of the same client is kept |
| Witnesses.FailureReached | smtp/src/session.cpp:170-171 | there is a run from the start that sets the error flag by a line that cannot be written |
| Chunks.SameRun | smtp/src/session.cpp:99-175 | a run depends on the buffer only where its own command lines end |
| Chunks.CleanIff | smtp/src/session.cpp:99-175 | a run is the same for all contents of the buffer if and only if it takes no bare MAIL out of sequence and no bare RCPT in sequence |
| Chunks.FeedAllIsRun | smtp/src/session.cpp:16-37 | every series of chunks does what the machine does with all bytes for some contents of the buffer |
| Chunks.CutsDoNotMatter | smtp/src/session.cpp:99-175 | in a clean run, every way of cutting the bytes and every content of the buffer lead to the same state, replies, file and kept messages |
| Chunks.FeedAllClosed | smtp/src/session.cpp:101-102 | a closed session takes no more chunks |
| Cuts.CutShows | smtp/src/session.cpp:94-112 | for every state, every content of the buffer and every command line that depends on it, there are bytes to follow of which one chunk and two, cut behind the line, get different replies |
| Cuts.CutsMatter | smtp/src/session.cpp:94 | from the start of a session, the same bytes in two cuts get different replies, by a bare RCPT |
| Cuts.KeywordLeft | smtp/src/session.cpp:54-55 | behind a MAIL or RCPT line the buffer holds the keyword, whatever the line said in its place |
| Cuts.BareRcptBehindMail | smtp/src/session.cpp:54-55 | a bare RCPT in a chunk of its own behind a MAIL line is refused, even with a path in the keyword's place |
| Session.Session.constructor | smtp/src/session.cpp:11-14 | a new session stands for the initial state and a buffer of zeros |
| Session.Session.Reset | smtp/src/session.cpp:39-46 | back to commands with the transaction forgotten and the greeting remembered |
| Session.Session.Accept | smtp/src/session.cpp:48-63 | the keyword is written over the argument in place, and only the argument's length decides; all other cells stay |
| Session.Session.Greet | smtp/src/session/commands.cpp:5-55 | a greeting with a domain resets the session and stores the name |
| Session.Session.Mail | smtp/src/session/commands.cpp:57-105 | the method with its parameter loop does what the machine's MAIL does with the argument in the buffer, and leaves the keyword there |
| Session.Session.AreKnownParams | smtp/src/session/commands.cpp:77-97 | the parameter loop accepts exactly the lists of body parameters |
| Session.Session.Rcpt | smtp/src/session/commands.cpp:120-147 | the method does what the machine's RCPT does with the argument in the buffer, and leaves the keyword there |
| Session.Session.StartMessage | smtp/src/session/commands.cpp:153-170 | the method does what the machine's DATA does |
| Session.Session.OpenFile | smtp/src/session/file.cpp:11-76 | opening, the reserved header and the pieces of the trace, up to the first failure |
| Session.Session.Quit | smtp/src/session/commands.cpp:186-194 | an answer, and the session is closed |
| Session.Session.PutVerbInUpperCase | smtp/src/session.cpp:82-86 | the verb is changed to upper case in place with a NUL behind it; all other cells stay |
| Session.Session.ReadVerb | smtp/src/session.cpp:76-94 | finds the verb and the cells of the argument: those behind the separator, or for a bare verb all cells from the sixth to the end of the buffer |
| Session.Session.CallCommand | smtp/src/session.cpp:76-97 | a command line in the buffer has the effect the machine gives it with the cells behind it, and leaves exactly the stated cells |
| Session.Session.PadData | smtp/src/session/file.cpp:95-100 | zeros up to the next block, or a whole block |
| Session.Session.FinishMessage | smtp/src/session/file.cpp:117-120 | header written back and end padded, unless something has failed |
| Session.Session.AppendMetadata | smtp/src/session/file.cpp:127-138 | reserved header, metadata, header written back, end padded |
| Session.Session.AbortData | smtp/src/session/file.cpp:163-181 | the file is emptied, the transaction forgotten, and the reason of highest rank answered |
| Session.Session.FinishData | smtp/src/session/file.cpp:102-161 | all stages in order with their failures, ending in a kept file or an abort |
| Session.Session.WriteLine | smtp/src/session.cpp:164-171 | the line end is written into the buffer behind the line, always in front of the window, and the line goes to the file |
| Session.Session.StoreLine | smtp/src/session.cpp:150-171 | unstuffs, counts and checks a line in place and writes it while nothing is wrong |
| Session.Session.TakeText | smtp/src/session.cpp:139-171 | a line that fits ends the message, told by comparing C strings, or is stored, as the machine says |
| Session.Session.TakeLine | smtp/src/session.cpp:132-171 | what the framer left is stored or ends the message as the machine says |
| Session.Session.TakeCommand | smtp/src/session.cpp:114-120 | what the framer left is called as a command or refused as too long |
| Session.Session.JoinCmd | smtp/src/session.cpp:112 | the chunk stands in the cells of the command buffer as far as it fits before its first line is looked at |
| Session.Session.FeedCmd | smtp/src/session.cpp:111-123 | consumes at least one byte and leaves the same outcome to come, cells included |
| Session.Session.FeedData | smtp/src/session.cpp:125-175 | consumes at least one byte and leaves the same outcome to come |
| Session.Session.Feed | smtp/src/session.cpp:99-109 | a chunk, through all changes of mode inside it, leaves exactly the state and the cells that `Chunks.Feed` gives, bare verbs included |
| Session.Session.Handle | smtp/src/session.cpp:16-37 | any chunks leave exactly what `Chunks.FeedAll` gives, and in a clean run what the machine gives for all their bytes, however they were cut |

## Left out

- Framer.Framer.Join: the offset is a mathematical integer; the source's `int` would overflow on an unterminated line of two gigabytes.
- Session.Session.ReadVerb: the source forms a span of length minus one for a four-byte line; it is modelled as the cells up to the end of the buffer, behind which nothing is looked at (`BareVerbs.NothingBehindWindow`).
- Session.Session.OpenFile: the trace header is a sequence of writes of opaque text; its dates and folding are not modelled, nor is the file that a failed opening leaves on disk.
- Session.Session.AbortData: truncating, unlinking and closing always succeed and are not counted as operations.
- Session.Session.FinishData: only the first request for the size of the file may fail; later ones use the position, which a model of a regular file always knows. Stages that are skipped after a failure are not started; the source creates a coroutine for them and drops it.
- Session.Session.Reset: size and recipient limits are not read again from the configuration.
- Disk.File.Put: a failed write leaves the file as it was; partial writes are not modelled.
- Parse.Domain: letters and digits are those of ASCII, whatever the locale; bytes from 128 on are neither.
- Tar.Octal: sizes and times are unbounded integers; wrap-around at 2^64 does not reach the digits that are written.
- Replies are codes, not texts; the greeting banner and the host name in replies are not modelled, and neither is a failed `send` or `recv`.
- `get_unique_filename`, permissions and the directory of the files: no property depends on them.
- `look`, `loop_state` and `base64_decode`: not used by the session; a decoder by RFC 4648 stands in for the last.
- `config`, `get_config_pair`, the monitor and all process handling: separate from the protocol.
- Sockets, coroutines and the event loop: every awaited call is a synchronous one.
