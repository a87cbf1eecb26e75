# movactl, modelled and proved in Dafny

movactl is a daemon that shares serial audio and video devices among clients, and a command
line client for it. This project models the parts that carry state and proves what they keep:

- the throttled output queue of a device, as a linked list with two cursors, and the pairing of
  a device's replies with outstanding commands by one letter (`OutputList`, `Session`, `Devices`,
  `Backend`, `DeviceRuns`, `LineTexts`, `Replies`);
- the cutting of byte streams into packets and lines, whatever the reads (`Framing`,
  `ClientBytes`);
- the completion of command names on a linked list pruned in place (`Candidates`, `Completion`,
  `Spelling`, `Survivors`);
- the notification chain, the tokens connections hold, and the requests that change them
  (`Registry`, `Subscriptions`, `Answers`, `Notifying`, `Daemon`), with the client's own list of
  what it watches (`NotifyClient`);
- capability queries and the client's one-pass merge of the replies (`Capability`);
- the text form of signed 24-bit numbers and the command line built on it (`Codec`,
  `ClientBytes`).

Objects that change are classes whose methods loop and relink as the program does; each method
is proved against a function on values, and the properties of runs are lemmas about those
functions. Verify with `dafny verify dfyconfig.toml`.

How the model reads the program:

- Time is in microseconds and only goes forward. A timer is pending with a due time or not
  pending; it fires at or after that time. Writes are complete.
- C strings are sequences of characters; where the program reads a C string's end, the model
  reads a NUL. A NUL ends a device packet like a separator, because `strchr` finds it.
- A chain entry's address is a number no other entry ever gets. A connection is its descriptor,
  which the program compares too.
- `status::notify` advances from an entry its callback may just have removed; the model takes
  the successor before the callback, as the loop means to.
- Characters count from 0, so that a feedback argument above 0x7F is taken for a letter.
- `serverside::disabled` is not set by its constructor; servers come with a given value here.
- `send_int_command` prepares a newline but leaves it out of the count it passes to `writev`, so
  it is not written. The server handles the line when the client closes.
- `query` of both devices always answers that the value is unknown, so a query subscribes.
- `remove_output` is only meant for a non-null pointer; both callers are proved to pass the
  oldest outstanding message, so its throw is never reached.

Promises that do not hold for all inputs, each with the exact condition under which they do:

- Every reply that arrives is paired with the command that caused it if and only if no answered
  command whose reply arrives shares its second letter with one dropped since the previous answer
  (`Sessions.PairsRightly`, `Sessions.DropMispairs`).
- Client and server agree on what is watched if and only if the last message sent about each code
  and the last one that reached an enabled server say the same (`NotifyClient.RunAgrees`,
  `NotifyClient.DisabledDisagrees`).
- A name that alone is abbreviated by the arguments is taken if and only if no other name still in
  play has one of the words exactly where it has not (`Survivors.AloneIsLeft`,
  `Survivors.ExactWordBeats`).
- Numeric arguments reach an LGE device as the digits of its format only if they fit
  (`Devices.ByteDigits`, `Devices.WordArgument`).
- A Marantz device's feedback is read as the flags it stands for only below ten
  (`Devices.FeedbackOfFlags`).
- Numbers survive their text form only if they are 24-bit values (`Codec.DecodeEncode`).
- Completion does not always use all the arguments that spell a name
  (`Spelling.SpelledNameUsed`, `Spelling.LoneNameStopsEarly`).

## Model

| member | source | states |
|---|---|---|
| Codec.EncodeTable | base64.c:30 | the encoding table is Table 1 of section 4 of RFC 4648, entry by entry |
| Codec.DecodeTable | base64.c:32-41 | on every character from + to z the decoding table inverts that table; 0 means "not in the alphabet" for every character but A |
| Codec.Base64Int24 | base64.c:43-49 | the four characters left in the caller's buffer are the text of the number's four sextets |
| Codec.LookUp | base64.c:58 | the test of one character and its table lookup find its value in RFC 4648's table, or that it has none |
| Codec.Debase64Int24 | base64.c:51-70 | for every string, shorter ones too, the decoder returns the value of the leading valid characters, at most four, the first sextet being signed |
| Codec.DecodeEncode | base64.c:43-70 | for every integer, decoding the encoding keeps the sign and the 23 low bits; it gives the number back if and only if the number is in [-2^23, 2^23) |
| Codec.EncodeDecode | base64.c:43-70 | every four characters of the alphabet are the encoding of what they decode to, which is a 24-bit value |
| Codec.EncodeIsRfc4648 | base64.c:43-49 | on 24-bit values the encoder is section 4 of RFC 4648 applied to the three big-endian two's-complement bytes |
| Codec.Fold23 | base64.c:45-48 | the folded value is a 24-bit value of the same sign, congruent modulo 2^23, and the number itself exactly when that is a 24-bit value |
| Framing.FrameAppend | backend.cc:144-160 | draining a buffer early and going on with what is left yields the same packets and the same rest as draining once |
| Framing.ChunksDoNotMatter | backend.cc:134-161 | however a stream is cut into reads, the packets delivered and the bytes left over are those of the whole stream |
| Framing.FrameIsFields | backend.cc:144-160 | in whatever way a stream is written as fields, each with a stop behind it, and a rest without stops, the drain yields the non-empty fields (for client lines: all fields) and that rest |
| Framing.FrameFields | backend.cc:144-160 | whole fields at the beginning of a buffer are drained first, whatever follows them |
| Framing.StreamHasFields | backend.cc:144-160 | every stream can be written that way |
| Framing.DeliveredFields | backend.cc:134-161 | over any run of reads the packets are the handed-over fields of the whole stream; none of them holds a stop, so for a device none holds a NUL, and no empty one is delivered |
| OutputLists.OutputList.Ends | backend_private.hh:54-59 | the insert position is before-begin exactly when the list is empty |
| OutputLists.OutputList.ToSend | backend_private.hh:47-52 | one message moves from the unsent to the sent part; at the end nothing changes and there is none |
| OutputLists.OutputList.InPtr | backend_private.hh:54-59 | the front of the list when a message is outstanding, null otherwise, also when unsent messages wait |
| OutputLists.OutputList.Push | backend_private.hh:61-66 | the message is appended to the unsent part and the sent part is as before |
| OutputLists.OutputList.Pop | backend_private.hh:68-73 | with an outstanding message, the oldest one leaves and the unsent part is as before; all cursors stay right when the list becomes empty |
| OutputLists.OutputList.Clear | backend_private.hh:75-80 | both parts are empty and the cursors are right |
| Sessions.DefaultThrottle | backend.cc:130-131 | seconds and microseconds, with C's truncating division, together are the configured milliseconds |
| Sessions.WriteTimes | backend.cc:163-177 | a write puts the first waiting message on the line and sets the timer to its own seconds and microseconds, if it asks for any, and to the configured milliseconds else |
| Sessions.EveryPause | backend.cc:163-177 | in every state of every run of a session: consecutive writes are at least the earlier message's own seconds and microseconds apart, if it asks for any, and the configured milliseconds else; the timer is due exactly then after the last write |
| Sessions.QueueKeeps | backend.cc:305-322 | a send keeps the session invariant: order and conservation of messages, spacing of writes, a pending timer while anything waits, and every reply's command outstanding |
| Sessions.TimerKeeps | backend.cc:163-177 | a firing of the timer, when it is due, keeps the session invariant |
| Sessions.ReplyMatches | lge_status.cc:175-183 | a genuine reply always finds a match, never behind the command really answered; exactly the outstanding commands up to the match are removed, so every command behind the answered one stays outstanding |
| Sessions.ArriveKeeps | lge_status.cc:168-183 | handling a reply keeps the session invariant: in particular the commands of all later replies stay outstanding |
| Sessions.StepKeeps | backend.cc:163-177 | every step - send, timer, the peer answering or dropping a command, a reply arriving - keeps the session invariant |
| Sessions.EverySession | backend.cc:163-177 | in every state of every run of a session in which what arrives are the peer's replies: what was queued is what was written followed by what waits, in order; consecutive writes are at least the earlier one's pause apart; something waits only while the timer is pending; every reply's command is outstanding (`DeviceRuns.EveryRun` has the first three for every run of either device) |
| Sessions.RunKeeps | backend.cc:305-322 | the same from any state that satisfies the invariant, under the same steps |
| Sessions.PairsRightly | lge_status.cc:175-183 | from the opening of the line: every reply that arrives in a run is paired with the command that caused it if and only if each answered command whose reply arrives differs in its second letter from every command dropped since the previous answer |
| Sessions.PairsRightlyFrom | lge_status.cc:175-183 | the same from any state of a session: if and only if, besides, the replies already under way that arrive will find their own commands first |
| Sessions.NoDropSeparate | lge_status.cc:175-183 | a run in which the peer drops nothing meets that condition whatever the commands are |
| Sessions.NoDropPairsRightly | lge_status.cc:175-183 | in every run in which the peer drops nothing, every reply is paired with the command that caused it |
| Sessions.DropMispairs | lge_status.cc:175-183 | pairing is wrong after a single drop: for any two commands with the same second letter, the run that drops the first takes the reply to the second for the first's |
| Sessions.TimerDrains | backend.cc:163-177 | with no further sends, n firings write the next n waiting messages in order; the queue is empty after exactly as many firings as there were waiting messages, and the timer is pending until then |
| Devices.OneReportEach | lge_status.cc:206-210 | there is exactly one report for each row with the two command letters, in the order of the table, with the acknowledgement and the text, and no other report |
| Devices.EveryMessageAnswerable | lge_status.cc:213-302 | every message sent to an LGE device starts with a row's two-letter device command, so it is never one that a reply's letter cannot match |
| Devices.WordArgument | lge_status.cc:298-299 | for every C int: it is sent as two bytes of two digits exactly if it is above -256 and below 65536, the second byte always being its lowest, and they spell it exactly if it is not negative |
| Devices.ByteDigits | lge_status.cc:244 | for every C int: it is sent as two hexadecimal digits exactly if it is below 256 and not negative, and the digits spell it exactly if it is not negative |
| Devices.LayerFlagsBits | marantz_status.cc:330-341 | the flags fit one hexadecimal digit in which exactly the layers already on and the one asked for have their bit set |
| Devices.FeedbackOfFlags | marantz_status.cc:268-281 | the layers taken to be on from feedback are those of the flags if and only if the flags are below ten: a hexadecimal letter is taken for ten less |
| Devices.MarantzKeeps | marantz_status.cc:343-372 | any packet removes all outstanding messages and none that waits; a layer request it makes comes last; spacing and the timer's guard hold on |
| Backends.BackendDevice.constructor | backend.cc:127-132 | a device starts with an empty queue, no timer and the default pause of its configuration |
| Backends.BackendDevice.WriteCb | backend.cc:163-177 | on the linked queue: the first waiting message goes out, and the timer is set to the message's own pause, or to the device's when it asks for none; with nothing waiting nothing changes |
| Backends.BackendDevice.TimerFires | backend.cc:187-189 | the timer is no longer pending when its callback writes the next message |
| Backends.BackendDevice.Send | backend.cc:305-322 | on the linked queue: a message is queued, and written at once exactly when the timer is not pending |
| Backends.BackendDevice.Close | backend.cc:195-204 | queue, timer and input are those of a fresh session |
| Backends.BackendDevice.Open | marantz_status.cc:406-414 | a Marantz device forgets its layers and is asked for the first one; an LGE device is sent nothing |
| Backends.BackendDevice.RemoveOutput | backend.cc:342-356 | it throws exactly when the pointer is not the oldest outstanding message; otherwise just that message goes and the pointer moves to the next outstanding one |
| Backends.BackendDevice.SkipUnmatched | lge_status.cc:175-176 | on the linked queue, outstanding messages are removed up to the first one the line can answer, and never is the throw reached |
| Backends.BackendDevice.TakeMatch | lge_status.cc:175-183 | on the linked queue: the session's reply step, and the first letter of the match if there is one |
| Backends.BackendDevice.LgeUpdateStatus | lge_status.cc:168-211 | the queue changes as the session's reply step says, no unsent message is removed, nothing is thrown, and the reports are those for the match's first letter and the line's |
| Backends.BackendDevice.LgeDispatch | lge_status.cc:190-210 | lines too short or without OK or NG report nothing; others report every row of the command |
| Backends.BackendDevice.RemoveAll | marantz_status.cc:349-351 | the drain ends with nothing outstanding, the unsent part unchanged and nothing thrown |
| Backends.BackendDevice.MaUpdateStatus | marantz_status.cc:343-372 | outstanding messages are drained; feedback changes the layers taken to be on, and then the layer of the packet's row is asked for exactly when it is not on |
| Backends.BackendDevice.CutPacket | marantz_status.cc:345-356 | the code before the first colon without a leading @, and the text behind the colon; no code without a colon |
| Backends.BackendDevice.ApplyCode | marantz_status.cc:360-371 | only the first row with the code counts: its feedback first, then its layer |
| Backends.BackendDevice.EnableAutoStatusLayer | marantz_status.cc:330-341 | one request is sent, with the flags of the layers that are on and the one asked for |
| Backends.BackendDevice.SendStatusRequest | lge_status.cc:213-226 | the first row with the code decides the message; without one nothing is sent and -1 returned |
| Backends.BackendDevice.LgeSendCommand | lge_status.cc:278-302 | an unknown command or a wrong number of arguments sends nothing; otherwise the row's message goes out with the row's pause |
| Backends.BackendDevice.ReadCb | backend.cc:134-161 | a read leaves exactly the unterminated rest in the buffer and comes to handling the complete packets in order, on the linked queue |
| Backends.BackendDevice.Drain | backend.cc:144-160 | the draining loop ends with the unterminated rest and has handled every packet in order |
| Backends.BackendDevice.ScanSeparator | backend.cc:148-151 | the first separator or NUL, a NUL being found by strchr too |
| DeviceRuns.UpdateKeeps | lge_status.cc:168-183 | one packet of either device, genuine or not: nothing written or waiting is lost, spacing and the timer's guard hold on, and what the packet makes the host ask for is queued last |
| DeviceRuns.UpdateAllKeeps | backend.cc:144-160 | the same for a read that brings any number of packets |
| DeviceRuns.EventKeeps | backend.cc:134-177 | the same for each event: a message queued at any time, the timer firing when due, a read of any bytes |
| DeviceRuns.RunKeeps | backend.cc:134-177 | the same for every run of events from any orderly state; what was written stays written and what was removed stays removed |
| DeviceRuns.EveryRun | backend.cc:134-177 | in every state of every timed run of a session of either device, whatever it sends: consecutive writes at least the earlier one's pause apart, a timer pending while anything waits, and queued messages, layer requests included, exactly those written followed by those waiting, in order |
| DeviceRuns.EveryPause | backend.cc:163-177 | the same for every run of either device, whatever it sends |
| Replies.LinesArrive | lge_status.cc:168-187 | handling genuine reply lines is the session's arrivals, one by one |
| Replies.CutLines | backend.cc:144-160 | any beginning of a stream of whole lines yields the first of them as packets, and its rest with what follows is the stream of the others |
| Replies.BytesAreSteps | backend.cc:134-161 | any run at the level of bytes - sends, timer firings, the peer answering with lines or dropping commands, and reads of any number of bytes, in any order - is a run of the session in which each read is the arrival of the replies it completes |
| Replies.EveryReadReports | lge_status.cc:168-211 | in every such run in which no answered command whose reply has arrived shares its second letter with one dropped since the previous answer, a read reports, line for line, for the command that the line answers |
| Replies.FreshShows | backend.cc:195-204 | a line just opened is such a start |
| Replies.ReportedFor | lge_status.cc:182-210 | a genuine reply is reported for the command matched, and so for the command answered when both have the same first letter |
| Replies.NoDropReportsRightly | lge_status.cc:168-211 | in every run in which the peer drops nothing, a reply is reported for the two letters of the command that caused it |
| LineTexts.DigitsRead | lge_status.cc:244 | the digits of a number are 0-9 and A-F, the higher one first |
| LineTexts.UnknownSendsNothing | lge_status.cc:284-291 | an unknown command sends nothing |
| LineTexts.ConstantSent | lge_status.cc:292-297 | a command without arguments sends its row's code, ` 00 `, text and a carriage return, with the row's pause; given arguments it sends nothing |
| LineTexts.ByteSent | lge_status.cc:300-301 | read back from the message of a command with one byte argument: the row's code, ` 00 `, two digits that are the argument, the end, and the row's pause; with another number of arguments nothing is sent |
| LineTexts.WordSent | lge_status.cc:298-299 | read back from the message of a command with a two-byte argument: the row's code, ` 00 `, two digits, a blank and two digits that are the argument, high byte first, the suffix, the end, and the row's pause |
| LineTexts.LgeAskedFor | lge_status.cc:213-226 | a status request to an LGE device is the device command of the first row for the code and ` 00 FF` |
| LineTexts.MarantzAskedFor | marantz_status.cc:416-421 | a status request to a Marantz device is an @, at most the first three characters of the code, and `:?` |
| LineTexts.ReplyRead | lge_status.cc:168-211 | a reply put together from its letter, four characters, an acknowledgement and a value: with OK it is reported as acknowledged, with NG as refused, with that value, once for each row with the letters of the oldest message it can answer, in table order; with another acknowledgement not at all; the messages up to that one are removed |
| LineTexts.ShortReply | lge_status.cc:190-199 | a line too short for an acknowledgement is not reported |
| LineTexts.UnmatchedReply | lge_status.cc:175-180 | a line that answers no outstanding message is not reported, and removes all of them |
| LineTexts.PacketRead | marantz_status.cc:345-356 | a packet put together from an @ or none, a code, a colon and an argument is read as that code and argument |
| LineTexts.PacketIgnored | marantz_status.cc:348-372 | a packet without a colon or with an unknown code only removes what is outstanding |
| LineTexts.PacketHandled | marantz_status.cc:343-372 | a packet with a known code: in the row for feedback the layers on are the bits of its digit, a letter counting from A as 0; the row's layer is asked for exactly if it is not on then |
| LineTexts.LayerAskedFor | marantz_status.cc:330-341 | a layer request is `@AST:`, one digit and the end; bit by bit the digit tells the layers that are on and the one asked for |
| LineTexts.PacketEnds | backend.cc:148-159 | an LGE device's packet ends at an x, a Marantz device's at a carriage return, both at a NUL, and nowhere else |
| Candidates.CandidateList.Unlink | complete.c:38-46 | relinking takes exactly the candidate reached out of the list and hands back its successor |
| Candidates.CandidateList.Keep | complete.c:91-102 | the candidate reached stays, with its new offset and exactness, and the list is otherwise as before |
| Candidates.CandidateList.Add | cli.c:340-350 | a new candidate is put in front of the list |
| Completion.Advance | complete.c:91-98 | a matching candidate is marked exact if and only if its next word is the argument's word, and what is left of its name is what follows that word, starting at the name's end or just behind a separator |
| Completion.PruneInexact | complete.c:30-52 | in place, the exact candidates stay in order, and the callback gets the others in order |
| Completion.MatchWord | complete.c:77-104 | in place, the candidates whose next word begins with the word stay in order, moved past that word, the callback gets the others; have_exact tells whether any next word was the word itself |
| Completion.MatchCandidate | complete.c:80-103 | one candidate is kept or taken out; its offset stays within its name, just behind a separator or at the end |
| Completion.MarkComplete | complete.c:118-129 | exactly the candidates whose names are used up are marked |
| Completion.NarrowBy | complete.c:61-107 | one word narrows the list to its prefix matches, and to the exact ones if there are any |
| Completion.FinishUp | complete.c:115-133 | with two or more candidates left, used-up names win if there are any |
| Completion.TakeWords | complete.c:61-113 | the outer loop ends for all arguments, by arguments left and then characters left, and stops early only when no candidate is left, or a single one with nothing of the argument reached taken yet |
| Completion.Complete | complete.c:54-135 | the list in place, the count returned and the callback's calls are those of the word-by-word function; the count never exceeds the number of arguments |
| Completion.CompletionSplits | complete.c:54-135 | candidates left and candidates handed to the callback together are the candidates there were, each exactly once |
| Completion.SurvivorsInOrder | complete.c:54-135 | the candidates left are a sublist of the candidates there were, in the same order |
| Survivors.PassingStep | complete.c:77-107 | one word of the arguments: if no candidate has it next, exactly the candidates whose next word it begins go on, and else exactly those that have it |
| Survivors.LeftExactly | complete.c:54-135 | for any candidates and arguments the candidates left are exactly those that get through the words taken, each word beginning the candidate's next one, or being it where some candidate still there has it; of these the used-up ones if there are any; and if any is left the words are those of the arguments used |
| Survivors.LeftUnlessBeaten | complete.c:80-133 | a candidate that the words taken abbreviate is left, unless another one had the very word where it had a longer one, or was used up at the end |
| Survivors.AloneIsLeft | complete.c:80-133 | a candidate that alone is abbreviated by the arguments is the one left if and only if it has each word exactly that some candidate still there has exactly |
| Survivors.ExactWordBeats | complete.c:99-107 | an instance where it is not: of `vol_up` and `volume_down`, `vol d` abbreviates the second alone and takes the first |
| Survivors.StopsWhenAlone | complete.c:109-112 | at the end of each argument before the last one used, several candidates had got through |
| Survivors.AloneAtStop | complete.c:109-112 | when not all arguments are used, one candidate at most is left |
| Survivors.UsedCounts | complete.c:109-135 | the number of arguments returned is that of the arguments wholly among the words taken, also when no candidate is left |
| Spelling.SpelledAreLeft | complete.c:61-133 | if the words spell the whole remaining name of some candidate, the candidates left are exactly those spelled so, in order, from any point of the run |
| Spelling.SpelledNameSurvives | complete.c:91-107 | a candidate whose whole name the arguments spell, with any of the separators, is always left, even if other names extend it |
| Spelling.SpelledNamesExactly | complete.c:118-133 | without empty words in names, the candidates left are exactly those with the word list of the arguments |
| Spelling.OnlyWordsSpell | complete.c:91-98 | without empty words, nothing but a name's own word list spells the name to its end |
| Spelling.LeftAreAbbreviated | complete.c:80-90 | every candidate left is abbreviated, word for word, by the words of the arguments used |
| Spelling.SpelledNameUsed | complete.c:109-112 | a whole name spelled out is not used up to its last argument if and only if, at the end of an earlier argument, a single candidate begins with the words so far |
| Spelling.LoneNameStopsEarly | complete.c:111-112 | an instance of that: whatever names there are, if only one has a given first word, and a second one after it, the first of two arguments settles it and the second is left over |
| Spelling.WordsEnd | complete.c:66-76 | words end at an underscore, a dash or a blank and at no other character |
| Spelling.AnySeparator | complete.c:66-96 | a name of two words is left when the argument spells it with any of these separators |
| Registry.Switches | api_serverside.cc:254-282 | a line SENA or SDIS with a name: every connection of a server of that name is then enabled or disabled, every other one as before, and nothing else changes; a disabled server takes SENA, but answers SDIS with EDIS |
| Registry.LaterSwitchCounts | api_serverside.cc:254-270 | of two switches of one name only the later one counts |
| Answers.LineAnswered | api_serverside.cc:119-164 | what any line makes the server write and pass on: EDIS from a disabled server except to SENA, nothing to short lines, the known codes to queries, ECMD to unknown requests, nothing else; only SEND with a code is passed on, and only the connection itself is written to |
| Answers.LineSubscribes | api_serverside.cc:209-252 | QURY, STRT and STOP with a code of four characters: a query subscribes once who has no subscription, a start lastingly, a stop ends it |
| Answers.NoSuchCode | api_serverside.cc:209-252 | with a code of another length they do nothing |
| Answers.PiecesCut | api_serverside.cc:119-131 | an argument is cut into pieces of four, the last one possibly shorter, and nothing is lost |
| Answers.KnownKept | api_serverside.cc:119-131 | exactly the known pieces are handed back, as often as asked for and in that order |
| Answers.DecodedEach | api_serverside.cc:155-161 | the arguments passed on are the pieces decoded one by one |
| Answers.NulCuts | api_serverside.cc:305-307 | a line from a client ends at its first NUL |
| Answers.Accepted | api_serverside.cc:333-357 | a new connection has no subscription and is disabled if its server is; others are as before |
| Answers.Gone | api_serverside.cc:329 | a connection that goes takes its own entries along, and nothing else |
| Subscriptions.LinkKeeps | status.cc:60-66 | a new entry and its token keep the one-to-one correspondence of chain entries and tokens of live connections |
| Subscriptions.ReplaceIsStopStart | api_serverside.cc:166-178 | replacing a subscription, where the new entry is linked in before the old token dies, comes to the same state as stopping and starting it |
| Subscriptions.StartKeeps | api_serverside.cc:166-178 | starting, also through replacement, keeps the correspondence |
| Subscriptions.StopKeeps | api_serverside.cc:180-184 | stopping keeps the correspondence |
| Subscriptions.HangupKeeps | api_serverside.cc:329 | a connection going away keeps the correspondence and leaves no entry of its own |
| Subscriptions.NotifyKeeps | status.cc:86-93 | a report, with the one-shot entries it ends, keeps the correspondence |
| Subscriptions.EveryRun | api_serverside.cc:300-330 | in every state of every run of connects, reads, ends of file and reports, chain entries and tokens held by live connections correspond one to one; no entry refers to a dead connection |
| Subscriptions.OneEntryEach | status.cc:60-72 | a connection is subscribed to a code exactly when the chain has an entry for both, and it never has two |
| Subscriptions.LineTurns | api_serverside.cc:209-252 | a line moves exactly its own connection's subscription to its own code, as the machine none / one-shot / lasting says: a query never downgrades or doubles one, a start upgrades it |
| Subscriptions.LineRequests | api_serverside.cc:166-184 | the device is asked for a value exactly when a line registers |
| Subscriptions.ReportTurns | status.cc:86-93 | a report ends one-shots of its code and touches no other subscription |
| Subscriptions.ManyTurns | api_serverside.cc:166-251 | any interleaving of lines of any connections and reports refines the three-state machine for each connection and code |
| Subscriptions.ReportReaches | status.cc:74-93 | a report writes exactly one STAT line to each subscribed connection and nothing to others, and removes exactly the one-shot entries of its code |
| Subscriptions.NumberReaches | status.cc:74-84 | a number reported reaches exactly the subscribed connections, as STAT, the code, four characters that decode to its sign and 23 low bits - the number itself exactly for 24-bit values - and a newline; exactly the one-shots for the code go |
| Notifying.WalkIsNotify | status.cc:86-93 | walking the chain entry by entry, with entries dropping out of it on the way, comes to that, whatever the chain's contents and order |
| Notifying.PartwayStep | api_serverside.cc:186-207 | each callback on the way tells just its own connection and, if one-shot, takes out just its own entry |
| Daemons.Daemon.StatusStartNotify | status.cc:60-66 | the new entry, under an address of its own, is in front of the chain |
| Daemons.Daemon.StatusStopNotify | status.cc:68-72 | the entry of the token's address is taken out of the chain and nothing else |
| Daemons.Daemon.StartNotify | api_serverside.cc:166-178 | chain, tokens and requests in place are those of the operation on values |
| Daemons.Daemon.StopNotify | api_serverside.cc:180-184 | chain and tokens in place are those of the operation on values |
| Daemons.Daemon.QueryNotifyCb | api_serverside.cc:186-196 | a STAT line is written and the subscription stopped |
| Daemons.Daemon.Visit | status.cc:89-92 | the successor taken before the callback is where the walk goes on, whether or not the entry dropped out |
| Daemons.Daemon.Notify | status.cc:86-93 | the loop over the changing chain reaches the declared outcome of a report and keeps the correspondence |
| Daemons.Daemon.NotifyInt | status.cc:74-84 | the same with the number's four-character form |
| Daemons.Daemon.Answer | api_serverside.cc:119-145 | one line is written: the verb and the known ones of the codes asked for, in the order asked |
| Daemons.Daemon.PassCommand | api_serverside.cc:147-164 | a line too short passes nothing on; otherwise the code and all decoded arguments are passed on |
| Daemons.Daemon.Switch | api_serverside.cc:254-270 | the loop over the servers switches exactly those of the name |
| Daemons.Daemon.Handle | api_serverside.cc:274-298 | a disabled server answers EDIS to every line but an enabling one, short lines do nothing, unknown requests are answered ECMD, and the correspondence is kept |
| Daemons.Daemon.Accept | api_serverside.cc:332-357 | a new connection holds no token |
| Daemons.Daemon.ReadCb | api_serverside.cc:300-309 | a read handles the complete lines in order and leaves the rest in the input |
| Daemons.Daemon.CloseConn | api_serverside.cc:329 | the tokens die in whatever order and exactly the connection's entries leave the chain |
| Daemons.Daemon.ErrorCb | api_serverside.cc:317-330 | complete lines and then the leftover are handled before the connection goes with its tokens |
| ClientBytes.ReadsAreOneRead | api_serverside.cc:300-309 | however a client's stream is cut into reads, the server handles the lines of the whole stream in order |
| ClientBytes.LinesHandled | api_serverside.cc:300-309 | lines each ended by a newline are handled one by one under any cutting |
| ClientBytes.OneLineSession | api_serverside.cc:317-330 | a line ended by a newline and one ended only by closing are handled alike, once, under any cutting |
| ClientBytes.EofOfLine | api_serverside.cc:325-329 | at the end of file what is left over is handled as a line, with any NULs in it, and then the connection goes |
| ClientBytes.SendIntCommand | cli.c:132-158 | the bytes written are SEND, four characters of the code and the encoded arguments; the newline prepared is not among them |
| ClientBytes.SentShape | cli.c:132-158 | the bytes are SEND, the code's first four characters and four characters for each argument, its encoding, and no newline |
| ClientBytes.CommandHandled | api_serverside.cc:147-164 | an enabled server passes on exactly the code's first four characters and the arguments reduced to sign and 23 low bits, and changes nothing else |
| ClientBytes.CommandRoundTrip | cli.c:132-158 | from the client's bytes, with newline or without, under any cutting, exactly one command is passed on, with the same arguments if and only if all are 24-bit values |
| Capability.PiecesOfCodes | api_serverside.cc:119-131 | the server cuts a query back into exactly the codes the client joined |
| Capability.MergeCode | cli.c:222-228 | at each code the lines that have come to it are those of the servers that know it, and once these have moved past, the lines are the replies to the rest of the query |
| Capability.MergeIsSupported | cli.c:215-236 | the single pass over the replies keeps, in order, exactly the candidates without a code and those whose code some server knows, also with repeated codes |
| Capability.SupportedMeans | cli.c:215-236 | these are exactly the candidates without a code and those of whose code the first four characters are in some table, each as often as it was there |
| Capability.SupportedInOrder | cli.c:215-236 | and in the order they were in |
| Capability.ServerReplies | api_serverside.cc:119-145 | what a server writes for a query is EDIS if it is disabled, and else the order-preserving filter of the query |
| Capability.FilteringIsExact | cli.c:180-237 | end to end for commands, for any candidates and any servers, disabled ones included, from the lines they write when they handle the query: every line is an expected one, and their merge keeps the built-ins and the candidates some enabled server knows, and no others |
| Capability.StatusFilteringIsExact | cli_notify.c:155-191 | the same for statuses and one server: its line is EDIS exactly if it is disabled, and else its merge keeps exactly the candidates the server knows |
| Capability.Compare | cli.c:223-228 | every line that has come to the code moves past it, and a match is reported exactly when there is such a line |
| Capability.FilterCandidates | cli.c:180-237 | on the list in place: the query is asked unless no candidate has a code; the list is what the single pass keeps, and, the lines being the servers' replies, exactly the supported candidates |
| Capability.FilterNotifies | cli_notify.c:155-191 | on the list in place, the line being the server's reply: a disabled server is reported, exactly when it is disabled, and leaves the list alone; otherwise the list is exactly the candidates the server knows |
| Capability.BuildQuery | cli.c:187-196 | the query holds the codes of the candidates that have one, in order, and the list is as before |
| NotifyClient.Client.StartNotify | cli_notify.c:53-76 | the watch is appended and one STRT line written |
| NotifyClient.Client.StopNotify | cli_notify.c:78-102 | just that watch goes; a STOP line is written exactly when no other watch has its full code |
| NotifyClient.Client.Dispatch | cli_notify.c:252-270 | a report calls the watches with its code in order, up to and with the first that goes with it, which alone is stopped; other lines do nothing |
| NotifyClient.ReportLines | cli_notify.c:255 | a report is STAT and a code of four characters, whatever follows |
| NotifyClient.CallsInOrder | cli_notify.c:260-262 | exactly the watches with the code are called, with the value, in the order of the list |
| NotifyClient.OnceCallsOne | cli_notify.c:260-268 | when every watch goes after one report, a report calls exactly the first watch with its code |
| NotifyClient.ListeningCallsAll | cli_notify.c:260-268 | when no watch goes, each watch with the code is called exactly as often as it is in the list, and no other is |
| NotifyClient.StartAgrees | cli_notify.c:53-76 | starting a watch keeps client and server in agreement |
| NotifyClient.StopAgrees | cli_notify.c:78-102 | for codes of four or more characters: stopping a watch keeps them in agreement if and only if each other watch with the same four characters comes with one of the same full code |
| NotifyClient.TakesAgrees | api_serverside.cc:238-252 | an enabled server handling a message keeps them in agreement |
| NotifyClient.LossAgrees | api_serverside.cc:278-282 | a disabled server losing a message keeps them in agreement if and only if a later message under way names the same code or the message would have changed nothing |
| NotifyClient.OthersAgree | api_serverside.cc:166-207 | other connections' lines and the device's reports keep them in agreement |
| NotifyClient.AlwaysAgrees | cli_notify.c:53-102 | for codes of four characters, as all that can be watched are: in every run of a connection that only starts and stops, in which the server is enabled when it takes a message, whatever is under way and with duplicate codes, applying the messages under way to the server's tokens gives exactly the codes the user watches |
| NotifyClient.RunAgrees | api_serverside.cc:278-282 | over every run from a new connection on, messages lost to a disabled server included: they agree if and only if, for each code that no message under way names, the last message sent and the last one heard both start it or neither does |
| NotifyClient.DisabledDisagrees | api_serverside.cc:278-282 | a run in which they disagree for good: a watch is started, another client disables the server, and then the message reaches it; the EDIS is no report to the client |
| NotifyClient.ConnectionAgrees | api_serverside.cc:278-282 | from a new connection on, the server being disabled and enabled at any time, whenever no message is under way: a code is watched exactly if the last message sent about it starts it, and held exactly if the last one taken while enabled does; so watched and held are the same if none was lost |
| NotifyClient.NumberArrives | status.cc:74-84 | a reported number reaches the watch's callback as its sign and 23 low bits, unchanged exactly for 24-bit values |

## Left out

- Sockets, descriptors, terminal settings, launchd, signals, process supervision and the
  `listener` program: system calls and fixed schedules around them.
- `\r` in client lines: lines end at `\n` only. `evbuffer_readline` also ends them at `\r`, and a
  `\r\n` split across reads can yield an extra empty line there.
- The command, notification, info and enum tables are parameters. Marantz rows without an update
  function are not among them.
- DeviceRuns.EveryRun: covers one open and close of the line. A reopened device starts with an
  empty queue and no timer, so nothing spaces its first write from the last one before.
- Sessions.EverySession: its steps bring genuine replies only; `DeviceRuns.EveryRun` covers lines
  of any kind, without the part about replies.
- Sessions.ReplyMatches: speaks of replies the device sends to commands. A line the device sends
  on its own can remove outstanding commands.
- Spelling.SpelledNamesExactly: asks for names without empty words, because a name that is used
  up matches further empty words; `Spelling.SpelledAreLeft` states the general case.
- Replies.EveryReadReports: the condition is not necessary, because a reply taken for another
  command with the same two letters is reported rightly all the same; `Sessions.PairsRightly` has
  the exact condition for the pairing.
- Backends.BackendDevice.LgeUpdateStatus: hands back what is reported instead of calling the
  rows' update functions, whose reading of the value text is not part of this model.
- Backends.BackendDevice.MaUpdateStatus: of the update functions of the info rows only that of the
  feedback is modelled, and the mask of known fields is not.
- Backends.BackendDevice.ApplyCode: the same.
- The Marantz `send_command` and the formats of its table: like the LGE ones, with signed
  decimals.
- Several devices in one daemon: each has a chain of its own, and the model has one.
- The requests and commands a server passes on are logs; handing them to the device's queue is
  `SendStatusRequest` and `LgeSendCommand`, which are proved apart.
- The client's argument parsing, its output texts and its choice of servers.
- Memory reclamation and exits on failed calls or allocations.
